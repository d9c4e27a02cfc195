# Cephalometric analyzer: measurement and diagnosis model

A Dafny model of the logic of a cephalometric analyzer. The user places anatomical
landmarks on a radiograph. The analyzer computes distances and angles between them,
checks each value against a normal range, and derives a skeletal class and a list of
findings. Four parts of the program are modelled:

- `geometry.dfy`, `calculations.dfy`: the measurement engine of `src/utils/calculations.ts`.
  It covers distance, the atan2 angle and the interior angle, which landmarks count as
  placed, and one result per linear or angular definition of the selected analysis. It
  also covers the named SNA, SNB, facial and mandibular plane angles, low/normal/high
  validation, interpretation text, ANB and the skeletal class.
- `results_panel.dfy`: the diagnosis built by `src/components/results-panel.tsx`, and its
  normal/abnormal summary counts.
- `calibration_panel.dfy`: the calibration panel as a class. Its handlers update
  `calibrationMode`, `point1`, `point2`, the known-distance text and the store's `imageScale`.
- `landmark_panel.dfy`: the category grouping, the click rule and the progress count of
  `src/components/landmark-panel.tsx`.
- `landmarks.dfy`, `wrappers.dfy`: the types of `src/types/landmarks.ts`, plus Option and Result.

Modelling choices:

- Numbers are `real`. `Math.sqrt`, `Math.atan2`, `Math.acos` and `parseFloat` are fields of a
  `Numerics` value passed to every computation, so every proof holds whatever those
  primitives return. `Conforms` states the ranges that some lemmas assume: `sqrt` is
  non-negative, `sqrt(0) = 0`, `acos` maps [-1, 1] into [0, PI] and `atan2` stays in (-PI, PI].
- `Math.PI` is the constant 3.141592653589793.
- Division by zero yields NaN or an infinity, which no real can stand for. It yields
  `divByZero(a)`, an unspecified value of the environment. This happens for a zero-length
  vector in the interior angle, an image scale of 0 and an empty landmark map in the progress bar.
- The landmark record `Record<string, Landmark>` is a sequence of key/landmark entries in
  iteration order. `landmarks[id]?.position !== null` holds for an id with no entry, so such
  an id counts as placed.
- After the placement check the source reads `landmarks[id].position!`. For an id with no
  entry that throws a TypeError. The model returns `Failure(id)` for the first such id in
  reading order.
- The analysis definitions module is not part of this model. Its three analyses are a
  `Catalog` parameter. Definitions carry `landmarkIds` as a pair or a triple.
- `window.confirm` is a boolean input. The text of the manual scale input is a parameter.
  The store's `removeLandmark`/`setActiveLandmark` are returned as a `ClickAction`.
- No code in `calibration-panel.tsx` ever sets `point1` or `point2` to a point; they are only
  reset to `null`. So as the panel stands, Calculate always returns early. The model keeps
  the points as plain fields so the later branches can be stated.

Some behaviour a reader might expect is not what the code does; the model follows the code:

- A degenerate angle yields NaN; no error is raised.
- Calibration can set a scale of 0 when the two points coincide.
- Cancel never restores an earlier state; it only clears the mode and the points.
- The findings are fixed texts, not the definitions' interpretation tables.
- The diagnosis needs truthy "sna", "snb" and "anb" measurements, so a value of 0 suppresses it.
- No undo/redo history exists in the code.

## Model

| member | source | states |
|---|---|---|
| `Landmarks.Find` | src/utils/calculations.ts:85 | `landmarks[id]` is the first entry under that key, or absent exactly when no entry has it |
| `Landmarks.WithPosition` | src/store/use-store.ts:21-22 | placing or removing a landmark sets the position of the entry under that id, keeps its other fields, adds no entry and leaves every other id's lookup unchanged |
| `Landmarks.Values` | src/components/landmark-panel.tsx:23 | `Object.values` lists the landmarks in entry order, one per entry |
| `Geometry.Div` | src/utils/calculations.ts:72 | a quotient by a non-zero divisor multiplies back to the dividend |
| `Geometry.SquaredDistanceFacts` | src/utils/calculations.ts:12-14 | the distance radicand is symmetric in the two points, non-negative, and zero for a point and itself |
| `Geometry.Distance` | src/utils/calculations.ts:12-14 | with a conforming sqrt, `calculateDistance` is never negative and is 0 from a point to itself |
| `Geometry.DistanceSymmetric` | src/utils/calculations.ts:12-14 | `calculateDistance(a, b) == calculateDistance(b, a)` |
| `Geometry.Clamp` | src/utils/calculations.ts:73 | the clamped cosine lies in [-1, 1], equals the cosine inside that interval and the nearer bound outside it |
| `Geometry.InteriorAngle` | src/utils/calculations.ts:50-76 | thanks to the clamp, the interior angle lies in [0, 180] degrees whatever the cosine was, given an acos in [0, PI] |
| `Geometry.InteriorAngleSymmetric` | src/utils/calculations.ts:55-72 | swapping the two outer points leaves the interior angle unchanged |
| `Geometry.NormalizeDegrees` | src/utils/calculations.ts:41-42 | a negative difference gets 360 added, a non-negative one is kept as it is; the result is non-negative exactly when the difference is at least -360, and below 360 exactly when the difference is |
| `Geometry.Angle` | src/utils/calculations.ts:23-45 | with atan2 in (-PI, PI], `calculateAngle` lies in [0, 360) |
| `Calculations.SelectAnalysis` | src/utils/calculations.ts:96-101 | "steiner" selects Steiner, "downs" Downs, any other type McNamara |
| `Calculations.AreLandmarksPlaced` | src/utils/calculations.ts:81-86 | true for an empty list; false exactly when some listed id has an entry whose position is null; an id without an entry counts as placed |
| `Calculations.FirstMissing` | src/utils/calculations.ts:115-116 | the first listed id without an entry, or none exactly when every listed id has one |
| `Calculations.LinearValue` | src/utils/calculations.ts:104-124 | null iff one of the two landmarks is unplaced; a TypeError iff both pass the check but one has no entry; otherwise the pixel distance divided by the unchecked scale |
| `Calculations.LinearValueNonNegative` | src/utils/calculations.ts:118-119 | with a positive scale and a conforming sqrt, a computed linear value is non-negative |
| `Calculations.AngularValue` | src/utils/calculations.ts:145-165 | null iff one of the three landmarks is unplaced; a TypeError for the first one without an entry; otherwise the interior angle with `landmarkIds[1]` as vertex |
| `Calculations.CalculateLinearMeasurements` | src/utils/calculations.ts:91-128 | one result per linear definition of the selected analysis, in order, each carrying its definition and its value; or the TypeError of the first definition that raises one |
| `Calculations.CalculateAngularMeasurements` | src/utils/calculations.ts:133-169 | one result per angular definition of the selected analysis, in order, each carrying its definition and its value; or the first TypeError |
| `Calculations.CalculateSNA` | src/utils/calculations.ts:176-188 | null iff sella, nasion or A point is unplaced; a TypeError iff all three pass the check but one has no entry, naming the first such id; a value whenever all three have positions, and that value is the interior angle at nasion between sella and A point |
| `Calculations.CalculateSNB` | src/utils/calculations.ts:191-203 | null iff sella, nasion or B point is unplaced; a TypeError iff all three pass the check but one has no entry, naming the first such id; a value whenever all three have positions, and that value is the interior angle at nasion between sella and B point |
| `Calculations.SNBIgnoresAPoint` | src/utils/calculations.ts:191-203 | placing, moving or removing A point leaves SNB (its value, null or TypeError) unchanged |
| `Calculations.CalculateFacialAngle` | src/utils/calculations.ts:215-227 | null iff nasion, pogonion or porion is unplaced; a TypeError iff all three pass the check but one has no entry, naming the first such id; a value whenever all three have positions, and that value is the interior angle at pogonion between nasion and porion |
| `Calculations.CalculateMandibularPlaneAngle` | src/utils/calculations.ts:230-247 | null iff gonion, menton, sella or nasion is unplaced; a TypeError for the first of them without an entry; a value whenever all four have positions, and that value is the angle at menton between gonion and nasion |
| `Calculations.MandibularPlaneAngleIgnoresSella` | src/utils/calculations.ts:239-246 | once sella is placed, moving it to any other point leaves the mandibular plane angle (its value, null or TypeError) unchanged |
| `Calculations.ValidateMeasurement` | src/utils/calculations.ts:252-259 | low iff value < min; high iff not low and value > max; normal iff min <= value <= max; with min > max a value below min is low |
| `Calculations.ValidateMeasurementMonotone` | src/utils/calculations.ts:252-259 | over a range with min <= max the status never decreases as the value grows, and both bounds are normal |
| `Calculations.GetInterpretation` | src/utils/calculations.ts:264-272 | "Not calculated" for a null value, otherwise the interpretation text of the value's status |
| `Calculations.CalculateANB` | src/utils/calculations.ts:206-212 | null iff either angle is null; otherwise SNB plus ANB gives back SNA |
| `Calculations.GetSkeletalClass` | src/utils/calculations.ts:277-283 | "Cannot determine" iff null; Class III iff anb < 0; Class I iff 0 <= anb <= 4; Class II iff anb > 4 |
| `Calculations.SkeletalClassLabelsDistinct` | src/utils/calculations.ts:277-283 | the four texts `getSkeletalClass` returns are pairwise different, so the text shown identifies the class |
| `Calculations.SkeletalClassMonotone` | src/utils/calculations.ts:280-282 | as ANB grows the class only moves from III through I to II |
| `Calculations.SkeletalClassNeedsBothAngles` | src/utils/calculations.ts:206-212 | the class of SNA minus SNB is undetermined exactly when SNA or SNB is null |
| `ResultsPanel.FindMeasurement` | src/components/results-panel.tsx:14-16 | `find` returns the first measurement with the id, or nothing when none has it |
| `ResultsPanel.CategoryFinding` | src/components/results-panel.tsx:47-65 | a category adds at most one text: the low text below the range, the high text above it, and nothing for a normal status or a missing, null or zero value |
| `ResultsPanel.AddFinding` | src/components/results-panel.tsx:28-45 | one category block appends exactly that category's finding to the list |
| `ResultsPanel.Diagnose` | src/components/results-panel.tsx:13-88 | no diagnosis unless "sna", "snb" and "anb" exist with truthy values; otherwise the class text of the ANB value, the three values copied unchanged, and the ordered findings or the default message |
| `ResultsPanel.Findings` | src/components/results-panel.tsx:83-86 | between one and four findings are shown |
| `ResultsPanel.NormalMessageIffAllNormal` | src/components/results-panel.tsx:83-86 | the list is exactly the normal-relationships message iff all four categories are silent |
| `ResultsPanel.MaxillaryFindingFollowsStatus` | src/components/results-panel.tsx:27-35 | the maxillary texts appear iff SNA is low or high, and that finding comes first |
| `ResultsPanel.OptionalCategoriesSilent` | src/components/results-panel.tsx:47-76 | without a gonial-angle or upper-incisor-sn measurement with a truthy value, that category's texts never appear |
| `ResultsPanel.Readings` | src/components/results-panel.tsx:175 | the summary reads every angular measurement, in order, and then every linear one, each as its value and its normal range |
| `ResultsPanel.MeasuredCount` | src/components/results-panel.tsx:177 | the number of measurements with a value never exceeds the number of measurements, and equals it exactly when every value is non-null |
| `ResultsPanel.NormalCount` | src/components/results-panel.tsx:175-179 | the Normal count never exceeds the number of measured values |
| `ResultsPanel.AbnormalCount` | src/components/results-panel.tsx:188-192 | the Abnormal count never exceeds the number of measured values, and is 0 exactly when no measured value lies outside its range |
| `ResultsPanel.SummaryCountsPartition` | src/components/results-panel.tsx:174-193 | the Normal count plus the Abnormal count equals the number of measurements with a non-null value |
| `ResultsPanel.SummaryCountsOfPanel` | src/components/results-panel.tsx:174-193 | over the panel's own list of angular then linear measurements, the two counts add up to the measured ones, and to every measurement once all have values |
| `CalibrationPanel.ScaleFor` | src/components/calibration-panel.tsx:25-36 | the scale times the known distance gives back the pixel distance; with a conforming sqrt it is never negative, and 0 when the points coincide |
| `CalibrationPanel.ScaleIndependentOfPointOrder` | src/components/calibration-panel.tsx:25-36 | recording the two points in either order gives the same scale |
| `CalibrationPanel.Calibration.constructor` | src/components/calibration-panel.tsx:11-14 | calibration mode off, no points, distance text "10", and the store's initial scale of 1 |
| `CalibrationPanel.Calibration.SetKnownDistance` | src/components/calibration-panel.tsx:84 | editing the distance text changes nothing else |
| `CalibrationPanel.Calibration.StartCalibration` | src/components/calibration-panel.tsx:16-20 | calibration mode on, both points cleared, scale untouched |
| `CalibrationPanel.Calibration.CalculateScale` | src/components/calibration-panel.tsx:22-45 | no-op without both points or with empty text; an unparsable or non-positive distance changes nothing; otherwise the scale becomes pixel distance over millimetres and the mode turns off; the points are kept |
| `CalibrationPanel.Calibration.Cancel` | src/components/calibration-panel.tsx:134-139 | calibration mode off, both points cleared, scale untouched |
| `CalibrationPanel.Calibration.SetManualScale` | src/components/calibration-panel.tsx:161-169 | the scale changes only when the parsed value is positive, and then to that value |
| `LandmarkPanel.InCategory` | src/components/landmark-panel.tsx:23-25 | a bucket holds only landmarks of its category, taken from the map |
| `LandmarkPanel.InCategoryAppend` | src/components/landmark-panel.tsx:23-25 | bucketing commutes with concatenation, so each bucket keeps the map's iteration order |
| `LandmarkPanel.InCategoryComplete` | src/components/landmark-panel.tsx:23-25 | every landmark lands in the bucket of its own category |
| `LandmarkPanel.BucketsPartition` | src/components/landmark-panel.tsx:16-28 | the three buckets partition the landmarks: sizes and multisets add up to the whole |
| `LandmarkPanel.Buckets` | src/components/landmark-panel.tsx:17-21 | the grouping always has exactly the keys skeletal, dental and soft-tissue |
| `LandmarkPanel.BucketsStep` | src/components/landmark-panel.tsx:24 | pushing a landmark onto its own bucket gives the buckets of the longer list |
| `LandmarkPanel.GroupLandmarks` | src/components/landmark-panel.tsx:16-28 | the loop yields exactly the three keys, each bucket being the map's landmarks of that category in order |
| `LandmarkPanel.LandmarkClick` | src/components/landmark-panel.tsx:36-49 | a placed landmark is removed only when confirmed and never changes the selection; an unplaced one clears an active selection of itself and otherwise becomes active; an id without an entry throws |
| `LandmarkPanel.ClickSelection` | src/components/landmark-panel.tsx:40-48 | a click on a placed landmark keeps the selection; two clicks on an unplaced one restore an empty selection or a selection of that landmark |
| `LandmarkPanel.PlacedCount` | src/components/landmark-panel.tsx:146-147 | the placed count never exceeds the total, and equals it iff every landmark is placed |
| `LandmarkPanel.ProgressPercent` | src/components/landmark-panel.tsx:153-158 | for a non-empty map the progress is in [0, 100], and 100 iff every landmark is placed |

## Left out

- Undo/redo and history: `src/store/use-store.ts` is a stub. It has no actions beyond `setImage`, and no history exists in the code.
- `isCalibrated`: the store does not define it and the panel only displays it, so it is not modelled.
- Floating point: NaN, infinities, rounding, `toFixed` and the exact values of `Math.sqrt`, `Math.atan2` and `Math.acos` are not modelled. These primitives are parameters.
- Division by zero: `divByZero` stands in for NaN and the infinities. NaN's special comparison and truthiness behaviour is therefore lost.
- `Geometry.InteriorAngle`: holds for reals only. In JavaScript a zero-length vector makes the cosine NaN, `Math.min`/`Math.max` pass NaN through, and the angle is NaN.
- `CalibrationPanel.Calibration.CalculateScale`: preserving a non-negative scale is proved only for a conforming `Math.sqrt`.
- `pointToLineDistance` (`src/utils/calculations.ts:288-305`): no modelled code calls it.
- Record keys: they are the enumerated landmark ids, not arbitrary strings.
- `Landmarks.Find`: when several entries share a key it returns the first. A JavaScript object cannot hold such a record.
- Alerts and `window.print`: the alert of `handleCalculateScale` is its returned outcome; the others are not modelled.
- The store actions `placeLandmark`, `removeLandmark`, `setActiveLandmark` and `setImageScale` are declared in the store but not implemented. The click rule returns the requested action. `Landmarks.WithPosition` gives the record the first two declare. The scale is a field of the calibration class.
- Rendering is not modelled: `src/app/page.tsx`, the measurements panel, the canvas, markers, lines, the image uploader and the status colours.
- The analysis definitions module and `src/lib/landmark-definitions.ts` are static configuration and are not part of this model.
