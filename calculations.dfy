/**
 * The measurement engine and the classifiers: which landmarks count as placed, one value
 * per measurement definition of the selected analysis, the named clinical angles, the
 * low/normal/high validation against a normal range and the skeletal class from ANB.
 *
 * Reading `landmarks[id].position!` for an id the record has no entry for throws a
 * TypeError in the source; that outcome is `Failure(id)` here.
 */
module Calculations {
  import opened Wrappers
  import opened Landmarks
  import opened Geometry

  datatype Range = Range(min: real, max: real)

  /** Interpretation texts of an angular measurement, keyed by status. */
  datatype Interpretation = Interpretation(low: string, normal: string, high: string)

  datatype LinearDef = LinearDef(
    id: string,
    name: string,
    description: string,
    landmarkIds: (LandmarkId, LandmarkId),
    unit: string,
    normalRange: Range)

  /** `landmarkIds` is `[point, vertex, point]`. */
  datatype AngularDef = AngularDef(
    id: string,
    name: string,
    description: string,
    landmarkIds: (LandmarkId, LandmarkId, LandmarkId),
    unit: string,
    normalRange: Range,
    interpretation: Interpretation)

  /** `{ ...measurementDef, value }`: the definition's fields and the computed value. */
  datatype LinearMeasurement = LinearMeasurement(def: LinearDef, value: Option<real>)

  datatype AngularMeasurement = AngularMeasurement(def: AngularDef, value: Option<real>)

  /** The `measurements` lists of one analysis definition. */
  datatype Analysis = Analysis(linear: seq<LinearDef>, angular: seq<AngularDef>)

  /** STEINER_ANALYSIS, DOWNS_ANALYSIS and MCNAMARA_ANALYSIS. */
  datatype Catalog = Catalog(steiner: Analysis, downs: Analysis, mcnamara: Analysis)

  /** The analysis an `analysisType` selects; any type other than the first two selects McNamara. */
  function SelectAnalysis(catalog: Catalog, analysisType: string): (a: Analysis)
    ensures analysisType == "steiner" ==> a == catalog.steiner
    ensures analysisType == "downs" ==> a == catalog.downs
    ensures analysisType != "steiner" && analysisType != "downs" ==> a == catalog.mcnamara
  {
    if analysisType == "steiner" then catalog.steiner
    else if analysisType == "downs" then catalog.downs
    else catalog.mcnamara
  }

  /**
   * `areLandmarksPlaced`: no listed id has an entry whose position is `null`. An id with
   * no entry does not make it false.
   */
  function AreLandmarksPlaced(r: LandmarkRecord, ids: seq<LandmarkId>): (b: bool)
    ensures b <==> forall i :: 0 <= i < |ids| ==> IsPlaced(r, ids[i])
    ensures !b <==>
      exists i :: 0 <= i < |ids| && Find(r, ids[i]).Some? && Find(r, ids[i]).value.position.None?
    ensures ids == [] ==> b
  {
    if ids == [] then true
    else IsPlaced(r, ids[0]) && AreLandmarksPlaced(r, ids[1..])
  }

  /** The first listed id the record has no entry for. */
  function FirstMissing(r: LandmarkRecord, ids: seq<LandmarkId>): (o: Option<LandmarkId>)
    ensures o.None? <==> forall i :: 0 <= i < |ids| ==> Find(r, ids[i]).Some?
    ensures o.Some? ==>
      exists k :: 0 <= k < |ids| && ids[k] == o.value && Find(r, ids[k]).None? &&
        forall j :: 0 <= j < k ==> Find(r, ids[j]).Some?
  {
    if ids == [] then None
    else if Find(r, ids[0]).None? then Some(ids[0])
    else
      var o := FirstMissing(r, ids[1..]);
      assert o.Some? ==>
        exists k :: 0 <= k < |ids| && ids[k] == o.value && Find(r, ids[k]).None? &&
          forall j :: 0 <= j < k ==> Find(r, ids[j]).Some?
      by {
        if o.Some? {
          var k :| 0 <= k < |ids[1..]| && ids[1..][k] == o.value && Find(r, ids[1..][k]).None? &&
            forall j :: 0 <= j < k ==> Find(r, ids[1..][j]).Some?;
          assert ids[k + 1] == o.value;
          forall j | 0 <= j < k + 1 ensures Find(r, ids[j]).Some? {
            if j > 0 { assert ids[j] == ids[1..][j - 1]; }
          }
        }
      }
      o
  }

  /** One unfolding of the placement check and of the first-missing search. */
  lemma PlacementStep(r: LandmarkRecord, ids: seq<LandmarkId>)
    requires ids != []
    ensures AreLandmarksPlaced(r, ids) == (IsPlaced(r, ids[0]) && AreLandmarksPlaced(r, ids[1..]))
    ensures FirstMissing(r, ids) == if Find(r, ids[0]).None? then Some(ids[0]) else FirstMissing(r, ids[1..])
  {
  }

  /** The placement check and the first missing id of a four-element list, spelt out. */
  lemma PlacementOfFour(r: LandmarkRecord, a: LandmarkId, b: LandmarkId, c: LandmarkId, d: LandmarkId)
    ensures AreLandmarksPlaced(r, [a, b, c, d]) <==> IsPlaced(r, a) && IsPlaced(r, b) && IsPlaced(r, c) && IsPlaced(r, d)
    ensures FirstMissing(r, [a, b, c, d]) ==
      if Find(r, a).None? then Some(a) else if Find(r, b).None? then Some(b)
      else if Find(r, c).None? then Some(c) else if Find(r, d).None? then Some(d) else None
  {
    var s4, s3, s2, s1: seq<LandmarkId> := [a, b, c, d], [b, c, d], [c, d], [d];
    assert s4[1..] == s3 && s3[1..] == s2 && s2[1..] == s1 && s1[1..] == [];
    PlacementStep(r, s4);
    PlacementStep(r, s3);
    PlacementStep(r, s2);
    PlacementStep(r, s1);
  }

  /** The placement check and the first missing id of a three-element list, spelt out. */
  lemma PlacementOfThree(r: LandmarkRecord, a: LandmarkId, b: LandmarkId, c: LandmarkId)
    ensures AreLandmarksPlaced(r, [a, b, c]) <==> IsPlaced(r, a) && IsPlaced(r, b) && IsPlaced(r, c)
    ensures FirstMissing(r, [a, b, c]) ==
      if Find(r, a).None? then Some(a) else if Find(r, b).None? then Some(b)
      else if Find(r, c).None? then Some(c) else None
  {
    var s3, s2, s1: seq<LandmarkId> := [a, b, c], [b, c], [c];
    assert s3[1..] == s2 && s2[1..] == s1 && s1[1..] == [];
    PlacementStep(r, s3);
    PlacementStep(r, s2);
    PlacementStep(r, s1);
  }

  /** The landmark stored under `id` exists and has a position. */
  predicate HasPosition(r: LandmarkRecord, id: LandmarkId) {
    Find(r, id).Some? && Find(r, id).value.position.Some?
  }

  /** `landmarks[id].position!`. */
  function Pos(r: LandmarkRecord, id: LandmarkId): Point
    requires HasPosition(r, id)
  {
    Find(r, id).value.position.value
  }

  /** Once every listed id is placed and has an entry, every listed id has a position. */
  lemma PlacedAndPresent(r: LandmarkRecord, ids: seq<LandmarkId>, x: LandmarkId)
    requires AreLandmarksPlaced(r, ids) && FirstMissing(r, ids).None?
    requires x in ids
    ensures HasPosition(r, x)
  {
    var i :| 0 <= i < |ids| && ids[i] == x;
    assert IsPlaced(r, ids[i]) && Find(r, ids[i]).Some?;
  }

  /**
   * The shape every landmark-based value shares: `null` unless all of `required` are
   * placed, a TypeError for the first of them without an entry, otherwise the interior
   * angle at `vertex`.
   */
  function AngleOf(env: Numerics, r: LandmarkRecord, required: seq<LandmarkId>,
                   first: LandmarkId, vertex: LandmarkId, third: LandmarkId): (res: Result<Option<real>, LandmarkId>)
    requires first in required && vertex in required && third in required
  {
    if !AreLandmarksPlaced(r, required) then Success(None)
    else match FirstMissing(r, required)
      case Some(id) => Failure(id)
      case None =>
        PlacedAndPresent(r, required, first);
        PlacedAndPresent(r, required, vertex);
        PlacedAndPresent(r, required, third);
        Success(Some(InteriorAngle(env, Pos(r, first), Pos(r, vertex), Pos(r, third))))
  }

  /** Two records that agree on every required id give the same value. */
  lemma {:induction false} PlacementAgrees(r1: LandmarkRecord, r2: LandmarkRecord, ids: seq<LandmarkId>)
    requires forall x :: x in ids ==> Find(r1, x) == Find(r2, x)
    ensures AreLandmarksPlaced(r1, ids) == AreLandmarksPlaced(r2, ids)
    ensures FirstMissing(r1, ids) == FirstMissing(r2, ids)
  {
    if ids != [] {
      assert ids[0] in ids;
      PlacementAgrees(r1, r2, ids[1..]);
    }
  }

  lemma AngleOfDependsOnlyOnRequired(env: Numerics, r1: LandmarkRecord, r2: LandmarkRecord,
                                     required: seq<LandmarkId>, first: LandmarkId, vertex: LandmarkId, third: LandmarkId)
    requires first in required && vertex in required && third in required
    requires forall x :: x in required ==> Find(r1, x) == Find(r2, x)
    ensures AngleOf(env, r1, required, first, vertex, third) == AngleOf(env, r2, required, first, vertex, third)
  {
    PlacementAgrees(r1, r2, required);
  }

  /** `calculateDistance(p1, p2) / imageScale` for a linear definition, with the same null and TypeError cases. */
  function LinearValue(env: Numerics, r: LandmarkRecord, imageScale: real, d: LinearDef): (res: Result<Option<real>, LandmarkId>)
    ensures res == Success(None) <==> !IsPlaced(r, d.landmarkIds.0) || !IsPlaced(r, d.landmarkIds.1)
    ensures res.Failure? <==>
      IsPlaced(r, d.landmarkIds.0) && IsPlaced(r, d.landmarkIds.1) &&
      (Find(r, d.landmarkIds.0).None? || Find(r, d.landmarkIds.1).None?)
    ensures res.Failure? ==>
      res.error == if Find(r, d.landmarkIds.0).None? then d.landmarkIds.0 else d.landmarkIds.1
    ensures res.Success? && res.value.Some? ==>
      HasPosition(r, d.landmarkIds.0) && HasPosition(r, d.landmarkIds.1) &&
      res.value.value == Div(env, Distance(env, Pos(r, d.landmarkIds.0), Pos(r, d.landmarkIds.1)), imageScale)
  {
    var (id1, id2) := d.landmarkIds;
    var ids := [id1, id2];
    assert ids[0] == id1 && ids[1] == id2;
    if !AreLandmarksPlaced(r, ids) then Success(None)
    else match FirstMissing(r, ids)
      case Some(id) => Failure(id)
      case None =>
        PlacedAndPresent(r, ids, id1);
        PlacedAndPresent(r, ids, id2);
        Success(Some(Div(env, Distance(env, Pos(r, id1), Pos(r, id2)), imageScale)))
  }

  /** With a positive scale, a computed linear value is a length: never negative. */
  lemma LinearValueNonNegative(env: Numerics, r: LandmarkRecord, imageScale: real, d: LinearDef)
    requires Conforms(env) && imageScale > 0.0
    requires LinearValue(env, r, imageScale, d).Success? && LinearValue(env, r, imageScale, d).value.Some?
    ensures LinearValue(env, r, imageScale, d).value.value >= 0.0
  {
    var p1, p2 := Pos(r, d.landmarkIds.0), Pos(r, d.landmarkIds.1);
    DistanceSymmetric(env, p1, p2);
    assert Distance(env, p1, p2) / imageScale >= 0.0;
  }

  /** The interior angle of an angular definition, `landmarkIds[1]` being the vertex. */
  function AngularValue(env: Numerics, r: LandmarkRecord, d: AngularDef): (res: Result<Option<real>, LandmarkId>)
    ensures var (a, v, c) := d.landmarkIds;
      && (res == Success(None) <==> !IsPlaced(r, a) || !IsPlaced(r, v) || !IsPlaced(r, c))
      && (res.Failure? <==>
            IsPlaced(r, a) && IsPlaced(r, v) && IsPlaced(r, c) &&
            (Find(r, a).None? || Find(r, v).None? || Find(r, c).None?))
      && (res.Failure? ==>
            res.error == if Find(r, a).None? then a else if Find(r, v).None? then v else c)
      && (res.Success? && res.value.Some? ==>
            HasPosition(r, a) && HasPosition(r, v) && HasPosition(r, c) &&
            res.value.value == InteriorAngle(env, Pos(r, a), Pos(r, v), Pos(r, c)))
  {
    var (a, v, c) := d.landmarkIds;
    var ids := [a, v, c];
    assert ids[0] == a && ids[1] == v && ids[2] == c;
    AngleOf(env, r, ids, a, v, c)
  }

  /**
   * `calculateLinearMeasurements`: one result per linear definition of the selected
   * analysis, in definition order. The scale is not checked.
   */
  method CalculateLinearMeasurements(env: Numerics, landmarks: LandmarkRecord, imageScale: real,
                                     catalog: Catalog, analysisType: string)
    returns (res: Result<seq<LinearMeasurement>, LandmarkId>)
    ensures var defs := SelectAnalysis(catalog, analysisType).linear;
      match res
      case Success(ms) =>
        && |ms| == |defs|
        && forall i :: 0 <= i < |defs| ==>
             LinearValue(env, landmarks, imageScale, defs[i]).Success? &&
             ms[i] == LinearMeasurement(defs[i], LinearValue(env, landmarks, imageScale, defs[i]).value)
      case Failure(id) =>
        exists k :: 0 <= k < |defs| && LinearValue(env, landmarks, imageScale, defs[k]) == Failure(id) &&
          forall j :: 0 <= j < k ==> LinearValue(env, landmarks, imageScale, defs[j]).Success?
  {
    var analysis := SelectAnalysis(catalog, analysisType);
    var defs := analysis.linear;
    var measurements: seq<LinearMeasurement> := [];
    for i := 0 to |defs|
      invariant |measurements| == i
      invariant forall j :: 0 <= j < i ==>
        LinearValue(env, landmarks, imageScale, defs[j]).Success? &&
        measurements[j] == LinearMeasurement(defs[j], LinearValue(env, landmarks, imageScale, defs[j]).value)
    {
      var measurementDef := defs[i];
      var (id1, id2) := measurementDef.landmarkIds;
      if !AreLandmarksPlaced(landmarks, [id1, id2]) {
        measurements := measurements + [LinearMeasurement(measurementDef, None)];
        continue;
      }
      assert IsPlaced(landmarks, [id1, id2][0]) && IsPlaced(landmarks, [id1, id2][1]);
      var entry1 := Find(landmarks, id1);
      if entry1.None? {
        return Failure(id1);
      }
      var entry2 := Find(landmarks, id2);
      if entry2.None? {
        return Failure(id2);
      }
      var point1 := entry1.value.position.value;
      var point2 := entry2.value.position.value;
      var pixelDistance := Distance(env, point1, point2);
      var mmDistance := Div(env, pixelDistance, imageScale);
      measurements := measurements + [LinearMeasurement(measurementDef, Some(mmDistance))];
    }
    return Success(measurements);
  }

  /** `calculateAngularMeasurements`: one result per angular definition of the selected analysis, in order. */
  method CalculateAngularMeasurements(env: Numerics, landmarks: LandmarkRecord, catalog: Catalog, analysisType: string)
    returns (res: Result<seq<AngularMeasurement>, LandmarkId>)
    ensures var defs := SelectAnalysis(catalog, analysisType).angular;
      match res
      case Success(ms) =>
        && |ms| == |defs|
        && forall i :: 0 <= i < |defs| ==>
             AngularValue(env, landmarks, defs[i]).Success? &&
             ms[i] == AngularMeasurement(defs[i], AngularValue(env, landmarks, defs[i]).value)
      case Failure(id) =>
        exists k :: 0 <= k < |defs| && AngularValue(env, landmarks, defs[k]) == Failure(id) &&
          forall j :: 0 <= j < k ==> AngularValue(env, landmarks, defs[j]).Success?
  {
    var analysis := SelectAnalysis(catalog, analysisType);
    var defs := analysis.angular;
    var measurements: seq<AngularMeasurement> := [];
    for i := 0 to |defs|
      invariant |measurements| == i
      invariant forall j :: 0 <= j < i ==>
        AngularValue(env, landmarks, defs[j]).Success? &&
        measurements[j] == AngularMeasurement(defs[j], AngularValue(env, landmarks, defs[j]).value)
    {
      var measurementDef := defs[i];
      var (id1, vertexId, id3) := measurementDef.landmarkIds;
      if !AreLandmarksPlaced(landmarks, [id1, vertexId, id3]) {
        measurements := measurements + [AngularMeasurement(measurementDef, None)];
        continue;
      }
      assert IsPlaced(landmarks, [id1, vertexId, id3][0]) && IsPlaced(landmarks, [id1, vertexId, id3][1]);
      assert IsPlaced(landmarks, [id1, vertexId, id3][2]);
      var entry1 := Find(landmarks, id1);
      if entry1.None? {
        return Failure(id1);
      }
      var entryVertex := Find(landmarks, vertexId);
      if entryVertex.None? {
        return Failure(vertexId);
      }
      var entry3 := Find(landmarks, id3);
      if entry3.None? {
        return Failure(id3);
      }
      var point1 := entry1.value.position.value;
      var vertex := entryVertex.value.position.value;
      var point3 := entry3.value.position.value;
      var angle := InteriorAngle(env, point1, vertex, point3);
      measurements := measurements + [AngularMeasurement(measurementDef, Some(angle))];
    }
    return Success(measurements);
  }

  /** `calculateSNA`: the angle at nasion between sella and A point. */
  function CalculateSNA(env: Numerics, r: LandmarkRecord): (res: Result<Option<real>, LandmarkId>)
    ensures res == Success(None) <==> !IsPlaced(r, Sella) || !IsPlaced(r, Nasion) || !IsPlaced(r, APoint)
    ensures res.Failure? <==>
      IsPlaced(r, Sella) && IsPlaced(r, Nasion) && IsPlaced(r, APoint) &&
      (Find(r, Sella).None? || Find(r, Nasion).None? || Find(r, APoint).None?)
    ensures res.Failure? ==>
      res.error == if Find(r, Sella).None? then Sella else if Find(r, Nasion).None? then Nasion else APoint
    ensures HasPosition(r, Sella) && HasPosition(r, Nasion) && HasPosition(r, APoint) ==> res.Success? && res.value.Some?
    ensures res.Success? && res.value.Some? ==>
      HasPosition(r, Sella) && HasPosition(r, Nasion) && HasPosition(r, APoint) &&
      res.value.value == InteriorAngle(env, Pos(r, Sella), Pos(r, Nasion), Pos(r, APoint))
  {
    var ids := [Sella, Nasion, APoint];
    PlacementOfThree(r, Sella, Nasion, APoint);
    assert ids[0] == Sella && ids[1] == Nasion && ids[2] == APoint;
    AngleOf(env, r, ids, Sella, Nasion, APoint)
  }

  /** `calculateSNB`: the angle at nasion between sella and B point. */
  function CalculateSNB(env: Numerics, r: LandmarkRecord): (res: Result<Option<real>, LandmarkId>)
    ensures res == Success(None) <==> !IsPlaced(r, Sella) || !IsPlaced(r, Nasion) || !IsPlaced(r, BPoint)
    ensures res.Failure? <==>
      IsPlaced(r, Sella) && IsPlaced(r, Nasion) && IsPlaced(r, BPoint) &&
      (Find(r, Sella).None? || Find(r, Nasion).None? || Find(r, BPoint).None?)
    ensures res.Failure? ==>
      res.error == if Find(r, Sella).None? then Sella else if Find(r, Nasion).None? then Nasion else BPoint
    ensures HasPosition(r, Sella) && HasPosition(r, Nasion) && HasPosition(r, BPoint) ==> res.Success? && res.value.Some?
    ensures res.Success? && res.value.Some? ==>
      HasPosition(r, Sella) && HasPosition(r, Nasion) && HasPosition(r, BPoint) &&
      res.value.value == InteriorAngle(env, Pos(r, Sella), Pos(r, Nasion), Pos(r, BPoint))
  {
    var ids := [Sella, Nasion, BPoint];
    PlacementOfThree(r, Sella, Nasion, BPoint);
    assert ids[0] == Sella && ids[1] == Nasion && ids[2] == BPoint;
    AngleOf(env, r, ids, Sella, Nasion, BPoint)
  }

  /** `calculateFacialAngle`: the angle at pogonion between nasion and porion. */
  function CalculateFacialAngle(env: Numerics, r: LandmarkRecord): (res: Result<Option<real>, LandmarkId>)
    ensures res == Success(None) <==> !IsPlaced(r, Nasion) || !IsPlaced(r, Pogonion) || !IsPlaced(r, Porion)
    ensures res.Failure? <==>
      IsPlaced(r, Nasion) && IsPlaced(r, Pogonion) && IsPlaced(r, Porion) &&
      (Find(r, Nasion).None? || Find(r, Pogonion).None? || Find(r, Porion).None?)
    ensures res.Failure? ==>
      res.error == if Find(r, Nasion).None? then Nasion else if Find(r, Pogonion).None? then Pogonion else Porion
    ensures HasPosition(r, Nasion) && HasPosition(r, Pogonion) && HasPosition(r, Porion) ==> res.Success? && res.value.Some?
    ensures res.Success? && res.value.Some? ==>
      HasPosition(r, Nasion) && HasPosition(r, Pogonion) && HasPosition(r, Porion) &&
      res.value.value == InteriorAngle(env, Pos(r, Nasion), Pos(r, Pogonion), Pos(r, Porion))
  {
    var ids := [Nasion, Pogonion, Porion];
    PlacementOfThree(r, Nasion, Pogonion, Porion);
    assert ids[0] == Nasion && ids[1] == Pogonion && ids[2] == Porion;
    AngleOf(env, r, ids, Nasion, Pogonion, Porion)
  }

  /**
   * `calculateMandibularPlaneAngle`: requires gonion, menton, sella and nasion, but is
   * the angle at menton between gonion and nasion, so sella only gates it.
   */
  function CalculateMandibularPlaneAngle(env: Numerics, r: LandmarkRecord): (res: Result<Option<real>, LandmarkId>)
    ensures res == Success(None) <==>
      !IsPlaced(r, Gonion) || !IsPlaced(r, Menton) || !IsPlaced(r, Sella) || !IsPlaced(r, Nasion)
    ensures res.Failure? <==>
      IsPlaced(r, Gonion) && IsPlaced(r, Menton) && IsPlaced(r, Sella) && IsPlaced(r, Nasion) &&
      (Find(r, Gonion).None? || Find(r, Menton).None? || Find(r, Sella).None? || Find(r, Nasion).None?)
    ensures res.Failure? ==>
      res.error == if Find(r, Gonion).None? then Gonion else if Find(r, Menton).None? then Menton
                   else if Find(r, Sella).None? then Sella else Nasion
    ensures res.Success? && res.value.Some? ==>
      HasPosition(r, Gonion) && HasPosition(r, Menton) && HasPosition(r, Sella) && HasPosition(r, Nasion) &&
      res.value.value == InteriorAngle(env, Pos(r, Gonion), Pos(r, Menton), Pos(r, Nasion))
    ensures HasPosition(r, Gonion) && HasPosition(r, Menton) && HasPosition(r, Sella) && HasPosition(r, Nasion) ==>
      res.Success? && res.value.Some?
  {
    var ids := [Gonion, Menton, Sella, Nasion];
    PlacementOfFour(r, Gonion, Menton, Sella, Nasion);
    assert ids[0] == Gonion && ids[1] == Menton && ids[3] == Nasion;
    AngleOf(env, r, ids, Gonion, Menton, Nasion)
  }

  /**
   * Moving sella leaves the mandibular plane angle unchanged: once sella is placed,
   * giving it any other position yields the same value, or the same null or TypeError.
   */
  lemma MandibularPlaneAngleIgnoresSella(env: Numerics, r: LandmarkRecord, p: Point)
    requires HasPosition(r, Sella)
    ensures CalculateMandibularPlaneAngle(env, WithPosition(r, Sella, Some(p))) == CalculateMandibularPlaneAngle(env, r)
  {
    var moved := WithPosition(r, Sella, Some(p));
    var res1, res2 := CalculateMandibularPlaneAngle(env, r), CalculateMandibularPlaneAngle(env, moved);
    assert HasPosition(moved, Sella);
    var placed := IsPlaced(r, Gonion) && IsPlaced(r, Menton) && IsPlaced(r, Nasion);
    var present := Find(r, Gonion).Some? && Find(r, Menton).Some? && Find(r, Nasion).Some?;
    if !placed {
      assert res1 == Success(None) == res2;
    } else if !present {
      assert res1.Failure? && res2.Failure? && res1.error == res2.error;
    } else {
      assert res1.Success? && res1.value.Some? && res2.Success? && res2.value.Some?;
      assert Pos(r, Gonion) == Pos(moved, Gonion) && Pos(r, Menton) == Pos(moved, Menton);
      assert Pos(r, Nasion) == Pos(moved, Nasion);
    }
  }

  /**
   * SNB reads only sella, nasion and B point: moving, placing or clearing A point leaves
   * it as it was.
   */
  lemma SNBIgnoresAPoint(env: Numerics, r: LandmarkRecord, pos: Option<Point>)
    ensures CalculateSNB(env, WithPosition(r, APoint, pos)) == CalculateSNB(env, r)
  {
    var moved, ids := WithPosition(r, APoint, pos), [Sella, Nasion, BPoint];
    assert ids[0] == Sella && ids[1] == Nasion && ids[2] == BPoint;
    assert forall x :: x in ids ==> x != APoint;
    AngleOfDependsOnlyOnRequired(env, moved, r, ids, Sella, Nasion, BPoint);
  }

  datatype Status = Low | Normal | High

  /** `validateMeasurement`: the low test comes first, so with `min > max` a value below `min` is low. */
  function ValidateMeasurement(value: real, normalRange: Range): (s: Status)
    ensures s == Low <==> value < normalRange.min
    ensures s == High <==> normalRange.min <= value && normalRange.max < value
    ensures s == Normal <==> normalRange.min <= value <= normalRange.max
  {
    if value < normalRange.min then Low
    else if value > normalRange.max then High
    else Normal
  }

  function StatusRank(s: Status): nat {
    match s
    case Low => 0
    case Normal => 1
    case High => 2
  }

  /** Over a well-formed range the status never decreases as the value grows, and both bounds are normal. */
  lemma ValidateMeasurementMonotone(v1: real, v2: real, normalRange: Range)
    requires normalRange.min <= normalRange.max
    requires v1 <= v2
    ensures StatusRank(ValidateMeasurement(v1, normalRange)) <= StatusRank(ValidateMeasurement(v2, normalRange))
    ensures ValidateMeasurement(normalRange.min, normalRange) == Normal
    ensures ValidateMeasurement(normalRange.max, normalRange) == Normal
  {
  }

  /** `getInterpretation`: "Not calculated" for a missing value, else the text for its status. */
  function GetInterpretation(m: AngularMeasurement): (text: string)
    ensures m.value.None? ==> text == "Not calculated"
    ensures m.value.Some? && m.value.value < m.def.normalRange.min ==> text == m.def.interpretation.low
    ensures m.value.Some? && m.def.normalRange.min <= m.value.value <= m.def.normalRange.max ==>
      text == m.def.interpretation.normal
    ensures m.value.Some? && m.def.normalRange.min <= m.value.value && m.def.normalRange.max < m.value.value ==>
      text == m.def.interpretation.high
  {
    match m.value
    case None => "Not calculated"
    case Some(v) =>
      match ValidateMeasurement(v, m.def.normalRange)
      case Low => m.def.interpretation.low
      case Normal => m.def.interpretation.normal
      case High => m.def.interpretation.high
  }

  /** `calculateANB`: `null` when either angle is, else SNA minus SNB. */
  function CalculateANB(sna: Option<real>, snb: Option<real>): (anb: Option<real>)
    ensures anb.None? <==> sna.None? || snb.None?
    ensures anb.Some? ==> snb.value + anb.value == sna.value
  {
    if sna.None? || snb.None? then None else Some(sna.value - snb.value)
  }

  datatype SkeletalClass = CannotDetermine | ClassI | ClassII | ClassIII

  /** The text `getSkeletalClass` returns for each class. */
  function SkeletalClassLabel(c: SkeletalClass): string {
    match c
    case CannotDetermine => "Cannot determine"
    case ClassIII => "Class III (Skeletal underbite)"
    case ClassI => "Class I (Normal skeletal relationship)"
    case ClassII => "Class II (Skeletal overbite)"
  }

  /** The four texts differ, so the text shown identifies the class. */
  lemma SkeletalClassLabelsDistinct(c1: SkeletalClass, c2: SkeletalClass)
    ensures SkeletalClassLabel(c1) == SkeletalClassLabel(c2) <==> c1 == c2
  {
    var l1, l2 := SkeletalClassLabel(c1), SkeletalClassLabel(c2);
    if c1 != c2 {
      assert l1[1] != l2[1] || l1[8] != l2[8];
    }
  }

  /** `getSkeletalClass`: ANB below 0 is Class III, 0 to 4 inclusive Class I, above 4 Class II. */
  function GetSkeletalClass(anb: Option<real>): (c: SkeletalClass)
    ensures c == CannotDetermine <==> anb.None?
    ensures c == ClassIII <==> anb.Some? && anb.value < 0.0
    ensures c == ClassI <==> anb.Some? && 0.0 <= anb.value <= 4.0
    ensures c == ClassII <==> anb.Some? && 4.0 < anb.value
  {
    match anb
    case None => CannotDetermine
    case Some(v) =>
      if v < 0.0 then ClassIII
      else if v <= 4.0 then ClassI
      else ClassII
  }

  /** The class only moves from III through I to II as ANB grows. */
  lemma SkeletalClassMonotone(a1: real, a2: real)
    requires a1 <= a2
    ensures GetSkeletalClass(Some(a1)) == ClassII ==> GetSkeletalClass(Some(a2)) == ClassII
    ensures GetSkeletalClass(Some(a2)) == ClassIII ==> GetSkeletalClass(Some(a1)) == ClassIII
  {
  }

  /** The class from SNA and SNB is undetermined as soon as either is missing. */
  lemma SkeletalClassNeedsBothAngles(sna: Option<real>, snb: Option<real>)
    ensures GetSkeletalClass(CalculateANB(sna, snb)) == CannotDetermine <==> sna.None? || snb.None?
  {
  }
}
