/**
 * The results panel's diagnosis: the skeletal class from the "anb" measurement, the
 * SNA/SNB/ANB values, and an ordered list of findings (maxillary, mandibular, growth
 * pattern, dental), with the normal/abnormal summary counts over all measurements.
 */
module ResultsPanel {
  import opened Wrappers
  import opened Calculations

  const MaxillaryRetrognathism := "Maxillary retrognathism (upper jaw positioned posteriorly)"
  const MaxillaryPrognathism := "Maxillary prognathism (upper jaw positioned anteriorly)"
  const MandibularRetrognathism := "Mandibular retrognathism (lower jaw positioned posteriorly)"
  const MandibularPrognathism := "Mandibular prognathism (lower jaw positioned anteriorly)"
  const HorizontalGrowth := "Horizontal growth pattern with reduced lower facial height"
  const VerticalGrowth := "Vertical growth pattern with increased lower facial height"
  const RetroclinedIncisors := "Retroclined upper incisors"
  const ProclinedIncisors := "Proclined upper incisors"
  const NormalRelationships := "Normal skeletal and dental relationships"

  /** The memo's result; `skeletalClass` is the text `getSkeletalClass` returns. */
  datatype Diagnosis = Diagnosis(
    skeletalClass: string,
    snaValue: real,
    snbValue: real,
    anbValue: real,
    findings: seq<string>)

  /** `angularMeasurements.find((m) => m.id === id)`: the first measurement with that id. */
  function FindMeasurement(ms: seq<AngularMeasurement>, id: string): (o: Option<AngularMeasurement>)
    ensures o.None? <==> forall i :: 0 <= i < |ms| ==> ms[i].def.id != id
    ensures o.Some? ==>
      exists k :: 0 <= k < |ms| && ms[k] == o.value && o.value.def.id == id &&
        forall j :: 0 <= j < k ==> ms[j].def.id != id
  {
    if ms == [] then None
    else if ms[0].def.id == id then Some(ms[0])
    else
      var o := FindMeasurement(ms[1..], id);
      assert o.Some? ==>
        exists k :: 0 <= k < |ms| && ms[k] == o.value && o.value.def.id == id &&
          forall j :: 0 <= j < k ==> ms[j].def.id != id
      by {
        if o.Some? {
          var k :| 0 <= k < |ms[1..]| && ms[1..][k] == o.value && o.value.def.id == id &&
            forall j :: 0 <= j < k ==> ms[1..][j].def.id != id;
          assert ms[k + 1] == o.value;
          forall j | 0 <= j < k + 1 ensures ms[j].def.id != id {
            if j > 0 { assert ms[j] == ms[1..][j - 1]; }
          }
        }
      }
      o
  }

  /** `m?.value`. */
  function ValueOf(m: Option<AngularMeasurement>): Option<real> {
    if m.None? then None else m.value.value
  }

  /** JavaScript truthiness of a `number | null | undefined`: `null`, `undefined` and 0 are falsy. */
  predicate Truthy(v: Option<real>) {
    v.Some? && v.value != 0.0
  }

  /** SNA, SNB and ANB measurements all exist with truthy values. */
  predicate DiagnosisAvailable(ms: seq<AngularMeasurement>) {
    && Truthy(ValueOf(FindMeasurement(ms, "sna")))
    && Truthy(ValueOf(FindMeasurement(ms, "snb")))
    && Truthy(ValueOf(FindMeasurement(ms, "anb")))
  }

  /** What one category adds: nothing unless its measurement has a truthy value outside its range. */
  function CategoryFinding(m: Option<AngularMeasurement>, lowText: string, highText: string): (f: seq<string>)
    ensures |f| <= 1
    ensures Truthy(ValueOf(m)) && m.value.value.value < m.value.def.normalRange.min ==> f == [lowText]
    ensures Truthy(ValueOf(m)) && ValidateMeasurement(m.value.value.value, m.value.def.normalRange) == High ==>
      f == [highText]
    ensures f == [] <==>
      !Truthy(ValueOf(m)) || ValidateMeasurement(m.value.value.value, m.value.def.normalRange) == Normal
    ensures f != [] ==> f == [lowText] || f == [highText]
  {
    if !Truthy(ValueOf(m)) then []
    else
      match ValidateMeasurement(m.value.value.value, m.value.def.normalRange)
      case Low => [lowText]
      case High => [highText]
      case Normal => []
  }

  function MaxillaryFinding(ms: seq<AngularMeasurement>): seq<string> {
    CategoryFinding(FindMeasurement(ms, "sna"), MaxillaryRetrognathism, MaxillaryPrognathism)
  }

  function MandibularFinding(ms: seq<AngularMeasurement>): seq<string> {
    CategoryFinding(FindMeasurement(ms, "snb"), MandibularRetrognathism, MandibularPrognathism)
  }

  function GrowthFinding(ms: seq<AngularMeasurement>): seq<string> {
    CategoryFinding(FindMeasurement(ms, "gonial-angle"), HorizontalGrowth, VerticalGrowth)
  }

  function DentalFinding(ms: seq<AngularMeasurement>): seq<string> {
    CategoryFinding(FindMeasurement(ms, "upper-incisor-sn"), RetroclinedIncisors, ProclinedIncisors)
  }

  /** The findings the four categories produce, in the order the panel checks them: at most one each. */
  function ProducedFindings(ms: seq<AngularMeasurement>): (f: seq<string>)
    ensures |f| <= 4
  {
    MaxillaryFinding(ms) + MandibularFinding(ms) + GrowthFinding(ms) + DentalFinding(ms)
  }

  /**
   * The findings shown: the produced ones, or the normal-relationships message when there
   * are none. Between one and four are shown.
   */
  function Findings(ms: seq<AngularMeasurement>): (f: seq<string>)
    ensures 1 <= |f| <= 4
  {
    var produced := ProducedFindings(ms);
    if |produced| > 0 then produced else [NormalRelationships]
  }

  /**
   * One category's block of the memo: push the low or the high text when the measurement's
   * status calls for it, nothing when it is normal.
   */
  method AddFinding(findings: seq<string>, m: AngularMeasurement, lowText: string, highText: string)
    returns (extended: seq<string>)
    requires Truthy(m.value)
    ensures extended == findings + CategoryFinding(Some(m), lowText, highText)
  {
    extended := findings;
    var status := ValidateMeasurement(m.value.value, m.def.normalRange);
    if status == Low {
      extended := extended + [lowText];
    } else if status == High {
      extended := extended + [highText];
    }
  }

  /** The diagnosis memo of the results panel. */
  method Diagnose(angularMeasurements: seq<AngularMeasurement>) returns (diagnosis: Option<Diagnosis>)
    ensures diagnosis.None? <==> !DiagnosisAvailable(angularMeasurements)
    ensures diagnosis.Some? ==>
      var sna := FindMeasurement(angularMeasurements, "sna").value;
      var snb := FindMeasurement(angularMeasurements, "snb").value;
      var anb := FindMeasurement(angularMeasurements, "anb").value;
      && diagnosis.value.skeletalClass == SkeletalClassLabel(GetSkeletalClass(anb.value))
      && diagnosis.value.snaValue == sna.value.value
      && diagnosis.value.snbValue == snb.value.value
      && diagnosis.value.anbValue == anb.value.value
      && diagnosis.value.findings == Findings(angularMeasurements)
  {
    var sna := FindMeasurement(angularMeasurements, "sna");
    var snb := FindMeasurement(angularMeasurements, "snb");
    var anb := FindMeasurement(angularMeasurements, "anb");
    if !Truthy(ValueOf(sna)) || !Truthy(ValueOf(snb)) || !Truthy(ValueOf(anb)) {
      return None;
    }
    var findings: seq<string> := [];

    // Skeletal classification
    var skeletalClass := SkeletalClassLabel(GetSkeletalClass(anb.value.value));

    // Maxillary position
    findings := AddFinding(findings, sna.value, MaxillaryRetrognathism, MaxillaryPrognathism);
    assert findings == MaxillaryFinding(angularMeasurements);

    // Mandibular position
    findings := AddFinding(findings, snb.value, MandibularRetrognathism, MandibularPrognathism);
    ghost var skeletal := MaxillaryFinding(angularMeasurements) + MandibularFinding(angularMeasurements);
    assert findings == skeletal;

    // Growth pattern
    var gonialAngle := FindMeasurement(angularMeasurements, "gonial-angle");
    if Truthy(ValueOf(gonialAngle)) {
      findings := AddFinding(findings, gonialAngle.value, HorizontalGrowth, VerticalGrowth);
    }
    assert findings == skeletal + GrowthFinding(angularMeasurements);

    // Dental findings
    var u1sn := FindMeasurement(angularMeasurements, "upper-incisor-sn");
    if Truthy(ValueOf(u1sn)) {
      findings := AddFinding(findings, u1sn.value, RetroclinedIncisors, ProclinedIncisors);
    }
    assert findings == ProducedFindings(angularMeasurements);

    diagnosis := Some(Diagnosis(
      skeletalClass,
      sna.value.value.value,
      snb.value.value.value,
      anb.value.value.value,
      if |findings| > 0 then findings else [NormalRelationships]));
  }

  /**
   * The normal-relationships message is shown exactly when every category is silent: each
   * measurement is missing, falsy or within its normal range.
   */
  lemma NormalMessageIffAllNormal(ms: seq<AngularMeasurement>)
    ensures Findings(ms) == [NormalRelationships] <==>
      && MaxillaryFinding(ms) == []
      && MandibularFinding(ms) == []
      && GrowthFinding(ms) == []
      && DentalFinding(ms) == []
  {
    var m, mb, g, d := MaxillaryFinding(ms), MandibularFinding(ms), GrowthFinding(ms), DentalFinding(ms);
    var produced := ProducedFindings(ms);
    assert produced == m + mb + g + d;
    NotNormalText(m, MaxillaryRetrognathism, MaxillaryPrognathism);
    NotNormalText(mb, MandibularRetrognathism, MandibularPrognathism);
    NotNormalText(g, HorizontalGrowth, VerticalGrowth);
    NotNormalText(d, RetroclinedIncisors, ProclinedIncisors);
    assert NormalRelationships !in produced;
    assert NormalRelationships in [NormalRelationships];
  }

  /** No category text is the normal-relationships message. */
  lemma NotNormalText(f: seq<string>, lowText: string, highText: string)
    requires |f| <= 1 && (f != [] ==> f == [lowText] || f == [highText])
    requires lowText != NormalRelationships && highText != NormalRelationships
    ensures NormalRelationships !in f
  {
  }

  /** The maxillary finding follows SNA's status: low gives retrognathism, high prognathism, normal neither. */
  lemma MaxillaryFindingFollowsStatus(ms: seq<AngularMeasurement>)
    requires DiagnosisAvailable(ms)
    ensures var sna := FindMeasurement(ms, "sna").value;
      var status := ValidateMeasurement(sna.value.value, sna.def.normalRange);
      && (MaxillaryRetrognathism in Findings(ms) <==> status == Low)
      && (MaxillaryPrognathism in Findings(ms) <==> status == High)
      && (status != Normal ==> Findings(ms)[0] == MaxillaryFinding(ms)[0])
  {
    var rest := MandibularFinding(ms) + GrowthFinding(ms) + DentalFinding(ms);
    assert ProducedFindings(ms) == MaxillaryFinding(ms) + rest;
    assert MaxillaryRetrognathism !in rest && MaxillaryPrognathism !in rest by {
      DistinctTexts(MandibularFinding(ms), MandibularRetrognathism, MandibularPrognathism);
      DistinctTexts(GrowthFinding(ms), HorizontalGrowth, VerticalGrowth);
      DistinctTexts(DentalFinding(ms), RetroclinedIncisors, ProclinedIncisors);
    }
  }

  /** A finding list of one category holds none of the maxillary texts. */
  lemma DistinctTexts(f: seq<string>, lowText: string, highText: string)
    requires |f| <= 1 && (f != [] ==> f == [lowText] || f == [highText])
    requires lowText != MaxillaryRetrognathism && lowText != MaxillaryPrognathism
    requires highText != MaxillaryRetrognathism && highText != MaxillaryPrognathism
    ensures MaxillaryRetrognathism !in f && MaxillaryPrognathism !in f
  {
  }

  /**
   * The growth-pattern and dental categories are optional: without a measurement of that id,
   * or with a null or zero value, neither of their texts is shown.
   */
  lemma OptionalCategoriesSilent(ms: seq<AngularMeasurement>)
    ensures !Truthy(ValueOf(FindMeasurement(ms, "gonial-angle"))) ==>
      HorizontalGrowth !in Findings(ms) && VerticalGrowth !in Findings(ms)
    ensures !Truthy(ValueOf(FindMeasurement(ms, "upper-incisor-sn"))) ==>
      RetroclinedIncisors !in Findings(ms) && ProclinedIncisors !in Findings(ms)
  {
    var m, mb, g, d := MaxillaryFinding(ms), MandibularFinding(ms), GrowthFinding(ms), DentalFinding(ms);
    assert ProducedFindings(ms) == m + mb + g + d;
    assert HorizontalGrowth !in m + mb && VerticalGrowth !in m + mb;
    assert RetroclinedIncisors !in m + mb && ProclinedIncisors !in m + mb;
    assert RetroclinedIncisors !in g && ProclinedIncisors !in g;
    assert HorizontalGrowth !in d && VerticalGrowth !in d;
  }

  /** What the summary counts read of a measurement: its value and its normal range. */
  datatype Reading = Reading(value: Option<real>, normalRange: Range)

  /** `[...angularMeasurements, ...linearMeasurements]`: every angular, then every linear measurement. */
  function Readings(angular: seq<AngularMeasurement>, linear: seq<LinearMeasurement>): (rs: seq<Reading>)
    ensures |rs| == |angular| + |linear|
    ensures forall i :: 0 <= i < |angular| ==> rs[i] == Reading(angular[i].value, angular[i].def.normalRange)
    ensures forall i :: 0 <= i < |linear| ==>
      rs[|angular| + i] == Reading(linear[i].value, linear[i].def.normalRange)
  {
    seq(|angular|, i requires 0 <= i < |angular| => Reading(angular[i].value, angular[i].def.normalRange)) +
    seq(|linear|, i requires 0 <= i < |linear| => Reading(linear[i].value, linear[i].def.normalRange))
  }

  /** A reading with a value inside its range. */
  predicate IsNormal(r: Reading) {
    r.value.Some? && ValidateMeasurement(r.value.value, r.normalRange) == Normal
  }

  /** A reading with a value outside its range. */
  predicate IsAbnormal(r: Reading) {
    r.value.Some? && ValidateMeasurement(r.value.value, r.normalRange) != Normal
  }

  /** The number of measurements with a value; it is the total exactly when every value is there. */
  function MeasuredCount(rs: seq<Reading>): (n: nat)
    ensures n <= |rs|
    ensures n == |rs| <==> forall i :: 0 <= i < |rs| ==> rs[i].value.Some?
  {
    if rs == [] then 0
    else
      var n := (if rs[0].value.Some? then 1 else 0) + MeasuredCount(rs[1..]);
      assert forall i :: 1 <= i < |rs| ==> rs[i] == rs[1..][i - 1];
      n
  }

  /** The "Normal" count: measured values inside their range; never more than the measured ones. */
  function NormalCount(rs: seq<Reading>): (n: nat)
    ensures n <= MeasuredCount(rs)
  {
    if rs == [] then 0 else (if IsNormal(rs[0]) then 1 else 0) + NormalCount(rs[1..])
  }

  /** The "Abnormal" count: measured values outside their range; 0 exactly when none is. */
  function AbnormalCount(rs: seq<Reading>): (n: nat)
    ensures n <= MeasuredCount(rs)
    ensures n == 0 <==> forall i :: 0 <= i < |rs| ==> !IsAbnormal(rs[i])
  {
    if rs == [] then 0
    else
      var n := (if IsAbnormal(rs[0]) then 1 else 0) + AbnormalCount(rs[1..]);
      assert forall i :: 1 <= i < |rs| ==> rs[i] == rs[1..][i - 1];
      n
  }

  /** Every measured value is counted exactly once, as normal or as abnormal. */
  lemma {:induction false} SummaryCountsPartition(rs: seq<Reading>)
    ensures NormalCount(rs) + AbnormalCount(rs) == MeasuredCount(rs)
    ensures NormalCount(rs) + AbnormalCount(rs) <= |rs|
  {
    if rs != [] {
      SummaryCountsPartition(rs[1..]);
    }
  }

  /**
   * The panel's two counts over its own list: together they are the measurements with a
   * value, and every measurement once all of them have one.
   */
  lemma SummaryCountsOfPanel(angular: seq<AngularMeasurement>, linear: seq<LinearMeasurement>)
    ensures var rs := Readings(angular, linear);
      NormalCount(rs) + AbnormalCount(rs) == MeasuredCount(rs) <= |angular| + |linear|
    ensures (forall i :: 0 <= i < |angular| ==> angular[i].value.Some?) &&
            (forall i :: 0 <= i < |linear| ==> linear[i].value.Some?) ==>
      NormalCount(Readings(angular, linear)) + AbnormalCount(Readings(angular, linear)) == |angular| + |linear|
  {
    var rs := Readings(angular, linear);
    SummaryCountsPartition(rs);
    if (forall i :: 0 <= i < |angular| ==> angular[i].value.Some?) &&
       (forall i :: 0 <= i < |linear| ==> linear[i].value.Some?) {
      forall i | 0 <= i < |rs| ensures rs[i].value.Some? {
        if i >= |angular| {
          assert rs[|angular| + (i - |angular|)] == rs[i];
        }
      }
    }
  }
}
