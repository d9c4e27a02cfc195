/**
 * The landmark panel: landmarks grouped into the three category buckets, the click rule
 * (remove a placed landmark on confirmation, otherwise toggle the active selection) and
 * the placed/total progress.
 */
module LandmarkPanel {
  import opened Wrappers
  import opened Landmarks
  import opened Geometry

  /** The landmarks of `vs` in category `c`, in the order `vs` lists them. */
  function InCategory(vs: seq<Landmark>, c: Category): (bucket: seq<Landmark>)
    ensures |bucket| <= |vs|
    ensures forall l :: l in bucket ==> l in vs && l.category == c
  {
    if vs == [] then []
    else (if vs[0].category == c then [vs[0]] else []) + InCategory(vs[1..], c)
  }

  /** Filtering by category commutes with concatenation, so each bucket keeps the iteration order. */
  lemma {:induction false} InCategoryAppend(a: seq<Landmark>, b: seq<Landmark>, c: Category)
    ensures InCategory(a + b, c) == InCategory(a, c) + InCategory(b, c)
  {
    if a == [] {
      assert a + b == b;
    } else {
      assert (a + b)[1..] == a[1..] + b;
      InCategoryAppend(a[1..], b, c);
    }
  }

  /** Every landmark of `vs` in category `c` is in its bucket. */
  lemma {:induction false} InCategoryComplete(vs: seq<Landmark>, c: Category, l: Landmark)
    requires l in vs && l.category == c
    ensures l in InCategory(vs, c)
  {
    if vs[0] != l {
      InCategoryComplete(vs[1..], c, l);
    }
  }

  /** The bucket of `c` for the one-landmark list `[l]`. */
  function HeadBucket(l: Landmark, c: Category): seq<Landmark> {
    if l.category == c then [l] else []
  }

  lemma InCategoryCons(vs: seq<Landmark>, c: Category)
    requires vs != []
    ensures multiset(InCategory(vs, c)) == multiset(HeadBucket(vs[0], c)) + multiset(InCategory(vs[1..], c))
  {
  }

  lemma MultisetCons(vs: seq<Landmark>)
    requires vs != []
    ensures multiset(vs) == multiset{vs[0]} + multiset(vs[1..])
  {
    assert vs == [vs[0]] + vs[1..];
  }

  /** A landmark lands in exactly one of the three buckets. */
  lemma HeadBucketsPartition(l: Landmark)
    ensures multiset(HeadBucket(l, Skeletal)) + multiset(HeadBucket(l, Dental)) +
            multiset(HeadBucket(l, SoftTissue)) == multiset{l}
  {
  }

  /** The three buckets partition the landmarks: their multisets, and so their sizes, add up to the whole. */
  lemma {:induction false} BucketsPartition(vs: seq<Landmark>)
    ensures multiset(InCategory(vs, Skeletal)) + multiset(InCategory(vs, Dental)) +
            multiset(InCategory(vs, SoftTissue)) == multiset(vs)
    ensures |InCategory(vs, Skeletal)| + |InCategory(vs, Dental)| + |InCategory(vs, SoftTissue)| == |vs|
  {
    if vs != [] {
      BucketsPartition(vs[1..]);
      MultisetCons(vs);
      InCategoryCons(vs, Skeletal);
      InCategoryCons(vs, Dental);
      InCategoryCons(vs, SoftTissue);
      HeadBucketsPartition(vs[0]);
    }
    var s, d, st := InCategory(vs, Skeletal), InCategory(vs, Dental), InCategory(vs, SoftTissue);
    assert |multiset(s) + multiset(d) + multiset(st)| == |s| + |d| + |st|;
  }

  /** The three category buckets of `vs`. */
  function Buckets(vs: seq<Landmark>): (b: map<Category, seq<Landmark>>)
    ensures b.Keys == {Skeletal, Dental, SoftTissue}
  {
    map[Skeletal := InCategory(vs, Skeletal), Dental := InCategory(vs, Dental),
        SoftTissue := InCategory(vs, SoftTissue)]
  }

  /** Pushing one more landmark onto its own bucket gives the buckets of the longer sequence. */
  lemma BucketsStep(vs: seq<Landmark>, l: Landmark)
    requires l.category in Buckets(vs)
    ensures Buckets(vs)[l.category := Buckets(vs)[l.category] + [l]] == Buckets(vs + [l])
  {
    var b, b' := Buckets(vs), Buckets(vs + [l]);
    InCategoryAppend(vs, [l], Skeletal);
    InCategoryAppend(vs, [l], Dental);
    InCategoryAppend(vs, [l], SoftTissue);
    var u := b[l.category := b[l.category] + [l]];
    assert u.Keys == b'.Keys;
    forall c | c in u ensures u[c] == b'[c] {
      if c == l.category {
        assert InCategory([l], c) == [l];
      } else {
        assert InCategory([l], c) == [];
      }
    }
  }

  /** `groupedLandmarks`: three buckets, filled by one pass over `Object.values(landmarks)`. */
  method GroupLandmarks(landmarks: LandmarkRecord) returns (groups: map<Category, seq<Landmark>>)
    ensures groups.Keys == {Skeletal, Dental, SoftTissue}
    ensures groups == Buckets(Values(landmarks))
  {
    groups := map[Skeletal := [], Dental := [], SoftTissue := []];
    var values := Values(landmarks);
    for i := 0 to |values|
      invariant groups == Buckets(values[..i])
    {
      var landmark := values[i];
      assert landmark.category.Skeletal? || landmark.category.Dental? || landmark.category.SoftTissue?;
      groups := groups[landmark.category := groups[landmark.category] + [landmark]];
      BucketsStep(values[..i], landmark);
      assert values[..i + 1] == values[..i] + [landmark];
    }
    assert values[..|values|] == values;
  }

  /** What a click on a landmark's button asks the store to do. */
  datatype ClickAction = RemoveLandmark(id: LandmarkId) | SetActiveLandmark(active: Option<LandmarkId>) | NoAction

  /**
   * `handleLandmarkClick`, with `confirmed` the answer to the removal prompt. Reading the
   * position of an id with no entry throws a TypeError, here `Failure(id)`.
   */
  function LandmarkClick(landmarks: LandmarkRecord, activeLandmarkId: Option<LandmarkId>,
                         landmarkId: LandmarkId, confirmed: bool): (res: Result<ClickAction, LandmarkId>)
    ensures res.Failure? <==> Find(landmarks, landmarkId).None?
    ensures res.Failure? ==> res.error == landmarkId
    ensures res.Success? && Find(landmarks, landmarkId).value.position.Some? ==>
      res.value == (if confirmed then RemoveLandmark(landmarkId) else NoAction)
    ensures res.Success? && Find(landmarks, landmarkId).value.position.None? ==>
      res.value == SetActiveLandmark(if activeLandmarkId == Some(landmarkId) then None else Some(landmarkId))
  {
    match Find(landmarks, landmarkId)
    case None => Failure(landmarkId)
    case Some(landmark) =>
      if landmark.position.Some? then
        if confirmed then Success(RemoveLandmark(landmarkId)) else Success(NoAction)
      else
        Success(SetActiveLandmark(if activeLandmarkId == Some(landmarkId) then None else Some(landmarkId)))
  }

  /** The active selection after the store carries out a click's action. */
  function ActiveAfter(activeLandmarkId: Option<LandmarkId>, action: ClickAction): Option<LandmarkId> {
    if action.SetActiveLandmark? then action.active else activeLandmarkId
  }

  /**
   * Clicking a placed landmark never changes the selection; clicking an unplaced one twice
   * restores a selection that was empty or was that landmark.
   */
  lemma ClickSelection(landmarks: LandmarkRecord, active: Option<LandmarkId>, id: LandmarkId, confirmed: bool)
    requires Find(landmarks, id).Some?
    ensures Find(landmarks, id).value.position.Some? ==>
      ActiveAfter(active, LandmarkClick(landmarks, active, id, confirmed).value) == active
    ensures Find(landmarks, id).value.position.None? && (active.None? || active == Some(id)) ==>
      var once := ActiveAfter(active, LandmarkClick(landmarks, active, id, confirmed).value);
      ActiveAfter(once, LandmarkClick(landmarks, once, id, confirmed).value) == active
  {
  }

  /**
   * `Object.values(landmarks).filter((l) => l.position).length`: never more than the total,
   * and the total exactly when every landmark is placed.
   */
  function PlacedCount(vs: seq<Landmark>): (n: nat)
    ensures n <= |vs|
    ensures n == |vs| <==> forall i :: 0 <= i < |vs| ==> vs[i].position.Some?
  {
    if vs == [] then 0
    else
      var n := (if vs[0].position.Some? then 1 else 0) + PlacedCount(vs[1..]);
      assert forall i :: 1 <= i < |vs| ==> vs[i] == vs[1..][i - 1];
      n
  }

  /** A part over a positive whole is a fraction in [0, 1], and 1 exactly for the whole. */
  lemma RatioFacts(p: real, t: real)
    requires 0.0 <= p <= t && t > 0.0
    ensures 0.0 <= p / t <= 1.0
    ensures p / t == 1.0 <==> p == t
  {
    var q := p / t;
    assert q * t == p;
  }

  /**
   * The progress bar width: placed over total, times 100. For a non-empty record it is a
   * percentage, and 100 exactly when every landmark is placed.
   */
  function ProgressPercent(env: Numerics, landmarks: LandmarkRecord): (percent: real)
    ensures |landmarks| > 0 ==> 0.0 <= percent <= 100.0
    ensures |landmarks| > 0 ==>
      (percent == 100.0 <==> forall i :: 0 <= i < |landmarks| ==> landmarks[i].landmark.position.Some?)
  {
    var vs := Values(landmarks);
    var placed, total := PlacedCount(vs) as real, |vs| as real;
    assert forall i :: 0 <= i < |vs| ==> vs[i] == landmarks[i].landmark;
    if total > 0.0 then
      RatioFacts(placed, total);
      Div(env, placed, total) * 100.0
    else
      Div(env, placed, total) * 100.0
  }
}
