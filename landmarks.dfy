/**
 * The landmark types of the analyzer: points in image pixels, the closed set of landmark
 * ids and categories, and the `Record<string, Landmark>` map the store keeps.
 */
module Landmarks {
  import opened Wrappers

  /** A position in image pixel coordinates. */
  datatype Point = Point(x: real, y: real)

  datatype Category = Skeletal | Dental | SoftTissue

  /** The landmark ids the analyses refer to. */
  datatype LandmarkId =
    | Sella | Nasion | APoint | BPoint | Pogonion | Menton | Gonion | Orbitale | Porion
    | Gnathion | AnteriorNasalSpine | PosteriorNasalSpine | UpperIncisorTip | LowerIncisorTip
    | UpperIncisorRoot | LowerIncisorRoot | Articulare | Basion

  /** A landmark; `position` is `None` until the user places it. */
  datatype Landmark = Landmark(
    id: LandmarkId,
    name: string,
    abbreviation: string,
    description: string,
    position: Option<Point>,
    category: Category,
    color: string)

  /** One property of the landmark record: its key and the landmark stored under it. */
  datatype Entry = Entry(key: LandmarkId, landmark: Landmark)

  /**
   * The landmark record as its entries in iteration order (the order `Object.values`
   * yields them). A lookup finds the first entry with the key.
   */
  type LandmarkRecord = seq<Entry>

  /** `landmarks[id]`: the landmark stored under `id`, or `None` for `undefined`. */
  function Find(r: LandmarkRecord, id: LandmarkId): (o: Option<Landmark>)
    ensures o.None? <==> forall i :: 0 <= i < |r| ==> r[i].key != id
    ensures o.Some? ==>
      exists k :: 0 <= k < |r| && r[k].key == id && r[k].landmark == o.value &&
        forall j :: 0 <= j < k ==> r[j].key != id
  {
    if r == [] then None
    else if r[0].key == id then Some(r[0].landmark)
    else
      var o := Find(r[1..], id);
      assert o.Some? ==>
        exists k :: 1 <= k < |r| && r[k].key == id && r[k].landmark == o.value &&
          forall j :: 1 <= j < k ==> r[j].key != id
      by {
        if o.Some? {
          var k :| 0 <= k < |r[1..]| && r[1..][k].key == id && r[1..][k].landmark == o.value &&
            forall j :: 0 <= j < k ==> r[1..][j].key != id;
          assert r[k + 1].key == id && r[k + 1].landmark == o.value;
          forall j | 1 <= j < k + 1 ensures r[j].key != id { assert r[j] == r[1..][j - 1]; }
        }
      }
      o
  }

  /** `landmarks[id]?.position !== null`: an id without an entry yields `undefined`, which is not `null`. */
  predicate IsPlaced(r: LandmarkRecord, id: LandmarkId) {
    Find(r, id).None? || Find(r, id).value.position.Some?
  }

  /** `Object.values(landmarks)`. */
  function Values(r: LandmarkRecord): (vs: seq<Landmark>)
    ensures |vs| == |r|
    ensures forall i :: 0 <= i < |r| ==> vs[i] == r[i].landmark
  {
    seq(|r|, i requires 0 <= i < |r| => r[i].landmark)
  }

  /**
   * The record after the landmark under `id` gets position `pos` (a user placing,
   * dragging or clearing it); every other entry is left as it was.
   */
  function WithPosition(r: LandmarkRecord, id: LandmarkId, pos: Option<Point>): (r': LandmarkRecord)
    ensures |r'| == |r|
    ensures forall x :: x != id ==> Find(r', x) == Find(r, x)
    ensures Find(r', id) == if Find(r, id).None? then None else Some(Find(r, id).value.(position := pos))
  {
    if r == [] then []
    else
      var head := if r[0].key == id then Entry(id, r[0].landmark.(position := pos)) else r[0];
      var tail := WithPosition(r[1..], id, pos);
      assert ([head] + tail)[1..] == tail;
      [head] + tail
  }
}
