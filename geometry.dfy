/**
 * The geometry kernel: Euclidean distance, the atan2-based angle and the acos-based
 * interior angle, over real coordinates.
 *
 * JavaScript's `Math.sqrt`, `Math.atan2`, `Math.acos` and `parseFloat` are not defined
 * here: they are fields of a `Numerics` value every computation takes as a parameter, so
 * each result holds whatever those primitives return. `Conforms` lists the few facts about
 * them the lemmas rely on.
 */
module Geometry {
  import opened Wrappers
  import opened Landmarks

  /** `Math.PI`, the double nearest to pi. */
  const PI: real := 3.141592653589793

  /**
   * The numeric primitives of the JavaScript runtime. `divByZero(a)` is what `a / 0`
   * yields (NaN or an infinity), a value no real number stands for; `parseFloat` gives
   * `None` where JavaScript gives NaN.
   */
  datatype Numerics = Numerics(
    sqrt: real -> real,
    atan2: (real, real) -> real,
    acos: real -> real,
    divByZero: real -> real,
    parseFloat: string -> Option<real>)

  /** The ranges the runtime's primitives keep to on the inputs this code gives them. */
  ghost predicate Conforms(env: Numerics) {
    && (forall x: real :: 0.0 <= x ==> 0.0 <= env.sqrt(x))
    && env.sqrt(0.0) == 0.0
    && (forall c: real :: -1.0 <= c <= 1.0 ==> 0.0 <= env.acos(c) <= PI)
    && (forall y: real, x: real :: -PI < env.atan2(y, x) <= PI)
  }

  /** JavaScript's `a / b`. */
  function Div(env: Numerics, a: real, b: real): (q: real)
    ensures b != 0.0 ==> q * b == a
  {
    if b == 0.0 then env.divByZero(a) else a / b
  }

  /** The radicand of `calculateDistance`: `(p2.x - p1.x)^2 + (p2.y - p1.y)^2`. */
  function SquaredDistance(p1: Point, p2: Point): real {
    (p2.x - p1.x) * (p2.x - p1.x) + (p2.y - p1.y) * (p2.y - p1.y)
  }

  /** `calculateDistance(p1, p2)`: never negative, and 0 from a point to itself, with a conforming `Math.sqrt`. */
  function Distance(env: Numerics, p1: Point, p2: Point): (d: real)
    ensures Conforms(env) ==> d >= 0.0
    ensures Conforms(env) && p1 == p2 ==> d == 0.0
  {
    SquaredDistanceFacts(p1, p2);
    env.sqrt(SquaredDistance(p1, p2))
  }

  lemma SquaredDistanceFacts(p1: Point, p2: Point)
    ensures SquaredDistance(p1, p2) == SquaredDistance(p2, p1)
    ensures SquaredDistance(p1, p2) >= 0.0
    ensures SquaredDistance(p1, p1) == 0.0
  {
    var dx, dy := p2.x - p1.x, p2.y - p1.y;
    assert dx * dx >= 0.0 && dy * dy >= 0.0;
    assert (-dx) * (-dx) == dx * dx && (-dy) * (-dy) == dy * dy;
  }

  /** Distance does not depend on the order of its arguments. */
  lemma DistanceSymmetric(env: Numerics, p1: Point, p2: Point)
    ensures Distance(env, p1, p2) == Distance(env, p2, p1)
  {
    SquaredDistanceFacts(p1, p2);
  }

  /** `Math.max(-1, Math.min(1, c))`. */
  function Clamp(c: real): (r: real)
    ensures -1.0 <= r <= 1.0
    ensures -1.0 <= c <= 1.0 ==> r == c
    ensures c < -1.0 ==> r == -1.0
    ensures 1.0 < c ==> r == 1.0
  {
    var upper := if 1.0 < c then 1.0 else c;
    if -1.0 > upper then -1.0 else upper
  }

  /** The cosine `calculateInteriorAngle` computes before clamping: `dot / (mag1 * mag2)`. */
  function Cosine(env: Numerics, p1: Point, vertex: Point, p3: Point): real {
    var v1 := Point(p1.x - vertex.x, p1.y - vertex.y);
    var v2 := Point(p3.x - vertex.x, p3.y - vertex.y);
    var dot := v1.x * v2.x + v1.y * v2.y;
    var mag1 := env.sqrt(v1.x * v1.x + v1.y * v1.y);
    var mag2 := env.sqrt(v2.x * v2.x + v2.y * v2.y);
    Div(env, dot, mag1 * mag2)
  }

  /**
   * `calculateInteriorAngle(p1, vertex, p3)`, in degrees. The clamp keeps it within
   * [0, 180] whatever the cosine was, given an `acos` that keeps to [0, PI].
   */
  function InteriorAngle(env: Numerics, p1: Point, vertex: Point, p3: Point): (a: real)
    ensures Conforms(env) ==> 0.0 <= a <= 180.0
  {
    var c := Clamp(Cosine(env, p1, vertex, p3));
    AcosDegreesBound(env, c);
    env.acos(c) * (180.0 / PI)
  }

  /** An arccosine in [0, PI] is between 0 and 180 degrees. */
  lemma AcosDegreesBound(env: Numerics, c: real)
    requires -1.0 <= c <= 1.0
    ensures Conforms(env) ==> 0.0 <= env.acos(c) * (180.0 / PI) <= 180.0
  {
    if Conforms(env) {
      DegreesBound(env.acos(c));
    }
  }

  lemma DegreesBound(a: real)
    requires 0.0 <= a <= PI
    ensures 0.0 <= a * (180.0 / PI) <= PI * (180.0 / PI) == 180.0
  {
  }

  /** The interior angle is undirected: swapping the outer points does not change it. */
  lemma InteriorAngleSymmetric(env: Numerics, p1: Point, vertex: Point, p3: Point)
    ensures InteriorAngle(env, p1, vertex, p3) == InteriorAngle(env, p3, vertex, p1)
  {
    var m1 := env.sqrt((p1.x - vertex.x) * (p1.x - vertex.x) + (p1.y - vertex.y) * (p1.y - vertex.y));
    var m3 := env.sqrt((p3.x - vertex.x) * (p3.x - vertex.x) + (p3.y - vertex.y) * (p3.y - vertex.y));
    assert m1 * m3 == m3 * m1;
  }

  /** The normalisation step of `calculateAngle`: add 360 to a negative difference only. */
  function NormalizeDegrees(diff: real): (r: real)
    ensures diff < 0.0 ==> r == diff + 360.0
    ensures 0.0 <= diff ==> r == diff
    ensures 0.0 <= r <==> -360.0 <= diff
    ensures r < 360.0 <==> diff < 360.0
  {
    if diff < 0.0 then diff + 360.0 else diff
  }

  /**
   * `calculateAngle(p1, vertex, p3)`: the direction from the first ray to the second, in
   * degrees. With atan2 in (-PI, PI] it lands in [0, 360).
   */
  function Angle(env: Numerics, p1: Point, vertex: Point, p3: Point): (a: real)
    ensures Conforms(env) ==> 0.0 <= a < 360.0
  {
    var angle1 := env.atan2(p1.y - vertex.y, p1.x - vertex.x);
    var angle2 := env.atan2(p3.y - vertex.y, p3.x - vertex.x);
    DegreesOfDifference(angle1, angle2);
    NormalizeDegrees((angle2 - angle1) * (180.0 / PI))
  }

  /** Two angles in (-PI, PI] differ by less than a full turn. */
  lemma DegreesOfDifference(angle1: real, angle2: real)
    ensures -PI < angle1 <= PI && -PI < angle2 <= PI ==>
      -360.0 < (angle2 - angle1) * (180.0 / PI) < 360.0
  {
    if -PI < angle1 <= PI && -PI < angle2 <= PI {
      DegreesOpenBound(angle2 - angle1);
    }
  }

  lemma DegreesOpenBound(d: real)
    requires -2.0 * PI < d < 2.0 * PI
    ensures -360.0 < d * (180.0 / PI) < 360.0
  {
  }
}
