/**
 * The calibration panel: local state `calibrationMode`, `point1`, `point2` and the known
 * distance text, plus the store's `imageScale` (pixels per millimetre) that its handlers set.
 */
module CalibrationPanel {
  import opened Wrappers
  import opened Landmarks
  import opened Geometry

  /**
   * The scale `handleCalculateScale` derives: pixels per millimetre, so that the known
   * distance times the scale is the pixel distance. It is never negative, and is 0 when
   * both points coincide: nothing rejects that case.
   */
  function ScaleFor(env: Numerics, point1: Point, point2: Point, mmDistance: real): (scale: real)
    requires mmDistance > 0.0
    ensures scale * mmDistance == Distance(env, point1, point2)
    ensures Conforms(env) ==> scale >= 0.0
    ensures Conforms(env) && point1 == point2 ==> scale == 0.0
  {
    var d := Distance(env, point1, point2);
    assert Conforms(env) ==> d / mmDistance >= 0.0;
    d / mmDistance
  }

  /** The two points may be recorded in either order. */
  lemma ScaleIndependentOfPointOrder(env: Numerics, point1: Point, point2: Point, mmDistance: real)
    requires mmDistance > 0.0
    ensures ScaleFor(env, point1, point2, mmDistance) == ScaleFor(env, point2, point1, mmDistance)
  {
    DistanceSymmetric(env, point1, point2);
  }

  /** What `handleCalculateScale` reports: an early return, the invalid-distance alert, or success. */
  datatype CalculateOutcome = Ignored | InvalidDistance | Calibrated(scale: real)

  class Calibration {
    var calibrationMode: bool
    var point1: Option<Point>
    var point2: Option<Point>
    var knownDistance: string
    /** The store's `imageScale`, written through `setImageScale`. */
    var imageScale: real

    /** The scale the store holds is never negative. */
    ghost predicate Valid()
      reads this
    {
      imageScale >= 0.0
    }

    /** Initial panel state and the store's initial scale of 1. */
    constructor ()
      ensures Valid()
      ensures !calibrationMode && point1.None? && point2.None?
      ensures knownDistance == "10" && imageScale == 1.0
    {
      calibrationMode := false;
      point1 := None;
      point2 := None;
      knownDistance := "10";
      imageScale := 1.0;
    }

    /** The distance input's `onChange`. */
    method SetKnownDistance(text: string)
      modifies this
      ensures knownDistance == text
      ensures calibrationMode == old(calibrationMode) && point1 == old(point1) && point2 == old(point2)
      ensures imageScale == old(imageScale)
    {
      knownDistance := text;
    }

    /** `handleStartCalibration`: enter calibration mode with no points; the scale is kept. */
    method StartCalibration()
      modifies this
      ensures calibrationMode && point1.None? && point2.None?
      ensures imageScale == old(imageScale) && knownDistance == old(knownDistance)
    {
      calibrationMode := true;
      point1 := None;
      point2 := None;
    }

    /**
     * `handleCalculateScale`: nothing happens without both points or with an empty distance
     * text; a distance that does not parse or is not positive is rejected with no change;
     * otherwise the scale becomes pixel distance over millimetres and calibration mode ends.
     */
    method CalculateScale(env: Numerics) returns (outcome: CalculateOutcome)
      modifies this
      ensures point1 == old(point1) && point2 == old(point2) && knownDistance == old(knownDistance)
      ensures outcome == Ignored <==> old(point1).None? || old(point2).None? || old(knownDistance) == ""
      ensures outcome == InvalidDistance <==>
        old(point1).Some? && old(point2).Some? && old(knownDistance) != "" &&
        (env.parseFloat(old(knownDistance)).None? || env.parseFloat(old(knownDistance)).value <= 0.0)
      ensures outcome.Calibrated? ==>
        && env.parseFloat(old(knownDistance)).Some?
        && env.parseFloat(old(knownDistance)).value > 0.0
        && imageScale == outcome.scale
        && imageScale == ScaleFor(env, old(point1).value, old(point2).value, env.parseFloat(old(knownDistance)).value)
        && !calibrationMode
      ensures !outcome.Calibrated? ==> imageScale == old(imageScale) && calibrationMode == old(calibrationMode)
      ensures Conforms(env) && old(Valid()) ==> Valid()
    {
      if point1.None? || point2.None? || knownDistance == "" {
        return Ignored;
      }
      var p1, p2 := point1.value, point2.value;
      var pixelDistance := Distance(env, p1, p2);
      var mmDistance := env.parseFloat(knownDistance);
      if mmDistance.None? || mmDistance.value <= 0.0 {
        return InvalidDistance;
      }
      var scale := pixelDistance / mmDistance.value;
      assert scale == ScaleFor(env, p1, p2, mmDistance.value);
      imageScale := scale;
      calibrationMode := false;
      return Calibrated(scale);
    }

    /** The Cancel button: leave calibration mode and drop both points; the scale is kept. */
    method Cancel()
      modifies this
      ensures !calibrationMode && point1.None? && point2.None?
      ensures imageScale == old(imageScale) && knownDistance == old(knownDistance)
    {
      calibrationMode := false;
      point1 := None;
      point2 := None;
    }

    /** The manual "Set" button: the parsed scale is taken only when it is positive. */
    method SetManualScale(env: Numerics, text: string)
      modifies this
      ensures env.parseFloat(text).Some? && env.parseFloat(text).value > 0.0 ==>
        imageScale == env.parseFloat(text).value
      ensures !(env.parseFloat(text).Some? && env.parseFloat(text).value > 0.0) ==> imageScale == old(imageScale)
      ensures calibrationMode == old(calibrationMode) && point1 == old(point1) && point2 == old(point2)
      ensures knownDistance == old(knownDistance)
      ensures old(Valid()) ==> Valid()
    {
      var value := env.parseFloat(text);
      if value.Some? && value.value > 0.0 {
        imageScale := value.value;
      }
    }
  }
}
