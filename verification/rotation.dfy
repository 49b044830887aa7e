/**
 The angle of the loading indicator while the content is pulled down.

 The indicator stays still for the first 60% of the pull distance and then
 turns through half a circle over the remaining 40%, reaching 180 degrees
 exactly at the threshold. Angles are in degrees over `real`.
 */
module Rotation {

  /** Where the ramp starts: 60% of the threshold. */
  function RampStart(threshold: real): real
  {
    threshold * 0.6
  }

  /** How long the ramp is: 40% of the threshold. */
  function RampLength(threshold: real): real
  {
    threshold * 0.4
  }

  function Min(a: real, b: real): real
  {
    if a <= b then a else b
  }

  function Max(a: real, b: real): real
  {
    if a >= b then a else b
  }

  /** The indicator angle, in degrees, for a given scroll offset. */
  function SymbolRotation(offset: real, threshold: real): (deg: real)
    requires threshold > 0.0
    ensures 0.0 <= deg <= 180.0
    ensures offset < RampStart(threshold) ==> deg == 0.0
    ensures offset >= threshold ==> deg == 180.0
    ensures RampStart(threshold) < offset < threshold ==> 0.0 < deg < 180.0
  {
    if offset < threshold * 0.6 then 0.0
    else
      var h := threshold;
      var d := offset;
      var v := Max(Min(d - h * 0.6, h * 0.4), 0.0);
      assert d >= h ==> v == h * 0.4;
      assert d >= h ==> 180.0 * v / (h * 0.4) == 180.0 by {
        if d >= h { ScaleBack(180.0, h * 0.4); }
      }
      180.0 * v / (h * 0.4)
  }

  /** On the ramp the angle is the distance travelled past the ramp's start,
      scaled so that the full ramp length maps to 180 degrees. */
  lemma RotationOnRamp(offset: real, threshold: real)
    requires threshold > 0.0
    requires RampStart(threshold) <= offset <= threshold
    ensures SymbolRotation(offset, threshold) * RampLength(threshold)
         == 180.0 * (offset - RampStart(threshold))
  {
    var len := RampLength(threshold);
    var x := 180.0 * (offset - RampStart(threshold));
    assert SymbolRotation(offset, threshold) == x / len;
    DivMul(x, len);
  }

  /** Every angle between 0 and 180 degrees is shown at exactly one offset of
      the ramp: the ramp inverts the rotation. */
  lemma RotationInverse(deg: real, threshold: real)
    requires threshold > 0.0
    requires 0.0 <= deg <= 180.0
    ensures var offset := RampStart(threshold) + deg * RampLength(threshold) / 180.0;
            RampStart(threshold) <= offset <= threshold &&
            SymbolRotation(offset, threshold) == deg
  {
    var len := RampLength(threshold);
    var dist := deg * len / 180.0;
    var offset := RampStart(threshold) + dist;
    DivMono(deg * len, 180.0 * len, 180.0);
    ScaleBack(len, 180.0);
    assert 180.0 * len / 180.0 == len;
    assert SymbolRotation(offset, threshold) == 180.0 * dist / len;
    assert 180.0 * dist == deg * len by { DivMul(deg * len, 180.0); }
    ScaleBack(deg, len);
  }

  /** Pulling further never turns the indicator back. */
  lemma RotationMonotone(a: real, b: real, threshold: real)
    requires threshold > 0.0
    requires a <= b
    ensures SymbolRotation(a, threshold) <= SymbolRotation(b, threshold)
  {
    if RampStart(threshold) <= a && b <= threshold {
      var len := RampLength(threshold);
      assert SymbolRotation(a, threshold) == 180.0 * (a - RampStart(threshold)) / len;
      assert SymbolRotation(b, threshold) == 180.0 * (b - RampStart(threshold)) / len;
      DivMono(180.0 * (a - RampStart(threshold)), 180.0 * (b - RampStart(threshold)), len);
    }
  }

  /** Strictly inside the ramp, pulling further always turns the indicator. */
  lemma RotationStrictOnRamp(a: real, b: real, threshold: real)
    requires threshold > 0.0
    requires RampStart(threshold) <= a < b <= threshold
    ensures SymbolRotation(a, threshold) < SymbolRotation(b, threshold)
  {
    var len := RampLength(threshold);
    assert SymbolRotation(a, threshold) == 180.0 * (a - RampStart(threshold)) / len;
    assert SymbolRotation(b, threshold) == 180.0 * (b - RampStart(threshold)) / len;
    DivStrict(180.0 * (a - RampStart(threshold)), 180.0 * (b - RampStart(threshold)), len);
  }

  lemma ScaleBack(x: real, c: real)
    requires c > 0.0
    ensures x * c / c == x
  {
  }

  lemma DivMul(x: real, c: real)
    requires c > 0.0
    ensures x / c * c == x
  {
  }

  lemma DivMono(x: real, y: real, c: real)
    requires c > 0.0
    requires x <= y
    ensures x / c <= y / c
  {
  }

  lemma DivStrict(x: real, y: real, c: real)
    requires c > 0.0
    requires x < y
    ensures x / c < y / c
  {
  }
}
