/** Fixed-point scaling: every attribute value, ratio and target is turned into an integer
    by multiplying with SCALING_FACTOR and applying Python's `int`, which truncates toward zero. */
module Scaling {

  /** SCALING_FACTOR of solver.py. */
  const ScalingFactor: int := 10000

  /** Python's `int(x)` on a finite float: truncation toward zero. */
  function Trunc(x: real): (r: int)
    ensures 0.0 <= x ==> 0 <= r && r as real <= x < r as real + 1.0
    ensures x < 0.0 ==> r <= 0 && r as real - 1.0 < x <= r as real
  {
    if x >= 0.0 then x.Floor else -((-x).Floor)
  }

  /** `int(v * SCALING_FACTOR)`: the scaled integer for an attribute value. */
  function Scale(v: real): (r: int)
    ensures 0.0 <= v <= 1.0 ==> 0 <= r <= ScalingFactor
  {
    Trunc(v * ScalingFactor as real)
  }

  /** `int(ratio * size * SCALING_FACTOR)`: a threshold or target expressed for a whole group. */
  function ScaledShare(ratio: real, size: int): (r: int)
    ensures 0.0 <= ratio <= 1.0 && 0 <= size ==> 0 <= r <= ScalingFactor * size
    ensures ratio == 0.0 || size == 0 ==> r == 0
  {
    var x := ratio * size as real * ScalingFactor as real;
    assert 0.0 <= ratio <= 1.0 && 0 <= size ==> x <= size as real * ScalingFactor as real by {
      if 0.0 <= ratio <= 1.0 && 0 <= size {
        assert ratio * (size as real * ScalingFactor as real) <= 1.0 * (size as real * ScalingFactor as real);
      }
    }
    Trunc(x)
  }

  /** Descaling a scaled value loses less than one unit of 1/SCALING_FACTOR: truncation, not
      rounding, so the scaled value never exceeds the exact one. */
  lemma ScaleRoundTrip(v: real)
    requires 0.0 <= v
    ensures v - 1.0 / ScalingFactor as real < Scale(v) as real / ScalingFactor as real <= v
  {
    var y := v * ScalingFactor as real;
    var r := Trunc(y);
    assert r as real <= y < r as real + 1.0;
    assert r as real / ScalingFactor as real <= v;
    assert v - 1.0 / ScalingFactor as real < r as real / ScalingFactor as real;
  }
}
