/**
  The numeric helpers of statedraw.py: the linear remap and the
  aspect-ratio scale of class Plot, Python's `int(...)` on a float, and
  Python's `max`/`min` over a non-empty list of numbers.
*/
module Projection {

  /**
    `Plot.interpolate(x_1, x_2, x_3, newlength)`: where x1 falls on the
    segment from x2 to x3 once that segment is scaled to newLength, measured
    from x2. Python raises ZeroDivisionError when x2 == x3.
  */
  function Interpolate(x1: real, x2: real, x3: real, newLength: real): (r: real)
    requires x2 != x3
    ensures r * (x3 - x2) == (x1 - x2) * newLength
  {
    var q := (x2 - x1) / (x2 - x3);
    assert q * (x2 - x3) == x2 - x1;
    q * newLength
  }

  /**
    `Plot.proportional_height(new_width, width, height)`: the height that
    keeps the aspect ratio height/width at new_width. Python raises
    ZeroDivisionError when width == 0.
  */
  function ProportionalHeight(newWidth: real, width: real, height: real): (r: real)
    requires width != 0.0
    ensures r * width == height * newWidth
  {
    (height / width) * newWidth
  }

  /** Python's `int(x)` on a float: truncation toward zero. */
  function Trunc(x: real): (n: int)
    ensures 0.0 <= x ==> n as real <= x < n as real + 1.0
    ensures x < 0.0 ==> n as real - 1.0 < x <= n as real
  {
    if 0.0 <= x then x.Floor else -((-x).Floor)
  }

  /** Python's `max` over a non-empty list. */
  function MaxOf(s: seq<real>): (m: real)
    requires |s| > 0
    ensures m in s
    ensures forall x | x in s :: x <= m
  {
    if |s| == 1 then s[0]
    else
      var front := s[..|s| - 1];
      assert s == front + [s[|s| - 1]];
      var m := MaxOf(front);
      if s[|s| - 1] > m then s[|s| - 1] else m
  }

  /** Python's `min` over a non-empty list. */
  function MinOf(s: seq<real>): (m: real)
    requires |s| > 0
    ensures m in s
    ensures forall x | x in s :: m <= x
  {
    if |s| == 1 then s[0]
    else
      var front := s[..|s| - 1];
      assert s == front + [s[|s| - 1]];
      var m := MinOf(front);
      if s[|s| - 1] < m then s[|s| - 1] else m
  }

  /** The segment's start maps to 0 and its end to newLength. */
  lemma InterpolateEndpoints(x2: real, x3: real, newLength: real)
    requires x2 != x3
    ensures Interpolate(x2, x2, x3, newLength) == 0.0
    ensures Interpolate(x3, x2, x3, newLength) == newLength
  {
    var a := Interpolate(x2, x2, x3, newLength);
    var b := Interpolate(x3, x2, x3, newLength);
    assert a * (x3 - x2) == 0.0;
    assert b * (x3 - x2) == newLength * (x3 - x2);
  }

  /** A point on an increasing segment lands inside [0, newLength]. */
  lemma InterpolateWithin(x1: real, x2: real, x3: real, newLength: real)
    requires x2 < x3 && 0.0 <= newLength && x2 <= x1 <= x3
    ensures 0.0 <= Interpolate(x1, x2, x3, newLength) <= newLength
  {
    var r := Interpolate(x1, x2, x3, newLength);
    var d := x3 - x2;
    var t := (x1 - x2) / d;
    assert r * d == (t * newLength) * d;
    assert r == t * newLength;
    assert 0.0 <= t <= 1.0;
    assert t * newLength <= 1.0 * newLength;
  }

  /** On an increasing segment with a non-negative length the remap is nondecreasing. */
  lemma InterpolateMonotone(a: real, b: real, x2: real, x3: real, newLength: real)
    requires x2 < x3 && 0.0 <= newLength && a <= b
    ensures Interpolate(a, x2, x3, newLength) <= Interpolate(b, x2, x3, newLength)
  {
    var ra := Interpolate(a, x2, x3, newLength);
    var rb := Interpolate(b, x2, x3, newLength);
    var d := x3 - x2;
    var t := (b - a) / d;
    assert (rb - ra) * d == (t * newLength) * d;
    assert rb - ra == t * newLength;
    assert 0.0 <= t;
  }

  /** Scaling to the original width gives back the original height. */
  lemma ProportionalHeightSame(width: real, height: real)
    requires width != 0.0
    ensures ProportionalHeight(width, width, height) == height
  {
    var r := ProportionalHeight(width, width, height);
    assert (r - height) * width == 0.0;
  }

  /** The proportional height is linear in the new width. */
  lemma ProportionalHeightLinear(a: real, b: real, c: real, width: real, height: real)
    requires width != 0.0
    ensures ProportionalHeight(a + b, width, height)
         == ProportionalHeight(a, width, height) + ProportionalHeight(b, width, height)
    ensures ProportionalHeight(c * a, width, height) == c * ProportionalHeight(a, width, height)
  {
    var ra := ProportionalHeight(a, width, height);
    var rb := ProportionalHeight(b, width, height);
    var rs := ProportionalHeight(a + b, width, height);
    var rc := ProportionalHeight(c * a, width, height);
    assert (rs - ra - rb) * width == 0.0;
    assert (rc - c * ra) * width == height * (c * a) - c * (height * a);
  }
}
