/** Python's round(x, n) over the reals: the nearest multiple of 1/scale, ties to the even one. */
module Rounding {

  const MILLI := 1000.0
  const MICRO := 1000000.0

  function Nearest(x: real): (n: int)
    ensures -0.5 <= n as real - x <= 0.5
    ensures n as real - x == 0.5 || x - n as real == 0.5 ==> n % 2 == 0
  {
    var low := x.Floor;
    var above := x - low as real;
    if above < 0.5 || (above == 0.5 && low % 2 == 0) then low else low + 1
  }

  function Round(x: real, scale: real): real
    requires scale > 0.0
  {
    Nearest(x * scale) as real / scale
  }

  /** x is a whole number of steps of 1/scale. */
  predicate OnGrid(x: real, scale: real) {
    (x * scale).Floor as real == x * scale
  }

  lemma RoundIsNear(x: real, scale: real)
    requires scale > 0.0
    ensures -0.5 / scale <= Round(x, scale) - x <= 0.5 / scale
  {
    var n := Nearest(x * scale) as real;
    var r := n / scale;
    assert r * scale == n;
    assert (r - x) * scale == n - x * scale;
    Divide(r - x, scale);
  }

  lemma Divide(d: real, scale: real)
    requires scale > 0.0 && -0.5 <= d * scale <= 0.5
    ensures -0.5 / scale <= d <= 0.5 / scale
  {
    assert (d * scale) / scale == d;
  }

  lemma RoundOnGrid(x: real, scale: real)
    requires scale > 0.0 && OnGrid(x, scale)
    ensures Round(x, scale) == x
  {
    assert Nearest(x * scale) as real == x * scale;
  }

  lemma RoundLandsOnGrid(x: real, scale: real)
    requires scale > 0.0
    ensures OnGrid(Round(x, scale), scale)
  {
    assert Round(x, scale) * scale == Nearest(x * scale) as real;
  }

  lemma GridSum(x: real, y: real, scale: real)
    requires OnGrid(x, scale) && OnGrid(y, scale)
    ensures OnGrid(x + y, scale)
  {
    var m, n := (x * scale).Floor, (y * scale).Floor;
    assert (x + y) * scale == (m + n) as real;
  }

  lemma MilliGridIsMicroGrid(x: real)
    requires OnGrid(x, MILLI)
    ensures OnGrid(x, MICRO)
  {
    var k := (x * MILLI).Floor;
    assert x * MICRO == (k * 1000) as real;
  }

  lemma WholeOnGrid(n: int)
    ensures OnGrid(n as real, MILLI)
  {
    assert n as real * MILLI == (n * 1000) as real;
  }
}
