/** Two-decimal rounding over exact reals (half away from zero, as `f64::round`). */
module Numbers {
  function RoundHalfAway(x: real): (n: int)
    ensures -0.5 <= n as real - x <= 0.5
  {
    if x >= 0.0 then (x + 0.5).Floor else -((0.5 - x).Floor)
  }

  function Round2(v: real): real {
    RoundHalfAway(v * 100.0) as real / 100.0
  }

  /** A value with at most two decimals. */
  predicate OnGrid(v: real) {
    (v * 100.0).Floor as real == v * 100.0
  }

  lemma RoundOfInt(n: int)
    ensures RoundHalfAway(n as real) == n
  {
  }

  lemma RoundMonotone(x: real, y: real)
    requires x <= y
    ensures RoundHalfAway(x) <= RoundHalfAway(y)
  {
  }

  lemma HundredthsOnGrid(n: int)
    ensures OnGrid(n as real / 100.0)
  {
    assert n as real / 100.0 * 100.0 == n as real;
  }

  /** `round2` lands on the grid, is within half a hundredth, and fixes exactly the grid. */
  lemma Round2Exact(v: real)
    ensures OnGrid(Round2(v))
    ensures -0.005 <= Round2(v) - v <= 0.005
    ensures Round2(v) == v <==> OnGrid(v)
  {
    var n := RoundHalfAway(v * 100.0);
    HundredthsOnGrid(n);
    if OnGrid(v) {
      RoundOfInt((v * 100.0).Floor);
    }
  }

  lemma Round2Monotone(x: real, y: real)
    requires x <= y
    ensures Round2(x) <= Round2(y)
  {
    RoundMonotone(x * 100.0, y * 100.0);
  }

  /** Rounding never crosses a grid point. */
  lemma Round2StaysBelow(x: real, g: real)
    requires OnGrid(g)
    ensures x <= g ==> Round2(x) <= g
    ensures g <= x ==> g <= Round2(x)
  {
    Round2Exact(g);
    if x <= g { Round2Monotone(x, g); }
    if g <= x { Round2Monotone(g, x); }
  }

  /** No grid point is nearer than the rounded value. */
  lemma Round2IsNearest(x: real, y: real)
    requires OnGrid(y)
    ensures -0.005 <= Round2(x) - x <= 0.005
    ensures y == Round2(x) || y <= Round2(x) - 0.01 || y >= Round2(x) + 0.01
  {
    Round2Exact(x);
    var n, m := RoundHalfAway(x * 100.0), (y * 100.0).Floor;
    assert y == m as real / 100.0;
    assert m == n || m <= n - 1 || m >= n + 1;
  }

  lemma GridPoint(x: real, n: int)
    requires x * 100.0 == n as real
    ensures OnGrid(x)
  {
  }

  lemma GridSum(x: real, y: real)
    requires OnGrid(x) && OnGrid(y)
    ensures OnGrid(x + y) && OnGrid(x - y) && OnGrid(-x)
  {
    var a, b := (x * 100.0).Floor, (y * 100.0).Floor;
    GridPoint(x + y, a + b);
    GridPoint(x - y, a - b);
    GridPoint(-x, -a);
  }
}
