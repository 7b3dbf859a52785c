/**
 * `Math.random()` as an input: a draw is a real number in [0, 1).
 */
module Random {
  predicate IsDraw(draw: real) {
    0.0 <= draw < 1.0
  }

  /** `Math.floor(draw * n)`: a uniform index into n items. */
  function RandomIndex(draw: real, n: nat): (i: nat)
    requires IsDraw(draw) && 0 < n
    ensures i < n
  {
    var x := draw * n as real;
    assert 0.0 <= x < n as real;
    x.Floor
  }
}
