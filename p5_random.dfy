/** The random draws the art sketch (artp5/sketch.js) makes, with the random
    source as an argument: `u` is one value of `random()`, a real in [0, 1). */
module P5Random {

  predicate Unit(u: real) {
    0.0 <= u < 1.0
  }

  /** A draw `u` stretched over an interval of length `a`. */
  function Scale(a: real, u: real): real {
    a * u
  }

  lemma ScaleBelow(a: real, u: real)
    requires a > 0.0 && Unit(u)
    ensures 0.0 <= Scale(a, u) < a
  {
    assert a - a * u == a * (1.0 - u);
  }

  /** `random(lo, hi)`: a real in [lo, hi). */
  function Between(lo: real, hi: real, u: real): (r: real)
    requires lo < hi && Unit(u)
    ensures lo <= r < hi
  {
    ScaleBelow(hi - lo, u);
    lo + Scale(hi - lo, u)
  }

  /** `int(random(lo, hi))` for a non-negative `lo`: truncation, which is the
      floor here, of a real in [lo, hi); so an integer in [lo, hi - 1]. */
  function IntBetween(lo: nat, hi: nat, u: real): (r: int)
    requires lo < hi && Unit(u)
    ensures lo <= r < hi
  {
    Between(lo as real, hi as real, u).Floor
  }

  /** `Math.floor(Math.random() * n)`, which is also how `random(array)` picks
      an entry: an index in [0, n). */
  function PickIndex(u: real, n: nat): (r: nat)
    requires Unit(u) && n > 0
    ensures r < n
  {
    ScaleBelow(n as real, u);
    Scale(n as real, u).Floor
  }

  /** The draw that lands at offset `a` of an interval of length `d`. */
  lemma ScaleDiv(a: real, d: real)
    requires 0.0 <= a < d
    ensures Unit(a / d) && Scale(d, a / d) == a
  {
    var u := a / d;
    assert d * u == a;
  }

  /** Every value of [lo, hi) is drawn by some `u`: `random(lo, hi)` is onto. */
  lemma {:induction false} BetweenOnto(lo: real, hi: real, x: real)
    requires lo <= x < hi
    ensures exists u :: Unit(u) && Between(lo, hi, u) == x
  {
    var d := hi - lo;
    var a := x - lo;
    var u := a / d;
    ScaleDiv(a, d);
    assert Between(lo, hi, u) == x;
  }

  /** Every integer of [lo, hi) is drawn by some `u`: the draw is onto. */
  lemma {:induction false} IntBetweenOnto(lo: nat, hi: nat, k: int)
    requires lo <= k < hi
    ensures exists u :: Unit(u) && IntBetween(lo, hi, u) == k
  {
    BetweenOnto(lo as real, hi as real, k as real);
    var u :| Unit(u) && Between(lo as real, hi as real, u) == k as real;
    assert IntBetween(lo, hi, u) == k;
  }

  /** Every index of [0, n) is picked by some `u`. */
  lemma {:induction false} PickIndexOnto(n: nat, k: nat)
    requires k < n
    ensures exists u :: Unit(u) && PickIndex(u, n) == k
  {
    var u := k as real / n as real;
    assert Scale(n as real, u) == k as real;
    assert PickIndex(u, n) == k;
  }
}
