/**
 Small numbers several components share.
 */
module Numbers {
  /** A byte as a number. */
  type Octet = b: int | 0 <= b < 256

  function Least(a: nat, b: nat): nat {
    if a < b then a else b
  }

  /** There is one way to divide. */
  lemma DivIs(a: nat, d: nat, q: nat, r: nat)
    requires r < d && a == d * q + r
    ensures a / d == q && a % d == r
  {
    var q' := a / d;
    assert a == d * q' + a % d;
    Mono(d, q' + 1, q);
    Mono(d, q + 1, q');
    assert d * (q' + 1) == d * q' + d && d * (q + 1) == d * q + d;
    if q == q' {
      assert d * q == d * q';
    }
  }

  lemma Mono(f: nat, a: nat, b: nat)
    ensures a <= b ==> f * a <= f * b
  {
  }
}
