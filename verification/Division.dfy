/** Products and quotients of natural numbers. */
module Division {

  /** A product of numbers of any size. */
  function WideProduct(a: nat, b: nat): nat {
    assert 0 <= a * b;
    a * b
  }

  lemma MulMono(a: nat, b: nat, c: nat)
    requires b <= c
    ensures 0 <= a * b <= a * c
  {
  }

  /** Quotient and remainder are determined by what they add up to. */
  lemma DivUnique(x: nat, n: nat, q: nat, r: nat)
    requires 0 < n && r < n && x == n * q + r
    ensures x / n == q && x % n == r
  {
    var q', r' := x / n, x % n;
    assert x == n * q' + r';
    if q < q' {
      MulMono(n, q + 1, q');
    } else if q' < q {
      MulMono(n, q' + 1, q);
    }
  }
}
