/** Powers, and the split point of an RFC 9162 tree. */
module Powers {

  function Pow2(k: nat): (r: nat)
    ensures 0 < r
  {
    if k == 0 then 1 else 2 * Pow2(k - 1)
  }

  function Pow256(n: nat): (p: nat)
    ensures p > 0
  {
    if n == 0 then 1 else 256 * Pow256(n - 1)
  }

  /** `u64::is_power_of_two`. */
  predicate IsPow2(n: nat) {
    n == 1 || (0 < n && n % 2 == 0 && IsPow2(n / 2))
  }

  /** 64 minus `u64::leading_zeros`: the position of the highest set bit, counted from one. */
  function BitLength(n: nat): nat {
    if n == 0 then 0 else 1 + BitLength(n / 2)
  }

  /** `1 << (63 - (n - 1).leading_zeros())`. */
  function Split(n: nat): (k: nat)
    requires 1 < n
    ensures 0 < k < n <= 2 * k && IsPow2(k)
  {
    BitLengthBounds(n - 1);
    Pow2IsPow2(BitLength(n - 1) - 1);
    Pow2(BitLength(n - 1) - 1)
  }

  lemma {:induction false} BitLengthBounds(n: nat)
    requires 0 < n
    ensures 0 < BitLength(n) && Pow2(BitLength(n) - 1) <= n < Pow2(BitLength(n))
  {
    if n > 1 {
      BitLengthBounds(n / 2);
    }
  }

  lemma {:induction false} Pow2IsPow2(k: nat)
    ensures IsPow2(Pow2(k))
  {
    if k > 0 {
      Pow2IsPow2(k - 1);
      assert Pow2(k) / 2 == Pow2(k - 1);
    }
  }

  /** Two powers of two that bracket the same number are equal. */
  lemma {:induction false} Pow2Unique(a: nat, b: nat, n: nat)
    requires IsPow2(a) && IsPow2(b)
    requires a < n <= 2 * a && b < n <= 2 * b
    ensures a == b
  {
    if a > 1 && b > 1 {
      Pow2Unique(a / 2, b / 2, (n + 1) / 2);
    }
  }

  /**
   * The split point is the only power of two `k` with `k < n <= 2k`, that is, the largest power
   * of two strictly below `n`.
   */
  lemma SplitUnique(n: nat, k: nat)
    requires 1 < n
    ensures IsPow2(k) && k < n <= 2 * k <==> k == Split(n)
    ensures IsPow2(k) && k < n ==> k <= Split(n)
  {
    if IsPow2(k) && k < n <= 2 * k {
      Pow2Unique(k, Split(n), n);
    }
  }

  /** A smaller power of two divides a larger one. */
  lemma {:induction false} Pow2Divides(a: nat, b: nat)
    requires IsPow2(a) && IsPow2(b) && a <= b
    ensures b % a == 0
  {
    if a > 1 {
      Pow2Divides(a / 2, b / 2);
      var q := (b / 2) / (a / 2);
      assert b == a * q by {
        assert b / 2 == (a / 2) * q;
        assert 2 * ((a / 2) * q) == (2 * (a / 2)) * q;
      }
      MultipleMod(q, a);
    }
  }

  lemma MulSigns(a: int, x: int)
    requires 0 < a
    ensures 1 <= x ==> a <= a * x
    ensures x <= -1 ==> a * x <= -a
  {
  }

  lemma MultipleMod(q: nat, a: nat)
    requires 0 < a
    ensures (a * q) % a == 0 && (a * q) / a == q
  {
    var d, m := (a * q) / a, (a * q) % a;
    assert a * (q - d) == m;
    MulSigns(a, q - d);
  }
}
