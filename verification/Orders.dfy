/** Stable sorting by a key, and when the result depends only on what is sorted. */
module Orders {

  /** `less` orders by a key: it is asymmetric and its negation is transitive. */
  ghost predicate ByKey<T(!new)>(less: (T, T) -> bool) {
    && (forall a, b :: less(a, b) ==> !less(b, a))
    && (forall a, b, c :: !less(b, a) && !less(c, b) ==> !less(c, a))
  }

  ghost predicate Ordered<T>(s: seq<T>, less: (T, T) -> bool) {
    forall i, j :: 0 <= i < j < |s| ==> !less(s[j], s[i])
  }

  ghost predicate Strictly<T>(s: seq<T>, less: (T, T) -> bool) {
    forall i, j :: 0 <= i < j < |s| ==> less(s[i], s[j])
  }

  /** No two elements share a key. */
  ghost predicate Comparable<T>(s: seq<T>, less: (T, T) -> bool) {
    forall i, j :: 0 <= i < |s| && 0 <= j < |s| && i != j ==> less(s[i], s[j]) || less(s[j], s[i])
  }

  // ----- Sorting -----

  /** `x` put where it belongs in a sorted sequence, behind what has the same key. */
  function Insert<T>(s: seq<T>, x: T, less: (T, T) -> bool): (out: seq<T>)
    ensures multiset(out) == multiset(s) + multiset{x}
  {
    if s == [] then [x]
    else if less(x, s[0]) then [x] + s
    else
      assert s == [s[0]] + s[1..];
      [s[0]] + Insert(s[1..], x, less)
  }

  /** The sequence sorted by a key, elements of one key in the order they came. */
  function Sorted<T>(s: seq<T>, less: (T, T) -> bool): (out: seq<T>)
    ensures multiset(out) == multiset(s) && |out| == |s|
  {
    if s == [] then []
    else
      var out := Insert(Sorted(s[..|s| - 1], less), s[|s| - 1], less);
      assert s == s[..|s| - 1] + [s[|s| - 1]];
      assert |multiset(out)| == |multiset(s)|;
      out
  }

  lemma {:induction false} InsertOrdered<T(!new)>(s: seq<T>, x: T, less: (T, T) -> bool)
    requires ByKey(less) && Ordered(s, less)
    ensures Ordered(Insert(s, x, less), less)
  {
    if s != [] {
      if less(x, s[0]) {
        forall i | 0 <= i < |s|
          ensures !less(s[i], x)
        {
          assert i > 0 ==> !less(s[i], s[0]);
        }
      } else {
        hide ByKey;
        var rest := Insert(s[1..], x, less);
        InsertOrdered(s[1..], x, less);
        InsertElements(s[1..], x, less);
        forall i | 0 <= i < |rest|
          ensures !less(rest[i], s[0])
        {
          assert rest[i] in rest;
          if rest[i] in s[1..] {
            var j :| 0 <= j < |s[1..]| && s[1..][j] == rest[i];
            assert s[j + 1] == rest[i];
          }
        }
      }
    }
  }

  lemma {:induction false} SortedOrdered<T(!new)>(s: seq<T>, less: (T, T) -> bool)
    requires ByKey(less)
    ensures Ordered(Sorted(s, less), less)
  {
    if s != [] {
      SortedOrdered(s[..|s| - 1], less);
      InsertOrdered(Sorted(s[..|s| - 1], less), s[|s| - 1], less);
    }
  }

  /** The elements with the key of `x`, in order. */
  function Tied<T>(s: seq<T>, x: T, less: (T, T) -> bool): seq<T> {
    if s == [] then []
    else (if less(x, s[0]) || less(s[0], x) then [] else [s[0]]) + Tied(s[1..], x, less)
  }

  lemma {:induction false} TiedPush<T>(s: seq<T>, y: T, x: T, less: (T, T) -> bool)
    ensures Tied(s + [y], x, less) == Tied(s, x, less) + if less(x, y) || less(y, x) then [] else [y]
  {
    if s != [] {
      TiedPush(s[1..], y, x, less);
      assert (s + [y])[1..] == s[1..] + [y];
    }
  }

  lemma {:induction false} TiedInsert<T(!new)>(s: seq<T>, y: T, x: T, less: (T, T) -> bool)
    requires ByKey(less) && Ordered(s, less)
    ensures Tied(Insert(s, y, less), x, less) == Tied(s + [y], x, less)
  {
    if s == [] {
    } else if less(y, s[0]) {
      TiedPush(s, y, x, less);
      assert ([y] + s)[1..] == s;
      if !less(x, y) && !less(y, x) {
        NoneTied(s, y, x, less);
      }
    } else {
      TiedInsert(s[1..], y, x, less);
      assert (s + [y])[1..] == s[1..] + [y];
    }
  }

  /** Behind something less than its first element, a sorted sequence holds nothing of that key. */
  lemma {:induction false} NoneTied<T(!new)>(s: seq<T>, y: T, x: T, less: (T, T) -> bool)
    requires ByKey(less) && Ordered(s, less) && s != [] && less(y, s[0]) && !less(x, y) && !less(y, x)
    ensures Tied(s, x, less) == []
  {
    assert less(x, s[0]);
    if |s| > 1 {
      assert less(y, s[1]) by {
        assert !less(s[1], s[0]);
      }
      NoneTied(s[1..], y, x, less);
    }
  }

  /** Sorting is stable. */
  lemma {:induction false} SortedStable<T(!new)>(s: seq<T>, x: T, less: (T, T) -> bool)
    requires ByKey(less)
    ensures Tied(Sorted(s, less), x, less) == Tied(s, x, less)
  {
    if s != [] {
      var init, last := s[..|s| - 1], s[|s| - 1];
      SortedStable(init, x, less);
      SortedOrdered(init, less);
      TiedInsert(Sorted(init, less), last, x, less);
      TiedPush(Sorted(init, less), last, x, less);
      TiedPush(init, last, x, less);
      assert s == init + [last];
    }
  }

  lemma {:induction false} TiedMember<T(!new)>(s: seq<T>, x: T, less: (T, T) -> bool)
    requires ByKey(less)
    ensures Tied(s, x, less) != [] <==> exists i :: 0 <= i < |s| && !less(x, s[i]) && !less(s[i], x)
  {
    if s != [] {
      TiedMember(s[1..], x, less);
      assert forall i :: 1 <= i < |s| ==> s[i] == s[1..][i - 1];
      if Tied(s[1..], x, less) != [] {
        var i :| 0 <= i < |s[1..]| && !less(x, s[1..][i]) && !less(s[1..][i], x);
        assert s[i + 1] == s[1..][i];
      }
    }
  }

  /** The same elements of each key, in the same order. */
  ghost predicate SameTies<T(!new)>(a: seq<T>, b: seq<T>, less: (T, T) -> bool) {
    forall x :: Tied(a, x, less) == Tied(b, x, less)
  }

  /** An ordered sequence is determined by its elements of each key. */
  lemma {:induction false} OrderedUnique<T(!new)>(a: seq<T>, b: seq<T>, less: (T, T) -> bool)
    requires ByKey(less) && Ordered(a, less) && Ordered(b, less)
    requires SameTies(a, b, less)
    ensures a == b
  {
    if a != [] {
      TiedMember(b, a[0], less);
    }
    if b != [] {
      TiedMember(a, b[0], less);
    }
    if a != [] && b != [] {
      assert !less(a[0], b[0]) && !less(b[0], a[0]);
      assert Tied(a, a[0], less)[0] == a[0] && Tied(b, a[0], less)[0] == b[0];
      forall x
        ensures Tied(a[1..], x, less) == Tied(b[1..], x, less)
      {
        var first := if less(x, a[0]) || less(a[0], x) then [] else [a[0]];
        assert Tied(a, x, less) == first + Tied(a[1..], x, less) && Tied(b, x, less) == first + Tied(b[1..], x, less);
        assert Tied(a[1..], x, less) == Tied(a, x, less)[|first|..];
      }
      assert SameTies(a[1..], b[1..], less);
      OrderedUnique(a[1..], b[1..], less);
      assert a == [a[0]] + a[1..] && b == [b[0]] + b[1..];
    }
  }

  /** Two sequences sort to the same exactly when they differ at most in the order between keys. */
  lemma SortedSame<T(!new)>(a: seq<T>, b: seq<T>, less: (T, T) -> bool)
    requires ByKey(less)
    ensures Sorted(a, less) == Sorted(b, less) <==> SameTies(a, b, less)
  {
    hide Tied, Sorted, Ordered, ByKey;
    forall x
      ensures Tied(Sorted(a, less), x, less) == Tied(a, x, less)
      ensures Tied(Sorted(b, less), x, less) == Tied(b, x, less)
    {
      SortedStable(a, x, less);
      SortedStable(b, x, less);
    }
    SortedOrdered(a, less);
    SortedOrdered(b, less);
    if SameTies(a, b, less) {
      assert SameTies(Sorted(a, less), Sorted(b, less), less);
      OrderedUnique(Sorted(a, less), Sorted(b, less), less);
    }
  }

  /** The library sort, as an insertion sort: ordered, a permutation, and stable. */
  method SortBy<T(!new)>(s: seq<T>, less: (T, T) -> bool) returns (out: seq<T>)
    requires ByKey(less)
    ensures out == Sorted(s, less) && Ordered(out, less)
  {
    out := [];
    for n := 0 to |s|
      invariant out == Sorted(s[..n], less)
    {
      assert s[..n + 1][..n] == s[..n];
      out := Insert(out, s[n], less);
    }
    assert s[..|s|] == s;
    SortedOrdered(s, less);
  }

  /** Sorting elements with distinct keys sorts them strictly. */
  lemma SortedStrictly<T(!new)>(s: seq<T>, out: seq<T>, less: (T, T) -> bool)
    requires Comparable(s, less) && Ordered(out, less) && multiset(out) == multiset(s)
    ensures Strictly(out, less)
  {
    forall i, j | 0 <= i < j < |out|
      ensures less(out[i], out[j])
    {
      TwoPlaces(s, out, i, j);
    }
  }

  /** Two places of a permutation come from two places of the original. */
  lemma TwoPlaces<T>(s: seq<T>, out: seq<T>, i: nat, j: nat)
    requires multiset(out) == multiset(s) && i < j < |out|
    ensures exists k, l :: 0 <= k < |s| && 0 <= l < |s| && k != l && s[k] == out[i] && s[l] == out[j]
  {
    assert out[i] in multiset(out) && out[j] in multiset(out);
    var k :| 0 <= k < |s| && s[k] == out[i];
    if out[i] != out[j] {
      var l :| 0 <= l < |s| && s[l] == out[j];
    } else {
      Twice(out, i, j);
      assert s == s[..k] + [s[k]] + s[k + 1..];
      assert multiset(s)[s[k]] == multiset(s[..k])[s[k]] + 1 + multiset(s[k + 1..])[s[k]];
      if s[k] in multiset(s[..k]) {
        var l :| 0 <= l < k && s[..k][l] == s[k];
        assert s[l] == s[k];
      } else {
        assert s[k] in multiset(s[k + 1..]);
        var l :| 0 <= l < |s[k + 1..]| && s[k + 1..][l] == s[k];
        assert s[k + 1 + l] == s[k];
      }
    }
  }

  lemma Twice<T>(s: seq<T>, i: nat, j: nat)
    requires i < j < |s| && s[i] == s[j]
    ensures multiset(s)[s[i]] >= 2
  {
    assert s == s[..j] + [s[j]] + s[j + 1..];
    assert s[i] in s[..j] by {
      assert s[..j][i] == s[i];
    }
    assert multiset(s)[s[i]] == multiset(s[..j])[s[i]] + 1 + multiset(s[j + 1..])[s[i]];
  }

  /** A strictly sorted sequence is determined by its elements. */
  lemma {:induction false} StrictUnique<T(!new)>(a: seq<T>, b: seq<T>, less: (T, T) -> bool)
    requires ByKey(less) && Strictly(a, less) && Strictly(b, less) && forall x :: x in a <==> x in b
    ensures a == b
  {
    assert a != [] ==> a[0] in a;
    assert b != [] ==> b[0] in b;
    if a != [] && b != [] {
      SameFirst(a, b, less);
      forall x
        ensures x in a[1..] <==> x in b[1..]
      {
        RestWithout(a, x, less);
        RestWithout(b, x, less);
      }
      StrictUnique(a[1..], b[1..], less);
      assert a == [a[0]] + a[1..] && b == [b[0]] + b[1..];
    }
  }

  lemma SameFirst<T(!new)>(a: seq<T>, b: seq<T>, less: (T, T) -> bool)
    requires ByKey(less) && Strictly(a, less) && Strictly(b, less) && a != [] && b != []
    requires forall x :: x in a <==> x in b
    ensures a[0] == b[0]
  {
    assert a[0] in b && b[0] in a;
    var i :| 0 <= i < |b| && b[i] == a[0];
    var j :| 0 <= j < |a| && a[j] == b[0];
    assert less(a[0], a[j]) || j == 0;
    assert less(b[0], b[i]) || i == 0;
  }

  lemma RestWithout<T(!new)>(a: seq<T>, x: T, less: (T, T) -> bool)
    requires ByKey(less) && Strictly(a, less) && a != []
    ensures x in a[1..] <==> x in a && x != a[0]
  {
    assert a == [a[0]] + a[1..];
    assert x in a[1..] ==> exists i :: 1 <= i < |a| && a[i] == x;
  }

  // ----- Lexicographic order -----

  ghost predicate TotalOrder<T(!new)>(less: (T, T) -> bool) {
    && (forall a, b :: a == b || less(a, b) || less(b, a))
    && (forall a, b :: less(a, b) ==> !less(b, a))
    && (forall a, b, c :: less(a, b) && less(b, c) ==> less(a, c))
  }

  predicate Lex<T(==)>(a: seq<T>, b: seq<T>, less: (T, T) -> bool) {
    b != [] && (a == [] || less(a[0], b[0]) || (a[0] == b[0] && Lex(a[1..], b[1..], less)))
  }

  lemma {:induction false} LexTotal<T(!new)>(a: seq<T>, b: seq<T>, less: (T, T) -> bool)
    requires TotalOrder(less)
    ensures a == b || Lex(a, b, less) || Lex(b, a, less)
    ensures !(Lex(a, b, less) && Lex(b, a, less))
  {
    if a != [] && b != [] {
      LexTotal(a[1..], b[1..], less);
      assert a == [a[0]] + a[1..] && b == [b[0]] + b[1..];
    }
  }

  lemma {:induction false} LexTrans<T(!new)>(a: seq<T>, b: seq<T>, c: seq<T>, less: (T, T) -> bool)
    requires TotalOrder(less) && Lex(a, b, less) && Lex(b, c, less)
    ensures Lex(a, c, less)
  {
    if a != [] && a[0] == b[0] == c[0] {
      LexTrans(a[1..], b[1..], c[1..], less);
    }
  }

  lemma LexNotTrans<T(!new)>(a: seq<T>, b: seq<T>, c: seq<T>, less: (T, T) -> bool)
    requires TotalOrder(less) && !Lex(b, a, less) && !Lex(c, b, less)
    ensures !Lex(c, a, less)
  {
    hide Lex, TotalOrder;
    LexTotal(a, b, less);
    LexTotal(b, c, less);
    LexTotal(a, c, less);
    LexTotal(a, a, less);
    if Lex(a, b, less) && Lex(b, c, less) {
      LexTrans(a, b, c, less);
    }
  }

  // ----- Strictly sorted insertion -----

  lemma ConsStrictly<T>(x: T, s: seq<T>, less: (T, T) -> bool)
    requires Strictly(s, less) && forall i :: 0 <= i < |s| ==> less(x, s[i])
    ensures Strictly([x] + s, less)
  {
  }

  lemma {:induction false} InsertStrictly<T(!new)>(s: seq<T>, x: T, less: (T, T) -> bool)
    requires ByKey(less) && Strictly(s, less) && forall i :: 0 <= i < |s| ==> less(x, s[i]) || less(s[i], x)
    ensures Strictly(Insert(s, x, less), less)
    ensures forall y :: y in Insert(s, x, less) <==> y in s || y == x
  {
    InsertElements(s, x, less);
    if s != [] {
      if less(x, s[0]) {
        forall i | 0 <= i < |s|
          ensures less(x, s[i])
        {
          assert i > 0 ==> less(s[0], s[i]);
        }
        ConsStrictly(x, s, less);
      } else {
        hide ByKey;
        var rest := Insert(s[1..], x, less);
        InsertStrictly(s[1..], x, less);
        forall i | 0 <= i < |rest|
          ensures less(s[0], rest[i])
        {
          assert rest[i] in rest;
          if rest[i] != x {
            var j :| 0 <= j < |s[1..]| && s[1..][j] == rest[i];
            assert s[j + 1] == rest[i];
          }
        }
        ConsStrictly(s[0], rest, less);
      }
    }
  }

  lemma InsertElements<T(!new)>(s: seq<T>, x: T, less: (T, T) -> bool)
    ensures forall y :: y in Insert(s, x, less) <==> y in s || y == x
  {
    forall y
      ensures y in Insert(s, x, less) <==> y in s || y == x
    {
      assert y in multiset(Insert(s, x, less)) <==> y in multiset(s) || y == x;
    }
  }

  /** Inserting something that follows everything appends it. */
  lemma {:induction false} InsertLast<T>(s: seq<T>, x: T, less: (T, T) -> bool)
    requires forall i :: 0 <= i < |s| ==> !less(x, s[i])
    ensures Insert(s, x, less) == s + [x]
  {
    if s != [] {
      InsertLast(s[1..], x, less);
      assert s == [s[0]] + s[1..];
    }
  }
}
