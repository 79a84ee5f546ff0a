/**
 * The two other ways the repository computes the same tree: a growing cache of complete subtrees,
 * and all inclusion proofs at once. A third, a stack of subtrees, is in module `StackRoot`.
 */
module GrowingTree {
  import opened Wrappers
  import opened Powers
  import opened Merkle

  /** Each entry of `upper` hashes a pair of entries of `lower`. */
  ghost predicate Linked(lower: seq<Hash>, upper: seq<Hash>) {
    && |upper| == |lower| / 2
    && forall i :: 0 <= i < |upper| ==> upper[i] == NodeHash(lower[2 * i], lower[2 * i + 1])
  }

  ghost predicate LinkedAt(levels: seq<seq<Hash>>, k: nat)
    requires k + 1 < |levels|
  {
    Linked(levels[k], levels[k + 1])
  }

  /** Every level is linked to the next, none is empty, and the last holds a single hash. */
  ghost predicate ValidLevels(levels: seq<seq<Hash>>) {
    && (forall k :: 0 <= k < |levels| ==> levels[k] != [])
    && (forall k :: 0 <= k < |levels| - 1 ==> LinkedAt(levels, k))
    && (|levels| > 0 ==> |levels[|levels| - 1]| == 1)
  }

  /** `u64::trailing_zeros`. */
  function TrailingZeros(n: nat): nat
    requires 0 < n
  {
    if n % 2 == 1 then 0 else 1 + TrailingZeros(n / 2)
  }

  lemma {:induction false} TrailingZerosOfPow2(n: nat)
    requires IsPow2(n)
    ensures Pow2(TrailingZeros(n)) == n
  {
    if n > 1 {
      TrailingZerosOfPow2(n / 2);
    }
  }

  /** A complete subtree followed by no more leaves than it has is the left child of both. */
  lemma JoinComplete(d: seq<Hash>, k: nat)
    requires IsPow2(k) && k < |d| <= 2 * k
    ensures RootOf(d) == NodeHash(RootOf(d[..k]), RootOf(d[k..]))
  {
    SplitUnique(|d|, k);
  }

  lemma RootOfOne(h: Hash)
    ensures RootOf([h]) == h
  {
  }

  lemma JoinRange(d: seq<Hash>, a: nat, k: nat)
    requires IsPow2(k) && a + 2 * k <= |d|
    ensures RootOf(d[a..a + 2 * k]) == NodeHash(RootOf(d[a..a + k]), RootOf(d[a + k..a + 2 * k]))
  {
    var s := d[a..a + 2 * k];
    assert s[..k] == d[a..a + k];
    assert s[k..] == d[a + k..a + 2 * k];
    JoinComplete(s, k);
  }

  lemma PairBelow(levels: seq<seq<Hash>>, k: nat, i: nat)
    requires ValidLevels(levels) && 0 < k < |levels| && i < |levels[k]|
    ensures 2 * i + 1 < |levels[k - 1]|
    ensures levels[k][i] == NodeHash(levels[k - 1][2 * i], levels[k - 1][2 * i + 1])
  {
    assert LinkedAt(levels, k - 1);
  }

  lemma LevelOffsets(k: nat, i: nat, p: nat, a: nat)
    requires p == Pow2(k) && a == i * p
    ensures k == 0 ==> p == 1 && a == i
    ensures k > 0 ==> var q := Pow2(k - 1); p == 2 * q && a == (2 * i) * q && a + q == (2 * i + 1) * q
  {
  }

  /** The root of leaves `a .. a + p` is `levels[k][i]`, for `p = 2^k` and `a = i * p`. */
  lemma {:induction false} LevelIsSubtree(levels: seq<seq<Hash>>, k: nat, i: nat, p: nat, a: nat)
    requires ValidLevels(levels) && k < |levels| && i < |levels[k]|
    requires p == Pow2(k) && a == i * p
    ensures a + p <= |levels[0]| && levels[k][i] == RootOf(levels[0][a..a + p])
    decreases k
  {
    hide *;
    LevelOffsets(k, i, p, a);
    if k == 0 {
      assert levels[0][i..i + 1] == [levels[0][i]];
      RootOfOne(levels[0][i]);
    } else {
      var q := Pow2(k - 1);
      PairBelow(levels, k, i);
      LevelIsSubtree(levels, k - 1, 2 * i, q, a);
      LevelIsSubtree(levels, k - 1, 2 * i + 1, q, a + q);
      Pow2IsPow2(k - 1);
      JoinRange(levels[0], a, q);
    }
  }

  /** Every complete, aligned subtree of the leaves is in the cache. */
  lemma {:induction false} SubtreeIsCached(levels: seq<seq<Hash>>, k: nat, i: nat)
    requires ValidLevels(levels) && |levels| > 0 && (i + 1) * Pow2(k) <= |levels[0]|
    ensures k < |levels| && i < |levels[k]|
    decreases k
  {
    if k > 0 {
      var p := Pow2(k - 1);
      assert (i + 1) * Pow2(k) == (2 * i + 2) * p;
      SubtreeIsCached(levels, k - 1, 2 * i + 1);
      if k < |levels| {
        assert LinkedAt(levels, k - 1);
      }
    }
  }

  /** The least power of two that is at least `n`. */
  function Ceiling(n: nat): nat
    requires 0 < n
  {
    if n == 1 then 1 else 2 * Split(n)
  }

  /** A range as the splits of a tree produce them: it starts at a multiple of its rounded-up length. */
  predicate Aligned(start: nat, len: nat)
    requires 0 < len
  {
    start % Ceiling(len) == 0
  }

  lemma {:induction false} ModSum(a: nat, b: nat, m: nat)
    requires 0 < m && a % m == 0 && b % m == 0
    ensures (a + b) % m == 0
  {
    var q := a / m + b / m;
    assert a + b == m * q;
    MultipleMod(q, m);
  }

  lemma ModDivides(a: nat, m: nat, n: nat)
    requires 0 < n && 0 < m && a % m == 0 && m % n == 0
    ensures a % n == 0
  {
    var q := (a / m) * (m / n);
    assert a == m * (a / m) && m == n * (m / n);
    assert n * (m / n) * (a / m) == n * q;
    MultipleMod(q, n);
  }

  lemma AlignedParts(start: nat, len: nat)
    requires 1 < len && Aligned(start, len)
    ensures Aligned(start, Split(len)) && Aligned(start + Split(len), len - Split(len))
  {
    var k := Split(len);
    assert IsPow2(2 * k) by { assert (2 * k) / 2 == k; }
    if k > 1 {
      SplitUnique(k, k / 2);
      assert Ceiling(k) == k;
    }
    Pow2Divides(k, 2 * k);
    ModDivides(start, 2 * k, k);
    var rest := len - k;
    var c := Ceiling(rest);
    CeilingBounds(rest, k);
    Pow2Divides(c, k);
    ModDivides(start, k, c);
    ModSum(start, k, c);
  }

  lemma CeilingBounds(n: nat, k: nat)
    requires 0 < n <= k && IsPow2(k)
    ensures IsPow2(Ceiling(n)) && Ceiling(n) <= k
  {
    if n > 1 {
      var s := Split(n);
      assert IsPow2(2 * s) by { assert (2 * s) / 2 == s; }
      if 2 * s > k {
        SplitUnique(n, k / 2);
      }
    }
  }

  lemma AlignedIndex(start: nat, len: nat)
    requires 0 < len && start % len == 0
    ensures start / len * len == start && (start / len + 1) * len == start + len
  {
  }

  /** `MerkleTree`: a cache of the root of every complete, aligned subtree. */
  class MerkleTree {
    var levels: seq<seq<Hash>>

    ghost predicate Valid()
      reads this
    {
      ValidLevels(levels)
    }

    /** The leaf hashes pushed so far, in order. */
    function Leaves(): seq<Hash>
      reads this
    {
      if |levels| == 0 then [] else levels[0]
    }

    constructor ()
      ensures Valid() && Leaves() == []
    {
      levels := [];
    }

    /** `push`. */
    method Push(leaf: Hash)
      requires Valid()
      modifies this
      ensures Valid() && Leaves() == old(Leaves()) + [leaf]
    {
      hide Linked, LinkedAt, Pending;
      var hash := leaf;
      var k := 0;
      while true
        invariant k <= |levels| && Climbing(levels, k, hash)
        invariant if k == 0 then levels == old(levels) && hash == leaf else levels[0] == old(Leaves()) + [leaf]
        decreases |levels| - k
      {
        ghost var before := levels;
        if |levels| == k {
          levels := levels + [[]];
        }
        levels := levels[k := levels[k] + [hash]];
        assert levels == Added(before, k, hash);
        var n := |levels[k]|;
        if n % 2 == 1 {
          ClimbingEnds(before, k, hash);
          return;
        }
        ClimbingGoesOn(before, k, hash);
        hash := NodeHash(levels[k][n - 2], levels[k][n - 1]);
        k := k + 1;
      }
    }

    /** `len`. */
    function Len(): nat
      reads this
    {
      if |levels| == 0 then 0 else |levels[0]|
    }

    lemma LeavesAreFirst()
      ensures Leaves() != [] ==> |levels| > 0 && Leaves() == levels[0]
      ensures Valid() <==> ValidLevels(levels)
      ensures Len() == |Leaves()|
    {
    }

    /** `subtree`: from the cache when complete, from its two parts otherwise. */
    method Subtree(start: nat, len: nat) returns (r: Hash)
      requires Valid() && 0 < len && start + len <= |Leaves()| && Aligned(start, len)
      ensures r == RootOf(Leaves()[start..start + len])
      decreases len
    {
      hide *;
      LeavesAreFirst();
      if IsPow2(len) && start % len == 0 {
        return CacheEntry(levels, start, len);
      }
      Pow2One();
      var k := Split(len);
      AlignedParts(start, len);
      SplitRange(Leaves(), start, len);
      var left := Subtree(start, k);
      var right := Subtree(start + k, len - k);
      r := NodeHash(left, right);
    }

    /** `head`. */
    method Head(size: nat) returns (r: Result<TreeHead, MerkleError>)
      requires Valid()
      ensures r == if size > |Leaves()| then Err(BadSizes(size, |Leaves()|)) else Ok(HeadOf(Leaves()[..size]))
    {
      if size > Len() {
        return Err(BadSizes(size, Len()));
      }
      var root := EmptyHash;
      if size != 0 {
        root := Subtree(0, size);
      }
      assert Leaves()[0..size] == Leaves()[..size];
      r := Ok(TreeHead(size, root));
    }

    /** `inclusion_proof`: the free function's proof in the tree of the first `size` leaves. */
    method InclusionProofAt(index: nat, size: nat) returns (r: Result<seq<Hash>, MerkleError>)
      requires Valid()
      ensures r == if size > |Leaves()| then Err(BadSizes(size, |Leaves()|))
                   else InclusionProof(Leaves()[..size], index)
    {
      if size > Len() {
        return Err(BadSizes(size, Len()));
      }
      assert |Leaves()[..size]| == size;
      if index >= size {
        return Err(IndexOutOfRange(index, size));
      }
      var out := AppendPath(index, 0, size, []);
      assert Leaves()[0..size] == Leaves()[..size];
      assert out == Path(index, Leaves()[..size]);
      r := Ok(out);
    }

    method AppendPath(m: nat, start: nat, len: nat, out: seq<Hash>) returns (out': seq<Hash>)
      requires Valid() && m < len && start + len <= |Leaves()| && Aligned(start, len)
      ensures out' == out + Path(m, Leaves()[start..start + len])
      decreases len
    {
      hide *;
      SplitPath(m, Leaves(), start, len);
      if len <= 1 {
        return out;
      }
      var k := Split(len);
      AlignedParts(start, len);
      var sibling;
      if m < k {
        out' := AppendPath(m, start, k, out);
        sibling := Subtree(start + k, len - k);
      } else {
        out' := AppendPath(m - k, start + k, len - k, out);
        sibling := Subtree(start, k);
      }
      out' := out' + [sibling];
    }

    /** `consistency_proof`: the free function's proof between two prefixes of the leaves. */
    method ConsistencyProofAt(old_size: nat, size: nat) returns (r: Result<seq<Hash>, MerkleError>)
      requires Valid()
      ensures r == if size > |Leaves()| then Err(BadSizes(old_size, size))
                   else ConsistencyProof(Leaves()[..size], old_size)
    {
      assert size <= Len() ==> |Leaves()[..size]| == size;
      if size > Len() || old_size == 0 || old_size > size {
        return Err(BadSizes(old_size, size));
      }
      var out := AppendSubProof(old_size, 0, size, true, []);
      assert Leaves()[0..size] == Leaves()[..size];
      assert out == SubProof(old_size, Leaves()[..size], true);
      r := Ok(out);
    }

    method AppendSubProof(m: nat, start: nat, len: nat, b: bool, out: seq<Hash>) returns (out': seq<Hash>)
      requires Valid() && 0 < m <= len && start + len <= |Leaves()| && Aligned(start, len)
      ensures out' == out + SubProof(m, Leaves()[start..start + len], b)
      decreases len
    {
      hide *;
      SplitSubProof(m, Leaves(), start, len, b);
      if m == len {
        if b {
          return out;
        }
        var root := Subtree(start, len);
        return out + [root];
      }
      var k := Split(len);
      AlignedParts(start, len);
      var sibling;
      if m <= k {
        out' := AppendSubProof(m, start, k, b, out);
        sibling := Subtree(start + k, len - k);
      } else {
        out' := AppendSubProof(m - k, start + k, len - k, false, out);
        sibling := Subtree(start, k);
      }
      out' := out' + [sibling];
    }
  }

  /** While a push climbs: `upper` lacks the hash of the last pair of `lower`. */
  ghost predicate Pending(lower: seq<Hash>, upper: seq<Hash>, hash: Hash) {
    && |lower| % 2 == 0 && |lower| >= 2
    && |upper| == |lower| / 2 - 1
    && (forall i :: 0 <= i < |upper| ==> upper[i] == NodeHash(lower[2 * i], lower[2 * i + 1]))
    && hash == NodeHash(lower[|lower| - 2], lower[|lower| - 1])
  }

  /** The levels while a push is about to add `hash` to level `k`: all is well but for that hash. */
  ghost predicate Climbing(levels: seq<seq<Hash>>, k: nat, hash: Hash)
    requires k <= |levels|
  {
    && (forall j :: 0 <= j < |levels| ==> levels[j] != [])
    && (forall j :: 0 <= j < |levels| - 1 && j != k - 1 ==> LinkedAt(levels, j))
    && (k < |levels| ==> |levels[|levels| - 1]| == 1)
    && (k > 0 ==> Pending(levels[k - 1], if k < |levels| then levels[k] else [], hash))
  }

  /** `levels` with `hash` added to level `k`, a new level if need be. */
  ghost function Added(levels: seq<seq<Hash>>, k: nat, hash: Hash): seq<seq<Hash>>
    requires k <= |levels|
  {
    var room := if k == |levels| then levels + [[]] else levels;
    room[k := room[k] + [hash]]
  }

  lemma PendingLinks(lower: seq<Hash>, upper: seq<Hash>, hash: Hash)
    requires Pending(lower, upper, hash)
    ensures Linked(lower, upper + [hash])
  {
  }

  /** Adding to level `k` leaves the links between other levels alone. */
  lemma RowsAbove(levels: seq<seq<Hash>>, k: nat, hash: Hash)
    requires k <= |levels| && Climbing(levels, k, hash)
    ensures var added := Added(levels, k, hash);
            forall j :: 0 <= j < |added| - 1 && j != k - 1 && j != k ==> LinkedAt(added, j)
  {
    hide Linked, Pending;
    var added := Added(levels, k, hash);
    forall j | 0 <= j < |added| - 1 && j != k - 1 && j != k
      ensures LinkedAt(added, j)
    {
      assert LinkedAt(levels, j) && added[j] == levels[j] && added[j + 1] == levels[j + 1];
    }
  }

  lemma OddKeepsLinked(lower: seq<Hash>, upper: seq<Hash>, hash: Hash)
    requires Linked(lower, upper) && |lower| % 2 == 0
    ensures Linked(lower + [hash], upper)
  {
  }

  lemma TopLinked(row: seq<Hash>)
    ensures |row| == 1 ==> Linked(row, [])
  {
  }

  lemma LinkedThenPending(lower: seq<Hash>, upper: seq<Hash>, hash: Hash)
    requires Linked(lower, upper) && |lower| % 2 == 1
    ensures Pending(lower + [hash], upper, NodeHash(lower[|lower| - 1], hash))
  {
  }

  /** An odd level ends the climb: nothing above it changes. */
  lemma ClimbingEnds(levels: seq<seq<Hash>>, k: nat, hash: Hash)
    requires k <= |levels| && Climbing(levels, k, hash) && |Added(levels, k, hash)[k]| % 2 == 1
    ensures ValidLevels(Added(levels, k, hash))
  {
    hide Linked, Pending;
    RowsAbove(levels, k, hash);
    if k > 0 {
      PendingLinks(levels[k - 1], if k < |levels| then levels[k] else [], hash);
    }
    if k + 1 < |levels| {
      assert LinkedAt(levels, k);
      OddKeepsLinked(levels[k], levels[k + 1], hash);
    }
  }

  /** An even level leaves a pair to be hashed into the level above. */
  lemma ClimbingGoesOn(levels: seq<seq<Hash>>, k: nat, hash: Hash)
    requires k <= |levels| && Climbing(levels, k, hash) && |Added(levels, k, hash)[k]| % 2 == 0
    ensures k < |levels|
    ensures var row := Added(levels, k, hash)[k];
            Climbing(Added(levels, k, hash), k + 1, NodeHash(row[|row| - 2], row[|row| - 1]))
  {
    hide Linked, Pending;
    RowsAbove(levels, k, hash);
    if k > 0 {
      PendingLinks(levels[k - 1], levels[k], hash);
    }
    if k + 1 < |levels| {
      assert LinkedAt(levels, k);
      LinkedThenPending(levels[k], levels[k + 1], hash);
    } else {
      TopLinked(levels[k]);
      LinkedThenPending(levels[k], [], hash);
    }
  }

  lemma Pow2One()
    ensures IsPow2(1)
  {
  }

  lemma Pow2Double(k: nat)
    requires IsPow2(k)
    ensures IsPow2(2 * k)
  {
    assert (2 * k) / 2 == k;
  }

  lemma SplitRange(d: seq<Hash>, start: nat, len: nat)
    requires 1 < len && start + len <= |d|
    ensures RootOf(d[start..start + len])
         == NodeHash(RootOf(d[start..start + Split(len)]), RootOf(d[start + Split(len)..start + len]))
  {
    assert d[start..start + len][..Split(len)] == d[start..start + Split(len)];
    assert d[start..start + len][Split(len)..] == d[start + Split(len)..start + len];
  }

  lemma SplitPath(m: nat, d: seq<Hash>, start: nat, len: nat)
    requires start + len <= |d| && m < len
    ensures Path(m, d[start..start + len])
         == if len == 1 then [] else
            var mid := start + Split(len);
            if m < mid - start then Path(m, d[start..mid]) + [RootOf(d[mid..start + len])]
            else Path(m - (mid - start), d[mid..start + len]) + [RootOf(d[start..mid])]
  {
    hide RootOf;
    if len > 1 {
      assert d[start..start + len][..Split(len)] == d[start..start + Split(len)];
      assert d[start..start + len][Split(len)..] == d[start + Split(len)..start + len];
    }
  }

  lemma SplitSubProof(m: nat, d: seq<Hash>, start: nat, len: nat, b: bool)
    requires start + len <= |d| && 0 < m <= len
    ensures SubProof(m, d[start..start + len], b)
         == if m == len then if b then [] else [RootOf(d[start..start + len])] else
            var mid := start + Split(len);
            if m <= mid - start then SubProof(m, d[start..mid], b) + [RootOf(d[mid..start + len])]
            else SubProof(m - (mid - start), d[mid..start + len], false) + [RootOf(d[start..mid])]
  {
    hide RootOf;
    if m < len {
      assert d[start..start + len][..Split(len)] == d[start..start + Split(len)];
      assert d[start..start + len][Split(len)..] == d[start + Split(len)..start + len];
    }
  }

  /** The cache entry for a complete, aligned range. */
  function CacheEntry(levels: seq<seq<Hash>>, start: nat, len: nat): (r: Hash)
    requires ValidLevels(levels) && |levels| > 0
    requires IsPow2(len) && start % len == 0 && start + len <= |levels[0]|
    ensures r == RootOf(levels[0][start..start + len])
  {
    TrailingZerosOfPow2(len);
    AlignedIndex(start, len);
    var k, i := TrailingZeros(len), start / len;
    SubtreeIsCached(levels, k, i);
    LevelIsSubtree(levels, k, i, len, start);
    levels[k][i]
  }

  // ----- All inclusion proofs at once -----

  /** `all_inclusion_proofs`: each leaf gets the proof `inclusion_proof` gives it. */
  method AllInclusionProofs(d: seq<Hash>) returns (proofs: seq<seq<Hash>>)
    ensures |proofs| == |d|
    ensures forall i :: 0 <= i < |d| ==> InclusionProof(d, i) == Ok(proofs[i])
  {
    if |d| == 0 {
      return [];
    }
    var root;
    root, proofs := RootAndProofs(d);
  }

  method RootAndProofs(d: seq<Hash>) returns (root: Hash, proofs: seq<seq<Hash>>)
    requires |d| > 0
    ensures root == RootOf(d)
    ensures |proofs| == |d| && forall i :: 0 <= i < |d| ==> proofs[i] == Path(i, d)
    decreases |d|
  {
    if |d| == 1 {
      return d[0], [[]];
    }
    var k := Split(|d|);
    var left_root, left := RootAndProofs(d[..k]);
    var right_root, right := RootAndProofs(d[k..]);
    for i := 0 to k
      invariant |left| == k
      invariant forall j :: 0 <= j < i ==> left[j] == Path(j, d)
      invariant forall j :: i <= j < k ==> left[j] == Path(j, d[..k])
    {
      left := left[i := left[i] + [right_root]];
    }
    for i := 0 to |right|
      invariant |left| == k + i
      invariant forall j :: 0 <= j < k + i ==> left[j] == Path(j, d)
    {
      left := left + [right[i] + [left_root]];
    }
    return NodeHash(left_root, right_root), left;
  }
}
