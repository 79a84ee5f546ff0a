/**
 * The RFC 9162 tree as recursive definitions: roots, inclusion paths and consistency proofs.
 *
 * Hashes are a free datatype, so two node hashes are equal only when their children are: this is
 * collision freedom of the node hash, without an axiom.
 */
module Merkle {
  import opened Wrappers
  import opened Powers

  datatype Hash =
    | LeafHash(data: seq<byte>)
    | NodeHash(left: Hash, right: Hash)
    | EmptyHash

  datatype TreeHead = TreeHead(size: nat, root: Hash)

  datatype MerkleError =
    | IndexOutOfRange(index: nat, size: nat)
    | BadSizes(oldSize: nat, newSize: nat)
    | BadProofLength
    | RootMismatch

  /** `root_of`. */
  function RootOf(d: seq<Hash>): Hash {
    if |d| == 0 then EmptyHash
    else if |d| == 1 then d[0]
    else
      var k := Split(|d|);
      NodeHash(RootOf(d[..k]), RootOf(d[k..]))
  }

  function HeadOf(d: seq<Hash>): TreeHead {
    TreeHead(|d|, RootOf(d))
  }

  /** `path`: the sibling hashes of leaf `m`, leaf upwards. */
  function Path(m: nat, d: seq<Hash>): seq<Hash>
    requires m < |d|
  {
    if |d| <= 1 then []
    else
      var k := Split(|d|);
      if m < k then Path(m, d[..k]) + [RootOf(d[k..])]
      else Path(m - k, d[k..]) + [RootOf(d[..k])]
  }

  /** `inclusion_proof`. */
  function InclusionProof(d: seq<Hash>, index: nat): Result<seq<Hash>, MerkleError> {
    if index >= |d| then Err(IndexOutOfRange(index, |d|)) else Ok(Path(index, d))
  }

  /** `subproof`. */
  function SubProof(m: nat, d: seq<Hash>, b: bool): seq<Hash>
    requires 0 < m <= |d|
    decreases |d|
  {
    if m == |d| then if b then [] else [RootOf(d)]
    else
      var k := Split(|d|);
      if m <= k then SubProof(m, d[..k], b) + [RootOf(d[k..])]
      else SubProof(m - k, d[k..], false) + [RootOf(d[..k])]
  }

  /** `consistency_proof`. */
  function ConsistencyProof(d: seq<Hash>, old_size: nat): Result<seq<Hash>, MerkleError> {
    if old_size == 0 || old_size > |d| then Err(BadSizes(old_size, |d|))
    else Ok(SubProof(old_size, d, true))
  }

  // ----- What the verifiers compute, freed of their bit twiddling -----

  /**
   * The turns a proof takes on the way up from node `f` of a level whose last node is `s`: true
   * when the sibling is on the left. A last node with an even index has no sibling and is promoted
   * to the next level, so it takes no turn there.
   */
  function Turns(f: nat, s: nat): seq<bool>
    decreases s
  {
    if s == 0 then []
    else if f % 2 == 1 then [true] + Turns(f / 2, s / 2)
    else if f == s then Turns(f / 2, s / 2)
    else [false] + Turns(f / 2, s / 2)
  }

  /** Hashing up from `r` with the siblings `p`, taking the given turns. */
  function Climb(turns: seq<bool>, r: Hash, p: seq<Hash>): Hash
    requires |turns| == |p|
    decreases |p|
  {
    if |p| == 0 then r
    else
      var n := |p| - 1;
      var below := Climb(turns[..n], r, p[..n]);
      if turns[n] then NodeHash(p[n], below) else NodeHash(below, p[n])
  }

  /** The siblings `p` lead from `r` to `root`, one per turn. */
  predicate ClimbsTo(turns: seq<bool>, r: Hash, p: seq<Hash>, root: Hash) {
    |turns| == |p| && Climb(turns, r, p) == root
  }

  /** The same climb for the older tree, which only has the siblings on the left. */
  function ClimbOld(turns: seq<bool>, r: Hash, p: seq<Hash>): Hash
    requires |turns| == |p|
    decreases |p|
  {
    if |p| == 0 then r
    else
      var n := |p| - 1;
      var below := ClimbOld(turns[..n], r, p[..n]);
      if turns[n] then NodeHash(p[n], below) else below
  }

  /** The turns of a consistency proof: those of the last complete subtree of the older tree. */
  function OldTurns(f: nat, s: nat): seq<bool>
    decreases f
  {
    if f % 2 == 1 then OldTurns(f / 2, s / 2) else Turns(f, s)
  }

  // ----- Turns follow the split of the tree -----

  lemma {:induction false} TurnsLeft(f: nat, s: nat, k: nat)
    requires IsPow2(k) && f < k <= s < 2 * k
    ensures Turns(f, s) == Turns(f, k - 1) + [false]
    decreases k
  {
    if k == 1 {
      assert Turns(0, 0) == [];
    } else {
      TurnsLeft(f / 2, s / 2, k / 2);
      assert (k - 1) / 2 == k / 2 - 1;
    }
  }

  lemma {:induction false} TurnsRight(f: nat, s: nat, k: nat)
    requires IsPow2(k) && k <= f <= s < 2 * k
    ensures Turns(f, s) == Turns(f - k, s - k) + [true]
    decreases k
  {
    if k == 1 {
      assert Turns(0, 0) == [];
    } else {
      TurnsRight(f / 2, s / 2, k / 2);
      assert (f - k) / 2 == f / 2 - k / 2;
      assert (s - k) / 2 == s / 2 - k / 2;
    }
  }

  lemma {:induction false} OldTurnsLeft(f: nat, s: nat, k: nat)
    requires IsPow2(k) && f < k <= s < 2 * k
    ensures OldTurns(f, s) == OldTurns(f, k - 1) + [false]
    decreases f
  {
    if f % 2 == 1 {
      OldTurnsLeft(f / 2, s / 2, k / 2);
      assert (k - 1) / 2 == k / 2 - 1;
    } else {
      TurnsLeft(f, s, k);
    }
  }

  lemma {:induction false} OldTurnsRight(f: nat, s: nat, k: nat)
    requires IsPow2(k) && k <= f < s < 2 * k
    ensures OldTurns(f, s) == OldTurns(f - k, s - k) + [true]
    decreases f
  {
    if f % 2 == 1 {
      OldTurnsRight(f / 2, s / 2, k / 2);
      assert (f - k) / 2 == f / 2 - k / 2;
      assert (s - k) / 2 == s / 2 - k / 2;
    } else {
      TurnsRight(f, s, k);
    }
  }

  /** A complete tree's last leaf is its own last complete subtree: no turns. */
  lemma {:induction false} OldTurnsComplete(k: nat)
    requires IsPow2(k)
    ensures OldTurns(k - 1, k - 1) == []
  {
    if k > 1 {
      OldTurnsComplete(k / 2);
      assert (k - 1) / 2 == k / 2 - 1;
    }
  }

  lemma ClimbNone(r: Hash)
    ensures Climb([], r, []) == r && ClimbOld([], r, []) == r
  {
  }

  lemma TurnsOfOne()
    ensures Turns(0, 0) == []
  {
  }

  lemma RootSplit(d: seq<Hash>)
    ensures |d| == 1 ==> RootOf(d) == d[0]
    ensures 1 < |d| ==> RootOf(d) == NodeHash(RootOf(d[..Split(|d|)]), RootOf(d[Split(|d|)..]))
  {
  }

  lemma ClimbSnoc(turns: seq<bool>, r: Hash, p: seq<Hash>, t: bool, h: Hash)
    requires |turns| == |p|
    ensures Climb(turns + [t], r, p + [h])
         == if t then NodeHash(h, Climb(turns, r, p)) else NodeHash(Climb(turns, r, p), h)
    ensures ClimbOld(turns + [t], r, p + [h])
         == if t then NodeHash(h, ClimbOld(turns, r, p)) else ClimbOld(turns, r, p)
  {
    assert (turns + [t])[..|p|] == turns;
    assert (p + [h])[..|p|] == p;
  }

  /** A climb that ends in a node came through the matching child. */
  lemma ClimbInverse(turns: seq<bool>, r: Hash, p: seq<Hash>, t: bool, left: Hash, right: Hash)
    requires |p| == |turns + [t]| && Climb(turns + [t], r, p) == NodeHash(left, right)
    ensures var n := |p| - 1;
            && p == p[..n] + [if t then left else right]
            && Climb(turns, r, p[..n]) == if t then right else left
  {
    assert (turns + [t])[..|p| - 1] == turns;
  }

  // ----- Inclusion -----

  /** The turns from leaf `m` of a tree of `n` leaves. */
  function LeafTurns(m: nat, n: nat): seq<bool>
    requires m < n
  {
    Turns(m, n - 1)
  }

  lemma TurnsSplit(m: nat, n: nat)
    requires m < n && 1 < n
    ensures m < Split(n) ==> LeafTurns(m, n) == LeafTurns(m, Split(n)) + [false]
    ensures m >= Split(n) ==> LeafTurns(m, n) == LeafTurns(m - Split(n), n - Split(n)) + [true]
  {
    if m < Split(n) {
      TurnsLeft(m, n - 1, Split(n));
    } else {
      TurnsRight(m, n - 1, Split(n));
    }
  }

  /** A path has one sibling for every turn. */
  lemma {:induction false} PathLength(m: nat, d: seq<Hash>)
    requires m < |d|
    ensures |Path(m, d)| == |LeafTurns(m, |d|)|
    decreases |d|
  {
    hide Turns, RootOf;
    if |d| == 1 {
      TurnsOfOne();
    } else {
      TurnsSplit(m, |d|);
      var k := Split(|d|);
      if m < k {
        PathLength(m, d[..k]);
      } else {
        PathLength(m - k, d[k..]);
      }
    }
  }

  /** The climb from a leaf over its path, whose length `PathLength` gives, ends at the root. */
  lemma {:induction false} PathClimbs(m: nat, d: seq<Hash>)
    requires m < |d| && |Path(m, d)| == |LeafTurns(m, |d|)|
    ensures Climb(LeafTurns(m, |d|), d[m], Path(m, d)) == RootOf(d)
    decreases |d|
  {
    hide Climb, RootOf, Turns;
    RootSplit(d);
    if |d| == 1 {
      TurnsOfOne();
      ClimbNone(d[m]);
    } else {
      var left, right := d[..Split(|d|)], d[Split(|d|)..];
      TurnsSplit(m, |d|);
      if m < |left| {
        PathClimbs(m, left);
        ClimbSnoc(LeafTurns(m, |left|), left[m], Path(m, left), false, RootOf(right));
      } else {
        var i := m - |left|;
        PathClimbs(i, right);
        ClimbSnoc(LeafTurns(i, |right|), right[i], Path(i, right), true, RootOf(left));
      }
    }
  }

  /** Nothing else climbs to that root: the start is the leaf and the siblings are its path. */
  lemma {:induction false} ClimbDetermines(m: nat, d: seq<Hash>, h: Hash, p: seq<Hash>)
    requires m < |d|
    requires ClimbsTo(LeafTurns(m, |d|), h, p, RootOf(d))
    ensures h == d[m] && p == Path(m, d)
    decreases |d|
  {
    hide Climb, RootOf, Turns;
    RootSplit(d);
    if |d| == 1 {
      TurnsOfOne();
      ClimbNone(h);
    } else {
      var left, right := d[..Split(|d|)], d[Split(|d|)..];
      TurnsSplit(m, |d|);
      if m < |left| {
        ClimbInverse(LeafTurns(m, |left|), h, p, false, RootOf(left), RootOf(right));
        ClimbDetermines(m, left, h, p[..|p| - 1]);
      } else {
        var i := m - |left|;
        ClimbInverse(LeafTurns(i, |right|), h, p, true, RootOf(left), RootOf(right));
        ClimbDetermines(i, right, h, p[..|p| - 1]);
      }
    }
  }

  // ----- Consistency -----

  /** The root of a prefix that reaches past the split has the same left subtree. */
  lemma PrefixRoot(m: nat, d: seq<Hash>)
    requires 1 < |d| && Split(|d|) < m <= |d|
    ensures RootOf(d[..m]) == NodeHash(RootOf(d[..Split(|d|)]), RootOf(d[Split(|d|)..][..m - Split(|d|)]))
  {
    var k := Split(|d|);
    SplitUnique(m, k);
    assert d[..m][..k] == d[..k];
    assert d[..m][k..] == d[k..][..m - k];
  }

  /** A power-of-two prefix is the one case where the proof leaves out its first hash. */
  lemma {:induction false} SubProofFirst(m: nat, d: seq<Hash>)
    requires 0 < m < |d|
    ensures SubProof(m, d, false)
         == if IsPow2(m) then [RootOf(d[..m])] + SubProof(m, d, true) else SubProof(m, d, true)
    decreases |d|
  {
    var k := Split(|d|);
    if m < k {
      SubProofFirst(m, d[..k]);
      assert d[..k][..m] == d[..m];
    } else if m == k {
      assert SubProof(m, d[..k], true) == [];
    } else if IsPow2(m) {
      SplitUnique(|d|, m);
    }
  }

  /** The turns of a consistency proof from `m` to `n` leaves. */
  function ProofTurns(m: nat, n: nat): seq<bool>
    requires 0 < m <= n
  {
    if m == n then [] else OldTurns(m - 1, n - 1)
  }

  lemma ProofTurnsSplit(m: nat, n: nat)
    requires 0 < m < n
    ensures m <= Split(n) ==> ProofTurns(m, n) == ProofTurns(m, Split(n)) + [false]
    ensures m > Split(n) ==> ProofTurns(m, n) == ProofTurns(m - Split(n), n - Split(n)) + [true]
  {
    var k := Split(n);
    if m <= k {
      OldTurnsLeft(m - 1, n - 1, k);
      OldTurnsComplete(k);
    } else {
      OldTurnsRight(m - 1, n - 1, k);
    }
  }

  /** The full proof climbs to the new root on one side and to the prefix's root on the other. */
  lemma {:induction false} SubProofClimbs(m: nat, d: seq<Hash>)
    requires 0 < m <= |d|
    ensures var p := SubProof(m, d, false);
            && |p| == 1 + |ProofTurns(m, |d|)|
            && Climb(ProofTurns(m, |d|), p[0], p[1..]) == RootOf(d)
            && ClimbOld(ProofTurns(m, |d|), p[0], p[1..]) == RootOf(d[..m])
    decreases |d|
  {
    hide Climb, ClimbOld, RootOf, OldTurns;
    var p := SubProof(m, d, false);
    if m == |d| {
      assert d[..m] == d && p[1..] == [];
      ClimbNone(p[0]);
    } else {
      var left, right := d[..Split(|d|)], d[Split(|d|)..];
      ProofTurnsSplit(m, |d|);
      RootSplit(d);
      if m <= |left| {
        SubProofClimbs(m, left);
        var q := SubProof(m, left, false);
        assert p[1..] == q[1..] + [RootOf(right)];
        assert left[..m] == d[..m];
        ClimbSnoc(ProofTurns(m, |left|), q[0], q[1..], false, RootOf(right));
      } else {
        var i := m - |left|;
        SubProofClimbs(i, right);
        var q := SubProof(i, right, false);
        assert p[1..] == q[1..] + [RootOf(left)];
        ClimbSnoc(ProofTurns(i, |right|), q[0], q[1..], true, RootOf(left));
        PrefixRoot(m, d);
      }
    }
  }

  /** Only the full proof climbs to the new root. */
  lemma {:induction false} ClimbDeterminesSubProof(m: nat, d: seq<Hash>, first: Hash, rest: seq<Hash>)
    requires 0 < m <= |d|
    requires |rest| == |ProofTurns(m, |d|)| && Climb(ProofTurns(m, |d|), first, rest) == RootOf(d)
    ensures [first] + rest == SubProof(m, d, false)
    decreases |d|
  {
    hide Climb, RootOf, OldTurns;
    ClimbNone(first);
    if m < |d| {
      RootSplit(d);
      var left, right, n := d[..Split(|d|)], d[Split(|d|)..], |rest| - 1;
      ProofTurnsSplit(m, |d|);
      if m <= |left| {
        ClimbInverse(ProofTurns(m, |left|), first, rest, false, RootOf(left), RootOf(right));
        ClimbDeterminesSubProof(m, left, first, rest[..n]);
      } else {
        var i := m - |left|;
        ClimbInverse(ProofTurns(i, |right|), first, rest, true, RootOf(left), RootOf(right));
        ClimbDeterminesSubProof(i, right, first, rest[..n]);
      }
      assert [first] + rest == ([first] + rest[..n]) + [rest[n]];
    }
  }
}
