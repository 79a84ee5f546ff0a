/** The loop verifiers of inclusion and consistency proofs, and what accepting a proof means. */
module MerkleVerify {
  import opened Wrappers
  import opened Powers
  import opened Merkle

  /**
   * The index updates both verifiers make after using one hash: a last node without a sibling is
   * moved up to the level where it has one, then the level is left behind.
   */
  method NextLevel(f: nat, s: nat) returns (f': nat, s': nat)
    requires f <= s && s != 0
    ensures f' <= s' && Turns(f, s) == [f % 2 == 1 || f == s] + Turns(f', s')
  {
    f', s' := f, s;
    if f % 2 == 0 && f == s {
      while f' % 2 == 0 && f' != 0
        invariant f' == s' != 0 && Turns(f', s') == Turns(f, s)
      {
        f', s' := f' / 2, s' / 2;
      }
    }
    f', s' := f' / 2, s' / 2;
  }

  lemma Regroup(turns: seq<bool>, turn: bool, above: seq<bool>)
    ensures turns + ([turn] + above) == (turns + [turn]) + above
  {
  }

  // ----- Inclusion -----

  function InclusionVerdict(head: TreeHead, index: nat, leaf: Hash, proof: seq<Hash>): Outcome<MerkleError> {
    if index >= head.size then Fail(IndexOutOfRange(index, head.size))
    else if |proof| != |LeafTurns(index, head.size)| then Fail(BadProofLength)
    else if Climb(LeafTurns(index, head.size), leaf, proof) == head.root then Pass
    else Fail(RootMismatch)
  }

  /** `verify_inclusion`. */
  method VerifyInclusion(head: TreeHead, index: nat, leaf: Hash, proof: seq<Hash>) returns (r: Outcome<MerkleError>)
    ensures r == InclusionVerdict(head, index, leaf, proof)
  {
    hide Turns, Climb;
    ClimbNone(leaf);
    if index >= head.size {
      return Fail(IndexOutOfRange(index, head.size));
    }
    var f: nat, s: nat := index, head.size - 1;
    var h := leaf;
    ghost var all, turns: seq<bool> := LeafTurns(index, head.size), [];
    for j := 0 to |proof|
      invariant f <= s && |turns| == j && all == turns + Turns(f, s)
      invariant h == Climb(turns, leaf, proof[..j])
    {
      NoTurnsAtRoot(f, s);
      if s == 0 {
        return Fail(BadProofLength);
      }
      var p := proof[j];
      assert proof[..j + 1] == proof[..j] + [p];
      if f % 2 == 1 || f == s {
        ClimbSnoc(turns, leaf, proof[..j], true, p);
        h := NodeHash(p, h);
      } else {
        ClimbSnoc(turns, leaf, proof[..j], false, p);
        h := NodeHash(h, p);
      }
      ghost var turn := f % 2 == 1 || f == s;
      f, s := NextLevel(f, s);
      Regroup(turns, turn, Turns(f, s));
      turns := turns + [turn];
    }
    assert proof[..|proof|] == proof;
    NoTurnsAtRoot(f, s);
    if s != 0 {
      return Fail(BadProofLength);
    }
    assert turns == all;
    r := if h == head.root then Pass else Fail(RootMismatch);
  }

  /** Turns run out exactly at the root. */
  lemma {:induction false} NoTurnsAtRoot(f: nat, s: nat)
    requires f <= s
    ensures Turns(f, s) == [] <==> s == 0
    decreases s
  {
    if s != 0 && f % 2 == 0 && f == s {
      NoTurnsAtRoot(f / 2, s / 2);
    }
  }

  /**
   * Inclusion proofs are complete and sound: against the head of the leaf list `d`, the verifier
   * accepts leaf hash `h` at `index` exactly when it is that leaf and the proof is the generated one.
   */
  lemma InclusionExact(d: seq<Hash>, index: nat, h: Hash, proof: seq<Hash>)
    ensures InclusionVerdict(HeadOf(d), index, h, proof).Pass?
       <==> index < |d| && h == d[index] && InclusionProof(d, index) == Ok(proof)
  {
    if index < |d| {
      PathLength(index, d);
      PathClimbs(index, d);
      if InclusionVerdict(HeadOf(d), index, h, proof).Pass? {
        ClimbDetermines(index, d, h, proof);
      }
    }
  }

  // ----- Consistency -----

  /** The proof with the older root put back when it is a subtree of the newer tree. */
  function FullProof(old_head: TreeHead, proof: seq<Hash>): seq<Hash> {
    if IsPow2(old_head.size) then [old_head.root] + proof else proof
  }

  function ConsistencyVerdict(old_head: TreeHead, new_head: TreeHead, proof: seq<Hash>): Outcome<MerkleError> {
    if old_head.size == 0 || old_head.size > new_head.size then Fail(BadSizes(old_head.size, new_head.size))
    else if old_head.size == new_head.size then
      if proof != [] then Fail(BadProofLength)
      else if old_head.root == new_head.root then Pass
      else Fail(RootMismatch)
    else
      var full := FullProof(old_head, proof);
      var turns := ProofTurns(old_head.size, new_head.size);
      if |full| != 1 + |turns| then Fail(BadProofLength)
      else if ClimbOld(turns, full[0], full[1..]) == old_head.root && Climb(turns, full[0], full[1..]) == new_head.root
      then Pass
      else Fail(RootMismatch)
  }

  /** The levels on which the old tree ends in a complete subtree give no turn of their own. */
  method DropShared(m: nat, n: nat) returns (f: nat, s: nat)
    requires m < n
    ensures f < s && Turns(f, s) == OldTurns(m, n)
  {
    f, s := m, n;
    while f % 2 == 1
      invariant f < s && OldTurns(m, n) == OldTurns(f, s)
      decreases f
    {
      f, s := f / 2, s / 2;
    }
  }

  /** `verify_consistency`. */
  method VerifyConsistency(old_head: TreeHead, new_head: TreeHead, proof: seq<Hash>) returns (r: Outcome<MerkleError>)
    ensures r == ConsistencyVerdict(old_head, new_head, proof)
  {
    hide Turns, Climb, ClimbOld, IsPow2;
    if old_head.size == 0 || old_head.size > new_head.size {
      return Fail(BadSizes(old_head.size, new_head.size));
    }
    if old_head.size == new_head.size {
      return if proof == [] && old_head.root == new_head.root then Pass
             else if proof != [] then Fail(BadProofLength)
             else Fail(RootMismatch);
    }
    var full := proof;
    if IsPow2(old_head.size) {
      full := [old_head.root] + full;
    }
    ghost var all := OldTurns(old_head.size - 1, new_head.size - 1);
    var f: nat, s: nat := DropShared(old_head.size - 1, new_head.size - 1);
    if |full| == 0 {
      return Fail(BadProofLength);
    }
    var first, rest := full[0], full[1..];
    var fr, sr := first, first;
    ClimbNone(first);
    ghost var turns: seq<bool> := [];
    for j := 0 to |rest|
      invariant f <= s && |turns| == j && all == turns + Turns(f, s)
      invariant fr == ClimbOld(turns, first, rest[..j]) && sr == Climb(turns, first, rest[..j])
    {
      NoTurnsAtRoot(f, s);
      if s == 0 {
        return Fail(BadProofLength);
      }
      var c := rest[j];
      assert rest[..j + 1] == rest[..j] + [c];
      if f % 2 == 1 || f == s {
        ClimbSnoc(turns, first, rest[..j], true, c);
        fr, sr := NodeHash(c, fr), NodeHash(c, sr);
      } else {
        ClimbSnoc(turns, first, rest[..j], false, c);
        sr := NodeHash(sr, c);
      }
      ghost var turn := f % 2 == 1 || f == s;
      f, s := NextLevel(f, s);
      Regroup(turns, turn, Turns(f, s));
      turns := turns + [turn];
    }
    assert rest[..|rest|] == rest;
    NoTurnsAtRoot(f, s);
    if s != 0 {
      return Fail(BadProofLength);
    }
    assert turns == all;
    r := if fr == old_head.root && sr == new_head.root then Pass else Fail(RootMismatch);
  }

  /**
   * Consistency proofs are complete and sound: against the head of the leaf list `d`, the verifier
   * accepts an older head of non-zero size exactly when it is the head of that prefix of `d` and the
   * proof is the generated one.
   */
  lemma ConsistencyExact(d: seq<Hash>, old_head: TreeHead, proof: seq<Hash>)
    ensures ConsistencyVerdict(old_head, HeadOf(d), proof).Pass?
       <==> && 0 < old_head.size <= |d| && old_head == HeadOf(d[..old_head.size])
            && ConsistencyProof(d, old_head.size) == Ok(proof)
  {
    var m := old_head.size;
    if m == |d| {
      assert d[..m] == d;
    } else if 0 < m < |d| {
      SubProofClimbs(m, d);
      SubProofFirst(m, d);
      var full := FullProof(old_head, proof);
      var p := SubProof(m, d, false);
      if ConsistencyVerdict(old_head, HeadOf(d), proof).Pass? {
        ClimbDeterminesSubProof(m, d, full[0], full[1..]);
        assert full == p;
        if IsPow2(m) {
          assert full[1..] == proof && p[1..] == SubProof(m, d, true);
        }
      }
    }
  }

  /** One proof cannot show two older roots: consistency fixes the older head. */
  lemma OlderHeadUnique(d: seq<Hash>, a: TreeHead, b: TreeHead, pa: seq<Hash>, pb: seq<Hash>)
    requires ConsistencyVerdict(a, HeadOf(d), pa).Pass? && ConsistencyVerdict(b, HeadOf(d), pb).Pass?
    ensures a.size == b.size ==> a == b
    ensures a.size <= b.size ==>
      a.size <= |d[..b.size]| && HeadOf(d[..b.size][..a.size]) == a
  {
    ConsistencyExact(d, a, pa);
    ConsistencyExact(d, b, pb);
    if a.size <= b.size {
      assert d[..b.size][..a.size] == d[..a.size];
    }
  }

  /** Why an inclusion proof is refused: an index beyond the tree, a length that is not the path's, or another root. */
  lemma InclusionRefused(d: seq<Hash>, index: nat, h: Hash, proof: seq<Hash>)
    requires InclusionVerdict(HeadOf(d), index, h, proof).Fail?
    ensures InclusionVerdict(HeadOf(d), index, h, proof).error
         == if index >= |d| then IndexOutOfRange(index, |d|)
            else if |proof| != |Path(index, d)| then BadProofLength
            else RootMismatch
  {
    if index < |d| {
      PathLength(index, d);
    }
  }

  /** Why a consistency proof is refused: sizes out of order, a length that is not the generated one's, or another root. */
  lemma ConsistencyRefused(d: seq<Hash>, old_head: TreeHead, proof: seq<Hash>)
    requires ConsistencyVerdict(old_head, HeadOf(d), proof).Fail?
    ensures var m := old_head.size;
      ConsistencyVerdict(old_head, HeadOf(d), proof).error
      == if m == 0 || m > |d| then BadSizes(m, |d|)
         else if |proof| != |SubProof(m, d, true)| then BadProofLength
         else RootMismatch
  {
    var m := old_head.size;
    if 0 < m < |d| {
      SubProofClimbs(m, d);
      SubProofFirst(m, d);
    }
  }
}
