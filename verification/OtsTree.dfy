/** Proof trees: canonical form, merging, and what a proof attests. */
module OtsTree {
  import opened Wrappers
  import opened Orders
  import opened OtsCodec

  /** A node: its message, what attests to it, and the operations leading on from it. */
  datatype Tree = Tree(msg: bytes, attestations: seq<Attestation>, ops: seq<Edge>)

  datatype Edge = Edge(op: Op, child: Tree)

  predicate EdgeBefore(a: Edge, b: Edge) {
    Lex(OpKey(a.op), OpKey(b.op), ByteBefore)
  }

  // ----- Merging -----

  function AddAttestation(atts: seq<Attestation>, a: Attestation): seq<Attestation> {
    if a in atts then atts else Insert(atts, a, AttestationBefore)
  }

  function AddAttestations(atts: seq<Attestation>, more: seq<Attestation>): seq<Attestation>
    decreases |more|
  {
    if more == [] then atts else AddAttestations(AddAttestation(atts, more[0]), more[1..])
  }

  /** Where `op` is first found, or the length if it is not. */
  function Position(ops: seq<Edge>, op: Op): (i: nat)
    ensures i <= |ops| && (i < |ops| ==> ops[i].op == op) && forall j :: 0 <= j < i ==> ops[j].op != op
  {
    if ops == [] || ops[0].op == op then 0 else 1 + Position(ops[1..], op)
  }

  /** `add_op`: merge into the branch of the same operation, or start a new branch. */
  function AddEdge(ops: seq<Edge>, e: Edge): seq<Edge>
    decreases e
  {
    var i := Position(ops, e.op);
    if i < |ops| then ops[i := Edge(e.op, Merge(ops[i].child, e.child))] else Insert(ops, e, EdgeBefore)
  }

  function AddEdges(ops: seq<Edge>, more: seq<Edge>): seq<Edge>
    decreases more
  {
    if more == [] then ops else AddEdges(AddEdge(ops, more[0]), more[1..])
  }

  /** `Timestamp::merge`. */
  function Merge(a: Tree, b: Tree): Tree
    decreases b
  {
    Tree(a.msg, AddAttestations(a.attestations, b.attestations), AddEdges(a.ops, b.ops))
  }

  // ----- Well-formed, canonical trees -----

  ghost predicate GoodAttestations(atts: seq<Attestation>) {
    Strictly(atts, AttestationBefore) && forall a :: a in atts ==> GoodAttestation(a)
  }

  /** A node and everything below it, with at most `depth` levels; the node itself may still be empty. */
  ghost predicate Sound(h: Hashes, t: Tree, depth: nat)
    decreases t, 1
  {
    GoodAttestations(t.attestations) && GoodEdges(h, t.msg, t.ops, depth)
  }

  ghost predicate GoodEdges(h: Hashes, msg: bytes, ops: seq<Edge>, depth: nat)
    decreases ops
  {
    Strictly(ops, EdgeBefore) && forall i :: 0 <= i < |ops| ==> GoodEdge(h, msg, ops[i], depth)
  }

  /** The operation is well-formed and its branch a good proof of the message it computes. */
  ghost predicate GoodEdge(h: Hashes, msg: bytes, e: Edge, depth: nat)
    decreases e
  {
    && GoodOp(e.op) && NextMessage(h, e.op, msg) == Some(e.child.msg)
    && 1 < depth && Good(h, e.child, depth - 1)
  }

  ghost predicate Good(h: Hashes, t: Tree, depth: nat)
    decreases t, 2
  {
    0 < depth && (t.attestations != [] || t.ops != []) && Sound(h, t, depth)
  }

  /** Sorted throughout, without repetition; nodes may be empty, and messages and depth are not looked at. */
  ghost predicate Canonical(t: Tree)
    decreases t
  {
    GoodAttestations(t.attestations) && CanonicalEdges(t.ops)
  }

  ghost predicate CanonicalEdges(ops: seq<Edge>)
    decreases ops
  {
    Strictly(ops, EdgeBefore) && forall i :: 0 <= i < |ops| ==> CanonicalEdge(ops[i])
  }

  ghost predicate CanonicalEdge(e: Edge)
    decreases e
  {
    Canonical(e.child)
  }

  lemma {:induction false} SoundIsCanonical(h: Hashes, t: Tree, depth: nat)
    requires Sound(h, t, depth)
    ensures Canonical(t)
    decreases depth
  {
    hide GoodAttestations, EdgeBefore, NextMessage;
    forall i | 0 <= i < |t.ops|
      ensures CanonicalEdge(t.ops[i])
    {
      assert GoodEdge(h, t.msg, t.ops[i], depth);
      assert Good(h, t.ops[i].child, depth - 1);
      SoundIsCanonical(h, t.ops[i].child, depth - 1);
    }
  }

  // ----- Attestation lists as sets -----

  lemma AddAttestationSound(atts: seq<Attestation>, a: Attestation)
    requires GoodAttestations(atts) && GoodAttestation(a)
    ensures GoodAttestations(AddAttestation(atts, a))
    ensures forall x :: x in AddAttestation(atts, a) <==> x in atts || x == a
  {
    if a !in atts {
      AttestationsByKey();
      forall i | 0 <= i < |atts|
        ensures AttestationBefore(a, atts[i]) || AttestationBefore(atts[i], a)
      {
        AttestationsComparable(a, atts[i]);
      }
      InsertStrictly(atts, a, AttestationBefore);
    }
  }

  lemma AttestationsComparable(a: Attestation, b: Attestation)
    requires GoodAttestation(a) && GoodAttestation(b) && a != b
    ensures AttestationBefore(a, b) || AttestationBefore(b, a)
  {
    LexTotal(AttestationKey(a), AttestationKey(b), ByteBefore);
    if AttestationKey(a) == AttestationKey(b) {
      AttestationKeyInjective(a, b);
    }
  }

  lemma {:induction false} AddAttestationsSound(atts: seq<Attestation>, more: seq<Attestation>)
    requires GoodAttestations(atts) && forall a :: a in more ==> GoodAttestation(a)
    ensures GoodAttestations(AddAttestations(atts, more))
    ensures forall x :: x in AddAttestations(atts, more) <==> x in atts || x in more
    decreases |more|
  {
    hide GoodAttestations, AddAttestation, GoodAttestation;
    if more != [] {
      AddAttestationSound(atts, more[0]);
      AddAttestationsSound(AddAttestation(atts, more[0]), more[1..]);
      assert more == [more[0]] + more[1..];
    }
  }

  lemma SameAttestations(a: seq<Attestation>, b: seq<Attestation>)
    requires GoodAttestations(a) && GoodAttestations(b) && forall x :: x in a <==> x in b
    ensures a == b
  {
    AttestationsByKey();
    StrictUnique(a, b, AttestationBefore);
  }

  // ----- Branch lists as maps -----

  lemma EdgesByKey()
    ensures ByKey(EdgeBefore)
  {
    forall a: Edge, b: Edge | EdgeBefore(a, b)
      ensures !EdgeBefore(b, a)
    {
      LexTotal(OpKey(a.op), OpKey(b.op), ByteBefore);
    }
    forall a: Edge, b: Edge, c: Edge | !EdgeBefore(b, a) && !EdgeBefore(c, b)
      ensures !EdgeBefore(c, a)
    {
      LexNotTrans(OpKey(a.op), OpKey(b.op), OpKey(c.op), ByteBefore);
    }
  }

  lemma EdgesComparable(a: Edge, b: Edge)
    ensures a.op != b.op <==> EdgeBefore(a, b) || EdgeBefore(b, a)
  {
    LexTotal(OpKey(a.op), OpKey(b.op), ByteBefore);
    LexTotal(OpKey(a.op), OpKey(a.op), ByteBefore);
    if OpKey(a.op) == OpKey(b.op) {
      OpKeyInjective(a.op, b.op);
    }
  }

  /** The branch of an operation. */
  function Find(ops: seq<Edge>, op: Op): Option<Tree> {
    var i := Position(ops, op);
    if i < |ops| then Some(ops[i].child) else None
  }

  lemma FindIn(ops: seq<Edge>, op: Op, c: Tree)
    requires Strictly(ops, EdgeBefore)
    ensures Find(ops, op) == Some(c) <==> Edge(op, c) in ops
  {
    var i := Position(ops, op);
    if Edge(op, c) in ops {
      var j :| 0 <= j < |ops| && ops[j] == Edge(op, c);
      if i != j {
        EdgesComparable(ops[i], ops[j]);
      }
    } else if i < |ops| {
      assert ops[i] == Edge(op, ops[i].child);
    }
  }

  lemma FindNone(ops: seq<Edge>, op: Op)
    ensures Find(ops, op).None? <==> forall e :: e in ops ==> e.op != op
  {
    var i := Position(ops, op);
    assert i < |ops| ==> ops[i] in ops;
  }

  lemma SameEdges(a: seq<Edge>, b: seq<Edge>)
    requires Strictly(a, EdgeBefore) && Strictly(b, EdgeBefore) && forall op :: Find(a, op) == Find(b, op)
    ensures a == b
  {
    hide Find;
    EdgesByKey();
    forall e
      ensures e in a <==> e in b
    {
      assert e == Edge(e.op, e.child);
      FindIn(a, e.op, e.child);
      FindIn(b, e.op, e.child);
    }
    StrictUnique(a, b, EdgeBefore);
  }

  function Join(a: Option<Tree>, b: Option<Tree>): Option<Tree> {
    if a.None? then b else if b.None? then a else Some(Merge(a.value, b.value))
  }

  /** A new branch goes where its key belongs. */
  lemma InsertEdge(ops: seq<Edge>, e: Edge, op: Op)
    requires Strictly(ops, EdgeBefore) && Find(ops, e.op).None?
    ensures Strictly(Insert(ops, e, EdgeBefore), EdgeBefore)
    ensures Find(Insert(ops, e, EdgeBefore), op) == if op == e.op then Some(e.child) else Find(ops, op)
  {
    EdgesByKey();
    FindNone(ops, e.op);
    forall i | 0 <= i < |ops|
      ensures EdgeBefore(e, ops[i]) || EdgeBefore(ops[i], e)
    {
      assert ops[i] in ops;
      EdgesComparable(e, ops[i]);
    }
    InsertStrictly(ops, e, EdgeBefore);
    var out := Insert(ops, e, EdgeBefore);
    hide Find, Insert;
    assert e == Edge(e.op, e.child);
    if op == e.op {
      FindIn(out, op, e.child);
    } else if Find(ops, op).Some? {
      FindIn(ops, op, Find(ops, op).value);
      FindIn(out, op, Find(ops, op).value);
    } else {
      FindNone(ops, op);
      FindNone(out, op);
    }
  }

  lemma ReplaceStrictly(ops: seq<Edge>, i: nat, c: Tree)
    requires Strictly(ops, EdgeBefore) && i < |ops|
    ensures Strictly(ops[i := Edge(ops[i].op, c)], EdgeBefore)
  {
    hide Lex;
    var out := ops[i := Edge(ops[i].op, c)];
    forall j, k | 0 <= j < k < |out|
      ensures EdgeBefore(out[j], out[k])
    {
      assert EdgeBefore(ops[j], ops[k]);
    }
  }

  lemma ReplaceEdge(ops: seq<Edge>, i: nat, c: Tree, op: Op)
    requires Strictly(ops, EdgeBefore) && i < |ops|
    ensures var out := ops[i := Edge(ops[i].op, c)];
      && Strictly(out, EdgeBefore)
      && Find(out, op) == if op == ops[i].op then Some(c) else Find(ops, op)
  {
    hide Find, EdgeBefore, Strictly;
    var out := ops[i := Edge(ops[i].op, c)];
    ReplaceStrictly(ops, i, c);
    if op == ops[i].op {
      assert out[i] in out;
      FindIn(out, op, c);
    } else if Find(ops, op).Some? {
      FindIn(ops, op, Find(ops, op).value);
      var j :| 0 <= j < |ops| && ops[j] == Edge(op, Find(ops, op).value);
      assert out[j] == ops[j];
      FindIn(out, op, Find(ops, op).value);
    } else {
      FindNone(ops, op);
      FindNone(out, op);
      assert ops[i] in ops;
      assert forall e :: e in out ==> e in ops || e == out[i];
    }
  }

  lemma AddEdgeFind(ops: seq<Edge>, e: Edge, op: Op)
    requires Strictly(ops, EdgeBefore)
    ensures Strictly(AddEdge(ops, e), EdgeBefore)
    ensures Find(AddEdge(ops, e), op) == if op == e.op then Join(Find(ops, op), Some(e.child)) else Find(ops, op)
  {
    hide Merge, EdgeBefore;
    var i := Position(ops, e.op);
    if i < |ops| {
      ReplaceEdge(ops, i, Merge(ops[i].child, e.child), op);
    } else {
      InsertEdge(ops, e, op);
    }
  }

  /** Merging lists of branches joins the branches of each operation. */
  lemma {:induction false} AddEdgesFind(ops: seq<Edge>, more: seq<Edge>, op: Op)
    requires Strictly(ops, EdgeBefore) && Strictly(more, EdgeBefore)
    ensures Strictly(AddEdges(ops, more), EdgeBefore)
    ensures Find(AddEdges(ops, more), op) == Join(Find(ops, op), Find(more, op))
    decreases |more|
  {
    hide EdgeBefore, AddEdge, Merge;
    if more != [] {
      var rest := AddEdge(ops, more[0]);
      AddEdgeFind(ops, more[0], op);
      AddEdgesFind(rest, more[1..], op);
      if op == more[0].op {
        RestLacks(more);
      }
    }
  }

  lemma RestLacks(ops: seq<Edge>)
    requires Strictly(ops, EdgeBefore) && ops != []
    ensures Find(ops[1..], ops[0].op).None?
  {
    FindNone(ops[1..], ops[0].op);
    forall e | e in ops[1..]
      ensures e.op != ops[0].op
    {
      var j :| 1 <= j < |ops| && ops[j] == e;
      EdgesComparable(ops[0], ops[j]);
    }
  }

  // ----- What merging keeps -----

  lemma CanonicalBranch(ops: seq<Edge>, op: Op)
    requires CanonicalEdges(ops) && Find(ops, op).Some?
    ensures Canonical(Find(ops, op).value)
  {
    assert CanonicalEdge(ops[Position(ops, op)]);
  }

  lemma BranchesCanonical(ops: seq<Edge>)
    requires Strictly(ops, EdgeBefore) && forall op :: Find(ops, op).Some? ==> Canonical(Find(ops, op).value)
    ensures CanonicalEdges(ops)
  {
    hide Find, EdgeBefore, Canonical;
    forall i | 0 <= i < |ops|
      ensures CanonicalEdge(ops[i])
    {
      assert ops[i] == Edge(ops[i].op, ops[i].child) && ops[i] in ops;
      FindIn(ops, ops[i].op, ops[i].child);
    }
  }

  lemma {:induction false} AddEdgeCanonical(ops: seq<Edge>, e: Edge)
    requires CanonicalEdges(ops) && CanonicalEdge(e)
    ensures CanonicalEdges(AddEdge(ops, e))
    decreases e, 0
  {
    hide Find, EdgeBefore, AddEdge, Merge;
    var out := AddEdge(ops, e);
    AddEdgeFind(ops, e, e.op);
    forall op | Find(out, op).Some?
      ensures Canonical(Find(out, op).value)
    {
      AddEdgeFind(ops, e, op);
      if Find(ops, op).Some? {
        CanonicalBranch(ops, op);
        if op == e.op {
          MergeCanonical(Find(ops, op).value, e.child);
        }
      }
    }
    BranchesCanonical(out);
  }

  lemma {:induction false} AddEdgesCanonical(ops: seq<Edge>, more: seq<Edge>)
    requires CanonicalEdges(ops) && CanonicalEdges(more)
    ensures CanonicalEdges(AddEdges(ops, more))
    decreases more, 1
  {
    hide EdgeBefore, AddEdge, CanonicalEdge;
    if more != [] {
      AddEdgeCanonical(ops, more[0]);
      forall i | 0 <= i < |more[1..]|
        ensures CanonicalEdge(more[1..][i])
      {
        assert more[1..][i] == more[i + 1];
      }
      AddEdgesCanonical(AddEdge(ops, more[0]), more[1..]);
    }
  }

  /** Merging keeps any two trees canonical, whatever their messages. */
  lemma {:induction false} MergeCanonical(a: Tree, b: Tree)
    requires Canonical(a) && Canonical(b)
    ensures Canonical(Merge(a, b))
    decreases b
  {
    hide GoodAttestations, CanonicalEdges, AddEdges, AddAttestations;
    GoodMembers(b.attestations);
    AddAttestationsSound(a.attestations, b.attestations);
    AddEdgesCanonical(a.ops, b.ops);
  }

  lemma GoodMembers(atts: seq<Attestation>)
    requires GoodAttestations(atts)
    ensures Strictly(atts, AttestationBefore) && forall a :: a in atts ==> GoodAttestation(a)
  {
  }

  lemma GoodBranch(h: Hashes, t: Tree, op: Op, depth: nat)
    requires Sound(h, t, depth) && Find(t.ops, op).Some?
    ensures GoodEdge(h, t.msg, Edge(op, Find(t.ops, op).value), depth)
  {
    var i := Position(t.ops, op);
    assert t.ops[i] == Edge(op, Find(t.ops, op).value);
  }

  lemma BranchesGood(h: Hashes, msg: bytes, ops: seq<Edge>, depth: nat)
    requires Strictly(ops, EdgeBefore)
    requires forall op :: Find(ops, op).Some? ==> GoodEdge(h, msg, Edge(op, Find(ops, op).value), depth)
    ensures GoodEdges(h, msg, ops, depth)
  {
    hide Find, EdgeBefore, GoodEdge;
    forall i | 0 <= i < |ops|
      ensures GoodEdge(h, msg, ops[i], depth)
    {
      assert ops[i] == Edge(ops[i].op, ops[i].child) && ops[i] in ops;
      FindIn(ops, ops[i].op, ops[i].child);
    }
  }

  /** A branch of a merge is a branch of one tree, or the merge of a branch of each. */
  lemma MergeBranch(h: Hashes, a: Tree, b: Tree, depth: nat, op: Op)
    requires Sound(h, a, depth) && Sound(h, b, depth)
    ensures Strictly(Merge(a, b).ops, EdgeBefore)
    ensures Find(Merge(a, b).ops, op) == Join(Find(a.ops, op), Find(b.ops, op))
  {
    AddEdgesFind(a.ops, b.ops, op);
  }

  /** Merging two canonical proofs of one message gives a canonical proof of it, no deeper than they are. */
  lemma {:induction false} MergeSound(h: Hashes, a: Tree, b: Tree, depth: nat)
    requires Sound(h, a, depth) && Sound(h, b, depth) && a.msg == b.msg
    ensures Sound(h, Merge(a, b), depth) && Merge(a, b).msg == a.msg
    ensures Good(h, a, depth) || Good(h, b, depth) ==> Good(h, Merge(a, b), depth)
    decreases depth
  {
    hide Find, EdgeBefore, Strictly;
    var m := Merge(a, b);
    AddAttestationsSound(a.attestations, b.attestations);
    forall op | Find(m.ops, op).Some?
      ensures GoodEdge(h, m.msg, Edge(op, Find(m.ops, op).value), depth)
    {
      MergeBranch(h, a, b, depth, op);
      if Find(a.ops, op).Some? {
        GoodBranch(h, a, op, depth);
      }
      if Find(b.ops, op).Some? {
        GoodBranch(h, b, op, depth);
      }
      if Find(a.ops, op).Some? && Find(b.ops, op).Some? {
        MergeSound(h, Find(a.ops, op).value, Find(b.ops, op).value, depth - 1);
      }
    }
    MergeBranch(h, a, b, depth, Reverse);
    BranchesGood(h, m.msg, m.ops, depth);
    MergeNonEmpty(h, a, b, depth);
  }

  lemma MergeNonEmpty(h: Hashes, a: Tree, b: Tree, depth: nat)
    requires Sound(h, a, depth) && Sound(h, b, depth)
    ensures var m := Merge(a, b);
      a.attestations != [] || a.ops != [] || b.attestations != [] || b.ops != [] ==> m.attestations != [] || m.ops != []
  {
    hide Merge;
    AddAttestationsSound(a.attestations, b.attestations);
    MergeIs(a, b);
    assert a.attestations != [] ==> a.attestations[0] in a.attestations;
    assert b.attestations != [] ==> b.attestations[0] in b.attestations;
    if a.ops != [] {
      MergeBranch(h, a, b, depth, a.ops[0].op);
    } else if b.ops != [] {
      MergeBranch(h, a, b, depth, b.ops[0].op);
    }
  }

  lemma MergeIs(a: Tree, b: Tree)
    ensures Merge(a, b).msg == a.msg
    ensures Merge(a, b).attestations == AddAttestations(a.attestations, b.attestations)
  {
  }

  /** Two good trees with the same message, attestations and branches are equal. */
  lemma SameTree(h: Hashes, a: Tree, b: Tree, depth: nat)
    requires Sound(h, a, depth) && Sound(h, b, depth) && a.msg == b.msg
    requires forall x :: x in a.attestations <==> x in b.attestations
    requires forall op :: Find(a.ops, op) == Find(b.ops, op)
    ensures a == b
  {
    hide Find;
    SameAttestations(a.attestations, b.attestations);
    SameEdges(a.ops, b.ops);
  }

  /** Merging is commutative. */
  lemma {:induction false} MergeCommutes(h: Hashes, a: Tree, b: Tree, depth: nat)
    requires Sound(h, a, depth) && Sound(h, b, depth) && a.msg == b.msg
    ensures Merge(a, b) == Merge(b, a)
    decreases depth
  {
    hide Find, Merge, Sound;
    MergeSound(h, a, b, depth);
    MergeSound(h, b, a, depth);
    MergeAttestations(h, a, b, depth);
    MergeAttestations(h, b, a, depth);
    forall op
      ensures Find(Merge(a, b).ops, op) == Find(Merge(b, a).ops, op)
    {
      MergeBranch(h, a, b, depth, op);
      MergeBranch(h, b, a, depth, op);
      if Find(a.ops, op).Some? && Find(b.ops, op).Some? {
        GoodBranch(h, a, op, depth);
        GoodBranch(h, b, op, depth);
        GoodIsSound(h, Find(a.ops, op).value, depth - 1);
        GoodIsSound(h, Find(b.ops, op).value, depth - 1);
        MergeCommutes(h, Find(a.ops, op).value, Find(b.ops, op).value, depth - 1);
      }
    }
    SameTree(h, Merge(a, b), Merge(b, a), depth);
  }

  lemma GoodIsSound(h: Hashes, t: Tree, depth: nat)
    requires Good(h, t, depth)
    ensures Sound(h, t, depth)
  {
  }

  lemma MergeAttestations(h: Hashes, a: Tree, b: Tree, depth: nat)
    requires Sound(h, a, depth) && Sound(h, b, depth)
    ensures forall x :: x in Merge(a, b).attestations <==> x in a.attestations || x in b.attestations
  {
    AddAttestationsSound(a.attestations, b.attestations);
  }

  /** Merging a proof into itself changes nothing. */
  lemma {:induction false} MergeIdempotent(h: Hashes, a: Tree, depth: nat)
    requires Sound(h, a, depth)
    ensures Merge(a, a) == a
    decreases depth
  {
    hide Find, Merge, Sound;
    MergeSound(h, a, a, depth);
    MergeAttestations(h, a, a, depth);
    forall op
      ensures Find(Merge(a, a).ops, op) == Find(a.ops, op)
    {
      MergeBranch(h, a, a, depth, op);
      if Find(a.ops, op).Some? {
        GoodBranch(h, a, op, depth);
        GoodIsSound(h, Find(a.ops, op).value, depth - 1);
        MergeIdempotent(h, Find(a.ops, op).value, depth - 1);
      }
    }
    SameTree(h, Merge(a, a), a, depth);
  }

  /** Merging is associative: the order in which proofs arrive does not matter. */
  lemma {:induction false} MergeAssociates(h: Hashes, a: Tree, b: Tree, c: Tree, depth: nat)
    requires Sound(h, a, depth) && Sound(h, b, depth) && Sound(h, c, depth) && a.msg == b.msg == c.msg
    ensures Merge(Merge(a, b), c) == Merge(a, Merge(b, c))
    decreases depth
  {
    hide Find, Merge, Sound;
    MergeSound(h, a, b, depth);
    MergeSound(h, b, c, depth);
    var x, y := Merge(Merge(a, b), c), Merge(a, Merge(b, c));
    MergeSound(h, Merge(a, b), c, depth);
    MergeSound(h, a, Merge(b, c), depth);
    MergeAttestations(h, a, b, depth);
    MergeAttestations(h, b, c, depth);
    MergeAttestations(h, Merge(a, b), c, depth);
    MergeAttestations(h, a, Merge(b, c), depth);
    forall op
      ensures Find(x.ops, op) == Find(y.ops, op)
    {
      MergeBranch(h, a, b, depth, op);
      MergeBranch(h, b, c, depth, op);
      MergeBranch(h, Merge(a, b), c, depth, op);
      MergeBranch(h, a, Merge(b, c), depth, op);
      if Find(a.ops, op).Some? && Find(b.ops, op).Some? && Find(c.ops, op).Some? {
        GoodBranch(h, a, op, depth);
        GoodBranch(h, b, op, depth);
        GoodBranch(h, c, op, depth);
        GoodIsSound(h, Find(a.ops, op).value, depth - 1);
        GoodIsSound(h, Find(b.ops, op).value, depth - 1);
        GoodIsSound(h, Find(c.ops, op).value, depth - 1);
        MergeAssociates(h, Find(a.ops, op).value, Find(b.ops, op).value, Find(c.ops, op).value, depth - 1);
      }
    }
    SameTree(h, x, y, depth);
  }

  // ----- What a proof attests -----

  /** `collect`: every attestation with the message it attests to, in tree order. */
  function Collect(t: Tree): seq<(bytes, Attestation)>
    decreases t
  {
    Named(t.msg, t.attestations) + CollectAll(t.ops)
  }

  function Named(msg: bytes, atts: seq<Attestation>): seq<(bytes, Attestation)> {
    if atts == [] then [] else [(msg, atts[0])] + Named(msg, atts[1..])
  }

  function CollectAll(ops: seq<Edge>): seq<(bytes, Attestation)>
    decreases ops
  {
    if ops == [] then [] else CollectEdge(ops[0]) + CollectAll(ops[1..])
  }

  function CollectEdge(e: Edge): seq<(bytes, Attestation)>
    decreases e
  {
    if Evaluated(e.op) then Collect(e.child) else []
  }

  lemma {:induction false} NamedIn(msg: bytes, atts: seq<Attestation>, x: (bytes, Attestation))
    ensures x in Named(msg, atts) <==> x.0 == msg && x.1 in atts
  {
    if atts != [] {
      NamedIn(msg, atts[1..], x);
      assert atts == [atts[0]] + atts[1..];
    }
  }

  lemma {:induction false} CollectAllIn(ops: seq<Edge>, x: (bytes, Attestation))
    ensures x in CollectAll(ops) <==> exists e :: e in ops && x in CollectEdge(e)
  {
    if ops != [] {
      CollectAllIn(ops[1..], x);
      assert ops == [ops[0]] + ops[1..];
      if x in CollectEdge(ops[0]) {
        assert ops[0] in ops;
      } else if e :| e in ops[1..] && x in CollectEdge(e) {
        assert e in ops;
      }
    }
  }

  /** What a tree attests, branch by branch. */
  lemma CollectIn(t: Tree, x: (bytes, Attestation))
    requires Strictly(t.ops, EdgeBefore)
    ensures x in Collect(t) <==>
      || (x.0 == t.msg && x.1 in t.attestations)
      || (exists op :: Evaluated(op) && Find(t.ops, op).Some? && x in Collect(Find(t.ops, op).value))
  {
    hide Find, EdgeBefore, CollectAll;
    NamedIn(t.msg, t.attestations, x);
    CollectAllIn(t.ops, x);
    forall e | e in t.ops
      ensures Find(t.ops, e.op) == Some(e.child)
    {
      assert e == Edge(e.op, e.child);
      FindIn(t.ops, e.op, e.child);
    }
    forall op | Find(t.ops, op).Some?
      ensures Edge(op, Find(t.ops, op).value) in t.ops
    {
      FindIn(t.ops, op, Find(t.ops, op).value);
    }
    if op :| Evaluated(op) && Find(t.ops, op).Some? && x in Collect(Find(t.ops, op).value) {
      assert x in CollectEdge(Edge(op, Find(t.ops, op).value));
    }
  }

  /** A merge attests exactly what one of the two proofs attests. */
  lemma {:induction false} MergeCollects(h: Hashes, a: Tree, b: Tree, depth: nat, x: (bytes, Attestation))
    requires Sound(h, a, depth) && Sound(h, b, depth) && a.msg == b.msg
    ensures x in Collect(Merge(a, b)) <==> x in Collect(a) || x in Collect(b)
    decreases depth
  {
    hide Find, Merge, Collect, EdgeBefore, GoodEdge;
    var m := Merge(a, b);
    MergeSound(h, a, b, depth);
    MergeAttestations(h, a, b, depth);
    CollectIn(m, x);
    CollectIn(a, x);
    CollectIn(b, x);
    forall op
      ensures Find(m.ops, op).Some? && x in Collect(Find(m.ops, op).value) <==>
        || (Find(a.ops, op).Some? && x in Collect(Find(a.ops, op).value))
        || (Find(b.ops, op).Some? && x in Collect(Find(b.ops, op).value))
    {
      MergeBranch(h, a, b, depth, op);
      if Find(a.ops, op).Some? && Find(b.ops, op).Some? {
        BranchPair(h, a, b, op, depth);
        MergeCollects(h, Find(a.ops, op).value, Find(b.ops, op).value, depth - 1, x);
      }
    }
  }

  lemma BranchPair(h: Hashes, a: Tree, b: Tree, op: Op, depth: nat)
    requires Sound(h, a, depth) && Sound(h, b, depth) && a.msg == b.msg
    requires Find(a.ops, op).Some? && Find(b.ops, op).Some?
    ensures var x, y := Find(a.ops, op).value, Find(b.ops, op).value;
      0 < depth && Sound(h, x, depth - 1) && Sound(h, y, depth - 1) && x.msg == y.msg
  {
    GoodBranch(h, a, op, depth);
    GoodBranch(h, b, op, depth);
  }
}
