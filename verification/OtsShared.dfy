/** What two proof trees have in common, and the exact size of their merge. */
module OtsShared {
  import opened Wrappers
  import opened Orders
  import opened OtsCodec
  import opened OtsTree
  import opened OtsParse

  /** The bytes of the items of the second tree that the first already has. */
  function Shared(a: Tree, b: Tree): nat
    decreases b
  {
    SharedAttestations(a.attestations, b.attestations) + SharedEdges(a.ops, b.ops)
  }

  function SharedAttestations(atts: seq<Attestation>, more: seq<Attestation>): nat {
    if more == [] then 0
    else (if more[0] in atts then 2 + |WriteAttestation(more[0])| else 0) + SharedAttestations(atts, more[1..])
  }

  function SharedEdges(ops: seq<Edge>, more: seq<Edge>): nat
    decreases more
  {
    if more == [] then 0 else SharedEdge(ops, more[0]) + SharedEdges(ops, more[1..])
  }

  function SharedEdge(ops: seq<Edge>, e: Edge): nat
    decreases e
  {
    var found := Find(ops, e.op);
    if found.None? then 0 else |WriteOp(e.op)| + Shared(found.value, e.child)
  }

  lemma {:induction false} SameShared(a: seq<Attestation>, b: seq<Attestation>, more: seq<Attestation>)
    requires forall x :: x in more ==> (x in a <==> x in b)
    ensures SharedAttestations(a, more) == SharedAttestations(b, more)
  {
    hide WriteAttestation;
    if more != [] {
      SameShared(a, b, more[1..]);
      assert more[0] in more;
    }
  }

  lemma {:induction false} AttestationsSizeExact(atts: seq<Attestation>, more: seq<Attestation>)
    requires GoodAttestations(atts) && GoodAttestations(more)
    ensures SizeAttestations(AddAttestations(atts, more)) + SharedAttestations(atts, more)
         == SizeAttestations(atts) + SizeAttestations(more)
    decreases |more|
  {
    hide WriteAttestation, AttestationBefore, GoodAttestation;
    if more != [] {
      var added := AddAttestation(atts, more[0]);
      AddAttestationSound(atts, more[0]);
      InsertAttestationSize(atts, more[0]);
      RestGood(more);
      AttestationsSizeExact(added, more[1..]);
      SameShared(atts, added, more[1..]);
    }
  }

  /** The attestations behind the first are good, and differ from it. */
  lemma RestGood(atts: seq<Attestation>)
    requires GoodAttestations(atts) && atts != []
    ensures GoodAttestations(atts[1..]) && atts[0] !in atts[1..]
  {
    AttestationsByKey();
    hide AttestationBefore, GoodAttestation;
    forall x | x in atts[1..]
      ensures x in atts && x != atts[0]
    {
      var i :| 1 <= i < |atts| && atts[i] == x;
      assert AttestationBefore(atts[0], atts[i]);
    }
  }

  lemma {:induction false} SameSharedEdges(a: seq<Edge>, b: seq<Edge>, more: seq<Edge>)
    requires forall e :: e in more ==> Find(a, e.op) == Find(b, e.op)
    ensures SharedEdges(a, more) == SharedEdges(b, more)
    decreases |more|
  {
    hide WriteOp, Find, Shared;
    if more != [] {
      SameSharedEdges(a, b, more[1..]);
      assert more[0] in more;
    }
  }

  lemma {:induction false} EdgeSizeExact(ops: seq<Edge>, e: Edge)
    requires CanonicalEdges(ops) && CanonicalEdge(e)
    ensures SizeEdges(AddEdge(ops, e)) + SharedEdge(ops, e) == SizeEdges(ops) + SizeEdge(e)
    decreases e
  {
    hide EdgeBefore, WriteOp, GoodAttestations, Shared, Merge;
    var i := Position(ops, e.op);
    if i < |ops| {
      assert CanonicalEdge(ops[i]);
      MergeSizeExact(ops[i].child, e.child);
      ReplaceEdgeSize(ops, i, Edge(e.op, Merge(ops[i].child, e.child)));
    } else {
      InsertEdgeSize(ops, e);
    }
  }

  lemma {:induction false} EdgesSizeExact(ops: seq<Edge>, more: seq<Edge>)
    requires CanonicalEdges(ops) && CanonicalEdges(more)
    ensures SizeEdges(AddEdges(ops, more)) + SharedEdges(ops, more) == SizeEdges(ops) + SizeEdges(more)
    decreases more
  {
    hide EdgeBefore, AddEdge, SizeEdge, SharedEdge, CanonicalEdge;
    if more != [] {
      var added := AddEdge(ops, more[0]);
      EdgeSizeExact(ops, more[0]);
      AddEdgeCanonical(ops, more[0]);
      RestCanonical(more);
      EdgesSizeExact(added, more[1..]);
      forall e | e in more[1..]
        ensures Find(ops, e.op) == Find(added, e.op)
      {
        FindNone(more[1..], more[0].op);
        RestLacks(more);
        AddEdgeFind(ops, more[0], e.op);
      }
      SameSharedEdges(ops, added, more[1..]);
    }
  }

  lemma RestCanonical(ops: seq<Edge>)
    requires CanonicalEdges(ops) && ops != []
    ensures CanonicalEdges(ops[1..])
  {
    hide EdgeBefore, CanonicalEdge;
    forall i | 0 <= i < |ops[1..]|
      ensures CanonicalEdge(ops[1..][i])
    {
      assert ops[1..][i] == ops[i + 1];
    }
  }

  /** A merge takes the bytes of both trees, less those of what they share. */
  lemma {:induction false} MergeSizeExact(a: Tree, b: Tree)
    requires Canonical(a) && Canonical(b)
    ensures Size(Merge(a, b)) + Shared(a, b) == Size(a) + Size(b)
    decreases b
  {
    AttestationsSizeExact(a.attestations, b.attestations);
    EdgesSizeExact(a.ops, b.ops);
  }
}
