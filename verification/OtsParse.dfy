/** Reading and writing proof trees, and the round trip between them. */
module OtsParse {
  import opened Wrappers
  import opened Orders
  import opened OtsCodec
  import opened OtsTree

  const MAX_DEPTH: nat := 256
  const MAX_PROOF_BYTES: nat := 65536

  // ----- Writing -----

  /** `write`: attestations first, then branches, each but the last behind a fork marker. */
  function Write(t: Tree): bytes
    decreases t
  {
    WriteAttestations(t.attestations, t.ops != []) + WriteEdges(t.ops)
  }

  function WriteAttestations(atts: seq<Attestation>, more: bool): bytes {
    if atts == [] then []
    else
      (if |atts| > 1 || more then [TAG_FORK] else []) + ([TAG_ATTESTATION] + WriteAttestation(atts[0]))
      + WriteAttestations(atts[1..], more)
  }

  function WriteEdges(ops: seq<Edge>): bytes
    decreases ops
  {
    if ops == [] then []
    else (if |ops| > 1 then [TAG_FORK] else []) + WriteEdge(ops[0]) + WriteEdges(ops[1..])
  }

  function WriteEdge(e: Edge): bytes
    decreases e
  {
    WriteOp(e.op) + Write(e.child)
  }

  // ----- Reading -----

  /** `Timestamp::read`: a proof of `msg` at the front of `b`, and what follows it. */
  function Parse(h: Hashes, b: bytes, msg: bytes, depth: nat): (r: Option<(Tree, bytes)>)
    ensures r.Some? ==> |r.value.1| < |b|
    decreases |b|, 2
  {
    if depth == 0 then None else ParseItems(h, b, Tree(msg, [], []), depth)
  }

  /** The items of a node, added one by one to what was read before. */
  function ParseItems(h: Hashes, b: bytes, node: Tree, depth: nat): (r: Option<(Tree, bytes)>)
    requires 0 < depth
    ensures r.Some? ==> |r.value.1| < |b|
    decreases |b|, 1
  {
    var fork := b != [] && b[0] == TAG_FORK;
    var item := ParseItem(h, if fork then b[1..] else b, node, depth);
    if item.None? || !fork then item else ParseItems(h, item.value.1, item.value.0, depth)
  }

  function ParseItem(h: Hashes, b: bytes, node: Tree, depth: nat): (r: Option<(Tree, bytes)>)
    requires 0 < depth
    ensures r.Some? ==> |r.value.1| < |b|
    decreases |b|, 0
  {
    if b == [] then None
    else if b[0] == TAG_ATTESTATION then
      var a := ReadAttestation(b[1..]);
      if a.None? then None
      else Some((node.(attestations := AddAttestation(node.attestations, a.value.0)), a.value.1))
    else
      var op := ReadOp(b[0], b[1..]);
      if op.None? then None
      else
        var next := NextMessage(h, op.value.0, node.msg);
        if next.None? then None
        else
          var child := Parse(h, op.value.1, next.value, depth - 1);
          if child.None? then None
          else Some((node.(ops := AddEdge(node.ops, Edge(op.value.0, child.value.0))), child.value.1))
  }

  // ----- Sizes -----

  /** The bytes a tree takes, counting a fork marker for every item. */
  function Size(t: Tree): nat
    decreases t
  {
    SizeAttestations(t.attestations) + SizeEdges(t.ops)
  }

  function SizeAttestations(atts: seq<Attestation>): nat {
    if atts == [] then 0 else 2 + |WriteAttestation(atts[0])| + SizeAttestations(atts[1..])
  }

  function SizeEdges(ops: seq<Edge>): nat
    decreases ops
  {
    if ops == [] then 0 else SizeEdge(ops[0]) + SizeEdges(ops[1..])
  }

  function SizeEdge(e: Edge): nat
    decreases e
  {
    |WriteOp(e.op)| + Size(e.child)
  }

  lemma {:induction false} AttestationBytes(atts: seq<Attestation>, more: bool)
    ensures |WriteAttestations(atts, more)| + (if atts != [] && !more then 1 else 0) == SizeAttestations(atts)
  {
    hide WriteAttestation;
    if atts != [] {
      AttestationBytes(atts[1..], more);
    }
  }

  lemma {:induction false} EdgeBytes(h: Hashes, msg: bytes, ops: seq<Edge>, depth: nat)
    requires GoodEdges(h, msg, ops, depth)
    ensures |WriteEdges(ops)| + (if ops != [] then 1 else 0) == SizeEdges(ops)
    decreases depth, |ops|
  {
    hide WriteOp, EdgeBefore, NextMessage;
    if ops != [] {
      assert GoodEdge(h, msg, ops[0], depth);
      TreeBytes(h, ops[0].child, depth - 1);
      forall i | 0 <= i < |ops[1..]|
        ensures GoodEdge(h, msg, ops[1..][i], depth)
      {
        assert ops[1..][i] == ops[i + 1];
      }
      EdgeBytes(h, msg, ops[1..], depth);
    }
  }

  /** A good tree takes one byte less than its size: its last item has no fork marker. */
  lemma {:induction false} TreeBytes(h: Hashes, t: Tree, depth: nat)
    requires Good(h, t, depth)
    ensures |Write(t)| + 1 == Size(t)
    decreases depth, |t.ops| + 1
  {
    AttestationBytes(t.attestations, t.ops != []);
    EdgeBytes(h, t.msg, t.ops, depth);
  }

  lemma {:induction false} InsertAttestationSize(atts: seq<Attestation>, a: Attestation)
    ensures SizeAttestations(Insert(atts, a, AttestationBefore)) == SizeAttestations(atts) + 2 + |WriteAttestation(a)|
  {
    hide WriteAttestation, AttestationBefore;
    if atts != [] {
      InsertAttestationSize(atts[1..], a);
      var rest := Insert(atts[1..], a, AttestationBefore);
      assert ([atts[0]] + rest)[1..] == rest;
      assert ([a] + atts)[1..] == atts;
    }
  }

  lemma {:induction false} AddAttestationsSize(atts: seq<Attestation>, more: seq<Attestation>)
    ensures SizeAttestations(AddAttestations(atts, more)) <= SizeAttestations(atts) + SizeAttestations(more)
    decreases |more|
  {
    hide WriteAttestation;
    if more != [] {
      InsertAttestationSize(atts, more[0]);
      AddAttestationsSize(AddAttestation(atts, more[0]), more[1..]);
    }
  }

  lemma {:induction false} InsertEdgeSize(ops: seq<Edge>, e: Edge)
    ensures SizeEdges(Insert(ops, e, EdgeBefore)) == SizeEdges(ops) + SizeEdge(e)
  {
    hide SizeEdge, EdgeBefore;
    if ops != [] {
      InsertEdgeSize(ops[1..], e);
      var rest := Insert(ops[1..], e, EdgeBefore);
      assert ([ops[0]] + rest)[1..] == rest;
      assert ([e] + ops)[1..] == ops;
    }
  }

  lemma {:induction false} ReplaceEdgeSize(ops: seq<Edge>, i: nat, e: Edge)
    requires i < |ops|
    ensures SizeEdges(ops[i := e]) == SizeEdges(ops) - SizeEdge(ops[i]) + SizeEdge(e)
    decreases |ops|
  {
    hide SizeEdge;
    if i == 0 {
      assert ops[0 := e][1..] == ops[1..];
    } else {
      assert ops[i := e][1..] == ops[1..][i - 1 := e];
      ReplaceEdgeSize(ops[1..], i - 1, e);
    }
  }

  lemma {:induction false} AddEdgeSize(ops: seq<Edge>, e: Edge)
    ensures SizeEdges(AddEdge(ops, e)) <= SizeEdges(ops) + SizeEdge(e)
    decreases e
  {
    hide EdgeBefore, WriteOp;
    var i := Position(ops, e.op);
    if i < |ops| {
      MergeSize(ops[i].child, e.child);
      ReplaceEdgeSize(ops, i, Edge(e.op, Merge(ops[i].child, e.child)));
    } else {
      InsertEdgeSize(ops, e);
    }
  }

  lemma {:induction false} AddEdgesSize(ops: seq<Edge>, more: seq<Edge>)
    ensures SizeEdges(AddEdges(ops, more)) <= SizeEdges(ops) + SizeEdges(more)
    decreases more
  {
    hide AddEdge, SizeEdge;
    if more != [] {
      AddEdgeSize(ops, more[0]);
      AddEdgesSize(AddEdge(ops, more[0]), more[1..]);
    }
  }

  /** Merging never takes more bytes than the two proofs together. */
  lemma {:induction false} MergeSize(a: Tree, b: Tree)
    ensures Size(Merge(a, b)) <= Size(a) + Size(b)
    decreases b
  {
    AddAttestationsSize(a.attestations, b.attestations);
    AddEdgesSize(a.ops, b.ops);
  }

  // ----- Whatever is read is a good tree that takes no more bytes -----

  lemma AddEdgeGood(h: Hashes, msg: bytes, ops: seq<Edge>, e: Edge, depth: nat)
    requires GoodEdges(h, msg, ops, depth) && GoodEdge(h, msg, e, depth)
    ensures GoodEdges(h, msg, AddEdge(ops, e), depth) && AddEdge(ops, e) != []
  {
    hide Find, EdgeBefore, AddEdge, NextMessage;
    var out := AddEdge(ops, e);
    AddEdgeFind(ops, e, e.op);
    forall op | Find(out, op).Some?
      ensures GoodEdge(h, msg, Edge(op, Find(out, op).value), depth)
    {
      AddEdgeFind(ops, e, op);
      assert e == Edge(e.op, e.child);
      if Find(ops, op).Some? {
        GoodBranch(h, Tree(msg, [], ops), op, depth);
        if op == e.op {
          MergeSound(h, Find(ops, op).value, e.child, depth - 1);
        }
      }
    }
    BranchesGood(h, msg, out, depth);
    FindEmpty(e.op);
  }

  lemma FindEmpty(op: Op)
    ensures Find([], op).None?
  {
  }

  lemma MakeGood(h: Hashes, t: Tree, depth: nat)
    requires 0 < depth && GoodAttestations(t.attestations) && GoodEdges(h, t.msg, t.ops, depth)
    requires t.attestations != [] || t.ops != []
    ensures Good(h, t, depth) && Sound(h, t, depth)
  {
  }

  lemma SoundParts(h: Hashes, t: Tree, depth: nat)
    requires Sound(h, t, depth)
    ensures GoodAttestations(t.attestations) && GoodEdges(h, t.msg, t.ops, depth) && Strictly(t.ops, EdgeBefore)
  {
  }

  lemma GoodEdgeAt(h: Hashes, msg: bytes, ops: seq<Edge>, j: nat, depth: nat)
    requires GoodEdges(h, msg, ops, depth) && j < |ops|
    ensures GoodEdge(h, msg, ops[j], depth)
  {
  }

  ghost predicate Grown(h: Hashes, node: Tree, t: Tree, depth: nat, spent: int) {
    Good(h, t, depth) && t.msg == node.msg && Size(t) <= Size(node) + spent
  }

  lemma {:induction false} AttestationItemSound(h: Hashes, b: bytes, node: Tree, depth: nat)
    requires 0 < depth && Sound(h, node, depth) && b != [] && b[0] == TAG_ATTESTATION && ParseItem(h, b, node, depth).Some?
    ensures var (t, rest) := ParseItem(h, b, node, depth).value; Grown(h, node, t, depth, 1 + |b| - |rest|)
  {
    hide Good, Sound, GoodEdges, GoodAttestations, AttestationBefore, WriteAttestation, GoodAttestation, ReadAttestation;
    hide Parse, ReadOp, NextMessage, AddEdge, SizeEdges, Insert;
    var (a, rest) := ReadAttestation(b[1..]).value;
    AttestationMinimal(b[1..]);
    SoundParts(h, node, depth);
    AddAttestationSound(node.attestations, a);
    InsertAttestationSize(node.attestations, a);
    var atts := AddAttestation(node.attestations, a);
    assert a in atts;
    MakeGood(h, node.(attestations := atts), depth);
  }

  ghost predicate ItemRead(h: Hashes, b: bytes, node: Tree, depth: nat) {
    0 < depth && ParseItem(h, b, node, depth).Some?
  }

  lemma {:induction false} OpItemSound(h: Hashes, b: bytes, node: Tree, depth: nat)
    requires Sound(h, node, depth) && ItemRead(h, b, node, depth) && (b == [] || b[0] != TAG_ATTESTATION)
    ensures var (t, rest) := ParseItem(h, b, node, depth).value; Grown(h, node, t, depth, 1 + |b| - |rest|)
    decreases |b|, 0
  {
    hide Good, Sound, GoodEdges, GoodAttestations, AddEdge, Write, WriteOp, NextMessage, ReadOp, GoodOp;
    var (op, after) := ReadOp(b[0], b[1..]).value;
    OpMinimal(b[0], b[1..]);
    var next := NextMessage(h, op, node.msg).value;
    var (child, rest) := Parse(h, after, next, depth - 1).value;
    ParseSound(h, after, next, depth - 1);
    TreeBytes(h, child, depth - 1);
    SoundParts(h, node, depth);
    DepthLeft(h, child, depth - 1);
    AddEdgeGood(h, node.msg, node.ops, Edge(op, child), depth);
    AddEdgeSize(node.ops, Edge(op, child));
    MakeGood(h, node.(ops := AddEdge(node.ops, Edge(op, child))), depth);
  }

  lemma DepthLeft(h: Hashes, t: Tree, depth: nat)
    requires Good(h, t, depth)
    ensures 0 < depth
  {
  }

  lemma {:induction false} ParseItemsSound(h: Hashes, b: bytes, node: Tree, depth: nat)
    requires 0 < depth && Sound(h, node, depth) && ParseItems(h, b, node, depth).Some?
    ensures var (t, rest) := ParseItems(h, b, node, depth).value; Grown(h, node, t, depth, 1 + |b| - |rest|)
    decreases |b|, 1
  {
    hide Sound, Size, ParseItem;
    var fork := b != [] && b[0] == TAG_FORK;
    var c := if fork then b[1..] else b;
    NonEmptyItem(h, c, node, depth);
    if c[0] == TAG_ATTESTATION {
      AttestationItemSound(h, c, node, depth);
    } else {
      OpItemSound(h, c, node, depth);
    }
    if fork {
      var (t, rest) := ParseItem(h, c, node, depth).value;
      ParseItemsSound(h, rest, t, depth);
    }
  }

  lemma NonEmptyItem(h: Hashes, b: bytes, node: Tree, depth: nat)
    requires 0 < depth && ParseItem(h, b, node, depth).Some?
    ensures b != []
  {
  }

  /** What is read is a good proof of the given message, and writing it takes no more bytes than were read. */
  lemma {:induction false} ParseSound(h: Hashes, b: bytes, msg: bytes, depth: nat)
    requires Parse(h, b, msg, depth).Some?
    ensures var (t, rest) := Parse(h, b, msg, depth).value;
      Good(h, t, depth) && t.msg == msg && |Write(t)| <= |b| - |rest|
    decreases |b|, 2
  {
    hide Good, Write, ParseItems;
    EmptySound(h, msg, depth);
    ParseItemsSound(h, b, Tree(msg, [], []), depth);
    TreeBytes(h, Parse(h, b, msg, depth).value.0, depth);
  }

  lemma EmptySound(h: Hashes, msg: bytes, depth: nat)
    ensures Sound(h, Tree(msg, [], []), depth) && Size(Tree(msg, [], [])) == 0
  {
  }

  // ----- Whatever is written is read back -----

  lemma AppendAttestation(atts: seq<Attestation>, i: nat)
    requires GoodAttestations(atts) && i < |atts|
    ensures AddAttestation(atts[..i], atts[i]) == atts[..i + 1]
  {
    AttestationsByKey();
    forall j | 0 <= j < i
      ensures atts[j] != atts[i] && !AttestationBefore(atts[i], atts[j])
    {
      assert AttestationBefore(atts[j], atts[i]);
    }
    InsertLast(atts[..i], atts[i], AttestationBefore);
  }

  lemma AppendEdge(ops: seq<Edge>, j: nat)
    requires Strictly(ops, EdgeBefore) && j < |ops|
    ensures AddEdge(ops[..j], ops[j]) == ops[..j + 1]
  {
    hide Merge;
    EdgesByKey();
    forall i | 0 <= i < j
      ensures ops[i].op != ops[j].op && !EdgeBefore(ops[j], ops[i])
    {
      EdgesComparable(ops[i], ops[j]);
    }
    InsertLast(ops[..j], ops[j], EdgeBefore);
  }

  /** One written attestation is read as one item. */
  lemma AttestationItem(h: Hashes, a: Attestation, tail: bytes, node: Tree, depth: nat)
    requires 0 < depth && GoodAttestation(a)
    ensures ParseItem(h, [TAG_ATTESTATION] + WriteAttestation(a) + tail, node, depth)
         == Some((node.(attestations := AddAttestation(node.attestations, a)), tail))
  {
    hide WriteAttestation, ReadAttestation, AddAttestation, GoodAttestation;
    var b := [TAG_ATTESTATION] + WriteAttestation(a) + tail;
    assert b[1..] == WriteAttestation(a) + tail;
    AttestationRoundTrip(a, tail);
  }

  lemma {:induction false} EdgeItem(h: Hashes, e: Edge, tail: bytes, node: Tree, depth: nat)
    requires 0 < depth && GoodEdge(h, node.msg, e, depth)
    ensures ParseItem(h, WriteEdge(e) + tail, node, depth) == Some((node.(ops := AddEdge(node.ops, e)), tail))
    decreases depth, 0
  {
    hide Write, WriteOp, ReadOp, AddEdge, NextMessage, OpTag;
    var b := WriteEdge(e) + tail;
    assert b == WriteOp(e.op) + (Write(e.child) + tail);
    OpRoundTrip(e.op, Write(e.child) + tail);
    FirstByte(e.op, Write(e.child) + tail);
    ParseWritten(h, e.child, tail, depth - 1);
  }

  lemma FirstByte(op: Op, tail: bytes)
    ensures (WriteOp(op) + tail)[0] == OpTag(op)
  {
  }

  /** The branches from `j` on are read into a node that already has the earlier ones. */
  lemma {:induction false} EdgesWritten(h: Hashes, t: Tree, j: nat, tail: bytes, depth: nat)
    requires Good(h, t, depth) && j < |t.ops|
    ensures ParseItems(h, WriteEdges(t.ops[j..]) + tail, t.(ops := t.ops[..j]), depth) == Some((t, tail))
    decreases depth, 2, |t.ops| - j
  {
    hide WriteEdge, ParseItem, AddEdge, Sound, GoodAttestations, GoodEdges, GoodEdge, EdgeBefore, Write;
    SoundParts(h, t, depth);
    GoodEdgeAt(h, t.msg, t.ops, j, depth);
    var node := t.(ops := t.ops[..j]);
    var e, rest := t.ops[j], WriteEdges(t.ops[j + 1..]) + tail;
    var b := WriteEdges(t.ops[j..]) + tail;
    assert t.ops[j..][1..] == t.ops[j + 1..] && t.ops[j..][0] == e;
    EdgeItem(h, e, rest, node, depth);
    AppendEdge(t.ops, j);
    NotFork(e, rest);
    if j + 1 < |t.ops| {
      assert b == [TAG_FORK] + (WriteEdge(e) + rest);
      assert b[1..] == WriteEdge(e) + rest;
      EdgesWritten(h, t, j + 1, tail, depth);
    } else {
      assert rest == tail && b == WriteEdge(e) + rest;
      assert t.ops[..j + 1] == t.ops;
    }
  }

  lemma NotFork(e: Edge, tail: bytes)
    ensures (WriteEdge(e) + tail)[0] != TAG_FORK
  {
  }

  lemma ItemBytes(atts: seq<Attestation>, i: nat, more: bool, tail: bytes)
    requires i < |atts|
    ensures var item := [TAG_ATTESTATION] + WriteAttestation(atts[i]) + (WriteAttestations(atts[i + 1..], more) + tail);
      WriteAttestations(atts[i..], more) + tail == if i + 1 < |atts| || more then [TAG_FORK] + item else item
  {
    hide WriteAttestation;
    assert atts[i..][1..] == atts[i + 1..] && atts[i..][0] == atts[i];
  }

  /** Behind a fork marker comes one item and then more; without one, a last item. */
  lemma ForkedItem(h: Hashes, item: bytes, node: Tree, depth: nat)
    requires 0 < depth && item != [] && item[0] != TAG_FORK && ParseItem(h, item, node, depth).Some?
    ensures var (t, rest) := ParseItem(h, item, node, depth).value;
      && ParseItems(h, [TAG_FORK] + item, node, depth) == ParseItems(h, rest, t, depth)
      && ParseItems(h, item, node, depth) == Some((t, rest))
  {
    hide ParseItem;
    assert ([TAG_FORK] + item)[1..] == item;
  }

  /** The attestations from `i` on, and then all branches. */
  lemma {:induction false} ItemsWritten(h: Hashes, t: Tree, i: nat, tail: bytes, depth: nat)
    requires Good(h, t, depth) && i <= |t.attestations| && (i < |t.attestations| || t.ops != [])
    ensures ParseItems(h, WriteAttestations(t.attestations[i..], t.ops != []) + (WriteEdges(t.ops) + tail),
                       Tree(t.msg, t.attestations[..i], []), depth) == Some((t, tail))
    decreases depth, 3, |t.attestations| - i
  {
    hide WriteEdges, WriteAttestations, ParseItem, ParseItems, Sound, GoodEdges, AttestationBefore, WriteAttestation;
    hide GoodAttestation, AddAttestation, Strictly;
    SoundParts(h, t, depth);
    var atts, more, after := t.attestations, t.ops != [], WriteEdges(t.ops) + tail;
    if i == |atts| {
      NothingWritten(atts, i, more, after);
      assert atts[..i] == atts;
      assert t.ops[0..] == t.ops && t.ops[..0] == [];
      EdgesWritten(h, t, 0, tail, depth);
    } else {
      var node := Tree(t.msg, atts[..i], []);
      var rest := WriteAttestations(atts[i + 1..], more) + after;
      assert atts[i] in atts;
      AttestationItem(h, atts[i], rest, node, depth);
      AppendAttestation(atts, i);
      ItemBytes(atts, i, more, after);
      ForkedItem(h, [TAG_ATTESTATION] + WriteAttestation(atts[i]) + rest, node, depth);
      if i + 1 < |atts| || more {
        ItemsWritten(h, t, i + 1, tail, depth);
      } else {
        NothingLeft(t, i, tail);
        assert atts[..i + 1] == atts;
      }
    }
  }

  lemma NothingWritten(atts: seq<Attestation>, i: nat, more: bool, tail: bytes)
    requires i == |atts|
    ensures WriteAttestations(atts[i..], more) + tail == tail
  {
  }

  lemma NothingLeft(t: Tree, i: nat, tail: bytes)
    requires i + 1 == |t.attestations| && t.ops == []
    ensures WriteAttestations(t.attestations[i + 1..], false) + (WriteEdges(t.ops) + tail) == tail
  {
  }

  /** Reading a written proof gives back the tree, whatever follows it. */
  lemma {:induction false} ParseWritten(h: Hashes, t: Tree, tail: bytes, depth: nat)
    requires Good(h, t, depth)
    ensures Parse(h, Write(t) + tail, t.msg, depth) == Some((t, tail))
    decreases depth, 4
  {
    hide ParseItems, WriteAttestations, WriteEdges;
    ItemsWritten(h, t, 0, tail, depth);
    assert t.attestations[0..] == t.attestations && t.attestations[..0] == [];
    assert Write(t) + tail == WriteAttestations(t.attestations, t.ops != []) + (WriteEdges(t.ops) + tail);
  }

  // ----- Files -----

  /** `Timestamp::deserialize`. */
  function Deserialize(h: Hashes, b: bytes, msg: bytes): Option<Tree> {
    if |b| > MAX_PROOF_BYTES then None
    else
      var r := Parse(h, b, msg, MAX_DEPTH);
      if r.None? || r.value.1 != [] then None else Some(r.value.0)
  }

  /** Every proof that can be read is written back no longer than it was, and reads as the same tree. */
  lemma RewriteShrinks(h: Hashes, b: bytes, msg: bytes)
    requires Deserialize(h, b, msg).Some?
    ensures var t := Deserialize(h, b, msg).value;
      |Write(t)| <= |b| && Deserialize(h, Write(t), msg) == Some(t)
  {
    hide Parse, Write;
    ParseSound(h, b, msg, MAX_DEPTH);
    var t := Deserialize(h, b, msg).value;
    ParseWritten(h, t, [], MAX_DEPTH);
    assert Write(t) + [] == Write(t);
  }

  /** Two proofs read from any bytes are the same tree exactly when they are written the same. */
  lemma WritingIsCanonical(h: Hashes, a: bytes, b: bytes, msg: bytes)
    requires Deserialize(h, a, msg).Some? && Deserialize(h, b, msg).Some?
    ensures Deserialize(h, a, msg) == Deserialize(h, b, msg)
       <==> Write(Deserialize(h, a, msg).value) == Write(Deserialize(h, b, msg).value)
  {
    hide Deserialize, Write;
    RewriteShrinks(h, a, msg);
    RewriteShrinks(h, b, msg);
  }
}
