/** The reader, the in-place tree building and the writer, each against the function it computes. */
module OtsReader {
  import opened Wrappers
  import opened Division
  import opened Orders
  import opened OtsCodec
  import opened OtsTree
  import opened OtsParse

  /** Having read `value` from the groups before, what is left to read completes it to `whole`. */
  ghost predicate Continues(whole: Option<(nat, bytes)>, value: nat, scale: nat, left: Option<(nat, bytes)>) {
    if left.None? then whole.None? else whole == Some((value + WideProduct(scale, left.value.0), left.value.1))
  }

  lemma FirstGroup(whole: Option<(nat, bytes)>)
    ensures Continues(whole, 0, 1, whole)
  {
  }

  lemma NextGroup(b: bytes, k: nat, whole: Option<(nat, bytes)>, value: nat, scale: nat)
    requires k < 10 && b != [] && b[0] >= 128 && !(k == 9 && b[0] % 128 > 1)
    requires Continues(whole, value, scale, ReadVarUint(b, k))
    ensures Continues(whole, value + WideProduct(b[0] % 128, scale), scale * 128, ReadVarUint(b[1..], k + 1))
  {
    hide WideProduct;
    var next := ReadVarUint(b[1..], k + 1);
    if next.Some? {
      Distribute(scale, b[0] % 128, next.value.0);
    }
  }

  lemma Distribute(scale: nat, part: nat, rest: nat)
    ensures WideProduct(scale, part + 128 * rest) == WideProduct(part, scale) + WideProduct(scale * 128, rest)
  {
    assert scale * (part + 128 * rest) == scale * part + scale * (128 * rest);
    assert scale * (128 * rest) == scale * 128 * rest;
  }

  lemma LastGroup(b: bytes, k: nat, whole: Option<(nat, bytes)>, value: nat, scale: nat)
    requires k < 10 && b != [] && b[0] < 128 && !(k == 9 && b[0] % 128 > 1)
    requires Continues(whole, value, scale, ReadVarUint(b, k))
    ensures whole == Some((value + WideProduct(b[0], scale), b[1..]))
  {
  }

  lemma NoGroup(b: bytes, k: nat, whole: Option<(nat, bytes)>, value: nat, scale: nat)
    requires k <= 10 && (b == [] || k == 10 || (k == 9 && b[0] % 128 > 1))
    requires Continues(whole, value, scale, ReadVarUint(b, k))
    ensures whole.None?
  {
  }

  /** A cursor over the bytes of a proof. */
  class Reader {
    const input: bytes
    var at: nat

    ghost predicate Valid()
      reads this
    {
      at <= |input|
    }

    /** What is still to be read. */
    ghost function Rest(): bytes
      requires Valid()
      reads this
    {
      input[at..]
    }

    constructor (input: bytes)
      ensures Valid() && Rest() == input && this.input == input
    {
      this.input, this.at := input, 0;
    }

    method Byte() returns (r: Option<byte>)
      requires Valid()
      modifies this
      ensures Valid()
      ensures old(Rest()) == [] ==> r == None
      ensures old(Rest()) != [] ==> r == Some(old(Rest())[0]) && Rest() == old(Rest())[1..]
    {
      if at == |input| {
        return None;
      }
      r := Some(input[at]);
      at := at + 1;
    }

    method Take(n: nat) returns (r: Option<bytes>)
      requires Valid()
      modifies this
      ensures Valid()
      ensures n > |old(Rest())| ==> r == None
      ensures n <= |old(Rest())| ==> r == Some(old(Rest())[..n]) && Rest() == old(Rest())[n..]
    {
      if at + n > |input| {
        return None;
      }
      r := Some(input[at..at + n]);
      assert input[at..][..n] == input[at..at + n];
      at := at + n;
    }

    /** `varuint`: groups of seven bits, low ones first, at most ten of them. */
    method VarUint() returns (r: Option<nat>)
      requires Valid()
      modifies this
      ensures Valid()
      ensures var v := ReadVarUint(old(Rest()), 0);
        if v.None? then r.None? else r == Some(v.value.0) && Rest() == v.value.1
    {
      hide ReadVarUint, Continues, WideProduct;
      ghost var whole := ReadVarUint(Rest(), 0);
      FirstGroup(whole);
      var value: nat, scale: nat := 0, 1;
      for k := 0 to 10
        invariant Valid() && Continues(whole, value, scale, ReadVarUint(Rest(), k))
      {
        ghost var rest := Rest();
        var b := Byte();
        if b.None? || (k == 9 && b.value % 128 > 1) {
          NoGroup(rest, k, whole, value, scale);
          return None;
        }
        if b.value < 128 {
          LastGroup(rest, k, whole, value, scale);
          return Some(value + WideProduct(b.value, scale));
        }
        NextGroup(rest, k, whole, value, scale);
        value := value + WideProduct(b.value % 128, scale);
        scale := scale * 128;
      }
      NoGroup(Rest(), 10, whole, value, scale);
      return None;
    }

    method VarBytes(max: nat) returns (r: Option<bytes>)
      requires Valid()
      modifies this
      ensures Valid()
      ensures var v := ReadVarBytes(old(Rest()), max);
        if v.None? then r.None? else r == Some(v.value.0) && Rest() == v.value.1
    {
      var len := VarUint();
      if len.None? || len.value > max {
        return None;
      }
      r := Take(len.value);
    }

    /** `read_attestation`: the payload is read by a reader of its own, and must be used up. */
    method ReadOneAttestation() returns (r: Option<Attestation>)
      requires Valid()
      modifies this
      ensures Valid()
      ensures var v := ReadAttestation(old(Rest()));
        if v.None? then r.None? else r == Some(v.value.0) && Rest() == v.value.1
    {
      hide ReadVarUint, ReadVarBytes, ValidUri;
      var tag := Take(8);
      if tag.None? {
        return None;
      }
      var payload := VarBytes(MAX_PAYLOAD);
      if payload.None? {
        return None;
      }
      r := DecodePart(tag.value, payload.value);
    }
  }

  method DecodePart(tag: bytes, payload: bytes) returns (r: Option<Attestation>)
    ensures r == Decode(tag, payload)
  {
    hide ReadVarUint, ReadVarBytes, ValidUri;
    var inner := new Reader(payload);
    if tag == PENDING {
      var uri := inner.VarBytes(MAX_URI);
      if uri.None? || !ValidUri(uri.value) {
        return None;
      }
      r := Some(Pending(uri.value));
    } else if tag == BITCOIN {
      var height := inner.VarUint();
      if height.None? {
        return None;
      }
      r := Some(Bitcoin(height.value));
    } else {
      return Some(Unknown(tag, payload));
    }
    if inner.at != |inner.input| {
      return None;
    }
  }

  /** `write_varuint`. */
  method PutVarUint(out: bytes, v: nat) returns (out': bytes)
    ensures out' == out + WriteVarUint(v)
  {
    out' := out;
    var left := v;
    while left >= 128
      invariant out' + WriteVarUint(left) == out + WriteVarUint(v)
    {
      assert out' + WriteVarUint(left) == out' + [left % 128 + 128] + WriteVarUint(left / 128);
      out' := out' + [left % 128 + 128];
      left := left / 128;
    }
    out' := out' + [left];
  }

  // ----- Building a node -----

  /** `node` is `spec` except that its attestations may be in another order. */
  ghost predicate Reordered(node: Tree, spec: Tree) {
    node.msg == spec.msg && node.ops == spec.ops && multiset(node.attestations) == multiset(spec.attestations)
  }

  /** Sorting a rearrangement of a strictly sorted sequence restores it. */
  lemma SortRestores<T(!new)>(sorted: seq<T>, out: seq<T>, less: (T, T) -> bool)
    requires ByKey(less) && Strictly(sorted, less) && Ordered(out, less) && multiset(out) == multiset(sorted)
    ensures out == sorted
  {
    SortedStrictly(sorted, out, less);
    forall x
      ensures x in out <==> x in sorted
    {
      assert x in multiset(out) <==> x in multiset(sorted);
    }
    StrictUnique(out, sorted, less);
  }

  /** `canonicalize`. */
  method Canonicalize(node: Tree, ghost spec: Tree) returns (out: Tree)
    requires Strictly(spec.attestations, AttestationBefore) && Strictly(spec.ops, EdgeBefore)
    requires node.msg == spec.msg && multiset(node.ops) == multiset(spec.ops)
    requires multiset(node.attestations) == multiset(spec.attestations)
    ensures out == spec
  {
    hide AttestationBefore, EdgeBefore;
    AttestationsByKey();
    EdgesByKey();
    var atts := SortBy(node.attestations, AttestationBefore);
    SortRestores(spec.attestations, atts, AttestationBefore);
    var ops := SortBy(node.ops, EdgeBefore);
    SortRestores(spec.ops, ops, EdgeBefore);
    out := Tree(node.msg, atts, ops);
  }

  /** Adding an attestation unless it is there; the order is settled later. */
  method PushAttestation(node: Tree, a: Attestation, ghost spec: Tree) returns (out: Tree)
    requires Reordered(node, spec)
    ensures Reordered(out, spec.(attestations := AddAttestation(spec.attestations, a)))
  {
    assert a in node.attestations <==> a in spec.attestations by {
      assert a in multiset(node.attestations) <==> a in multiset(spec.attestations);
    }
    out := if a in node.attestations then node else node.(attestations := node.attestations + [a]);
  }

  /** `add_op`: merge into the existing branch or push a new one, then sort. */
  method AddOp(node: Tree, e: Edge, ghost spec: Tree) returns (out: Tree)
    requires Reordered(node, spec) && Canonical(spec) && CanonicalEdge(e)
    ensures out == spec.(ops := AddEdge(spec.ops, e))
    decreases e
  {
    hide GoodAttestations, CanonicalEdges, Merge, EdgeBefore, AttestationBefore;
    StrictParts(spec);
    AddEdgeFind(spec.ops, e, e.op);
    var at := Position(node.ops, e.op);
    var ops;
    if at < |node.ops| {
      EdgeAt(spec.ops, at);
      var merged := MergeInto(node.ops[at].child, e.child);
      ops := node.ops[at := Edge(e.op, merged)];
    } else {
      ops := node.ops + [e];
    }
    out := Canonicalize(node.(ops := ops), spec.(ops := AddEdge(spec.ops, e)));
  }

  lemma StrictParts(t: Tree)
    requires Canonical(t)
    ensures Strictly(t.attestations, AttestationBefore) && Strictly(t.ops, EdgeBefore)
  {
  }

  lemma EdgeAt(ops: seq<Edge>, i: nat)
    requires CanonicalEdges(ops) && i < |ops|
    ensures CanonicalEdge(ops[i])
  {
  }

  lemma {:induction false} AddAttestationsSnoc(atts: seq<Attestation>, more: seq<Attestation>, a: Attestation)
    ensures AddAttestations(atts, more + [a]) == AddAttestation(AddAttestations(atts, more), a)
    decreases |more|
  {
    hide AddAttestation;
    if more != [] {
      assert (more + [a])[1..] == more[1..] + [a];
      AddAttestationsSnoc(AddAttestation(atts, more[0]), more[1..], a);
    } else {
      assert more + [a] == [a];
      assert AddAttestations(AddAttestation(atts, a), []) == AddAttestation(atts, a);
    }
  }

  lemma {:induction false} AddEdgesSnoc(ops: seq<Edge>, more: seq<Edge>, e: Edge)
    ensures AddEdges(ops, more + [e]) == AddEdge(AddEdges(ops, more), e)
    decreases |more|
  {
    hide AddEdge;
    if more != [] {
      assert (more + [e])[1..] == more[1..] + [e];
      AddEdgesSnoc(AddEdge(ops, more[0]), more[1..], e);
    } else {
      assert more + [e] == [e];
      assert AddEdges(AddEdge(ops, e), []) == AddEdge(ops, e);
    }
  }

  /** `merge`: fold the attestations and then the branches of another tree into this one. */
  method MergeInto(a: Tree, b: Tree) returns (out: Tree)
    requires Canonical(a) && Canonical(b)
    ensures out == Merge(a, b)
    decreases b
  {
    hide CanonicalEdges, CanonicalEdge, GoodAttestations, AddEdge, EdgeBefore, AttestationBefore, GoodAttestation;
    out := a;
    ghost var spec := a;
    for i := 0 to |b.attestations|
      invariant spec == a.(attestations := AddAttestations(a.attestations, b.attestations[..i]))
      invariant Reordered(out, spec)
    {
      out := PushAttestation(out, b.attestations[i], spec);
      AddAttestationsSnoc(a.attestations, b.attestations[..i], b.attestations[i]);
      assert b.attestations[..i + 1] == b.attestations[..i] + [b.attestations[i]];
      spec := spec.(attestations := AddAttestation(spec.attestations, b.attestations[i]));
    }
    assert b.attestations[..|b.attestations|] == b.attestations;
    GoodMembers(b.attestations);
    AddAttestationsSound(a.attestations, b.attestations);
    for j := 0 to |b.ops|
      invariant spec == Tree(a.msg, AddAttestations(a.attestations, b.attestations), AddEdges(a.ops, b.ops[..j]))
      invariant Canonical(spec) && Reordered(out, spec)
    {
      EdgeAt(b.ops, j);
      out := AddOp(out, b.ops[j], spec);
      AddEdgesSnoc(a.ops, b.ops[..j], b.ops[j]);
      assert b.ops[..j + 1] == b.ops[..j] + [b.ops[j]];
      AddEdgeCanonical(spec.ops, b.ops[j]);
      spec := out;
    }
    assert b.ops[..|b.ops|] == b.ops;
    StrictParts(spec);
    out := Canonicalize(out, spec);
  }

  lemma StrictAttestations(atts: seq<Attestation>)
    requires GoodAttestations(atts)
    ensures Strictly(atts, AttestationBefore)
  {
  }

  // ----- Reading a node -----

  method ReadOperation(r: Reader, tag: byte) returns (op: Option<Op>)
    requires r.Valid()
    modifies r
    ensures r.Valid()
    ensures var v := ReadOp(tag, old(r.Rest()));
      if v.None? then op.None? else op == Some(v.value.0) && r.Rest() == v.value.1
  {
    hide ReadVarBytes;
    if tag == 0xf0 || tag == 0xf1 {
      var arg := r.VarBytes(MAX_MSG);
      if arg.None? || arg.value == [] {
        return None;
      }
      return Some(if tag == 0xf0 then Append(arg.value) else Prepend(arg.value));
    }
    var v := ReadOp(tag, []);
    op := if v.None? then None else Some(v.value.0);
  }

  lemma ItemParts(h: Hashes, tag: byte, rest: bytes, node: Tree, depth: nat)
    requires 0 < depth
    ensures var item := ParseItem(h, [tag] + rest, node, depth);
      if tag == TAG_ATTESTATION then
        var a := ReadAttestation(rest);
        item == if a.None? then None
                else Some((node.(attestations := AddAttestation(node.attestations, a.value.0)), a.value.1))
      else
        var op := ReadOp(tag, rest);
        if op.None? then item.None?
        else
          var next := NextMessage(h, op.value.0, node.msg);
          if next.None? then item.None?
          else
            var child := Parse(h, op.value.1, next.value, depth - 1);
            item == if child.None? then None
                    else Some((node.(ops := AddEdge(node.ops, Edge(op.value.0, child.value.0))), child.value.1))
  {
    assert ([tag] + rest)[1..] == rest;
    hide AddEdge, AddAttestation, ReadAttestation, ReadOp, NextMessage, Parse;
  }

  /** One item of a node, after its tag. */
  method ReadItem(h: Hashes, r: Reader, tag: byte, node: Tree, depth: nat, ghost spec: Tree) returns (out: Option<Tree>)
    requires r.Valid() && 0 < depth && Sound(h, spec, depth) && Reordered(node, spec)
    modifies r
    ensures r.Valid()
    ensures var p := ParseItem(h, [tag] + old(r.Rest()), spec, depth);
      if p.None? then out.None? else out.Some? && Reordered(out.value, p.value.0) && r.Rest() == p.value.1
    decreases depth, 0
  {
    hide Sound, Good, ParseItem, Parse, AddEdge, AddAttestation, ReadAttestation, ReadOp, NextMessage;
    ItemParts(h, tag, r.Rest(), spec, depth);
    if tag == TAG_ATTESTATION {
      var a := r.ReadOneAttestation();
      if a.None? {
        return None;
      }
      var pushed := PushAttestation(node, a.value, spec);
      return Some(pushed);
    }
    ghost var rest := r.Rest();
    var op := ReadOperation(r, tag);
    if op.None? {
      return None;
    }
    var next := NextMessage(h, op.value, node.msg);
    if next.None? {
      return None;
    }
    ghost var after := r.Rest();
    var child := ReadNode(h, r, next.value, depth - 1);
    if child.None? {
      return None;
    }
    OpMinimal(tag, rest);
    ParseSound(h, after, next.value, depth - 1);
    EdgeIsGood(h, spec.msg, Edge(op.value, child.value), depth);
    assert Canonical(spec) && CanonicalEdge(Edge(op.value, child.value)) by {
      SoundIsCanonical(h, spec, depth);
      GoodIsSound(h, child.value, depth - 1);
      SoundIsCanonical(h, child.value, depth - 1);
    }
    var added := AddOp(node, Edge(op.value, child.value), spec);
    return Some(added);
  }

  lemma EdgeIsGood(h: Hashes, msg: bytes, e: Edge, depth: nat)
    requires 0 < depth && GoodOp(e.op) && NextMessage(h, e.op, msg) == Some(e.child.msg) && Good(h, e.child, depth - 1)
    ensures GoodEdge(h, msg, e, depth)
  {
  }

  lemma ItemGood(h: Hashes, b: bytes, node: Tree, depth: nat)
    requires 0 < depth && Sound(h, node, depth) && ParseItem(h, b, node, depth).Some?
    ensures Good(h, ParseItem(h, b, node, depth).value.0, depth) && Sound(h, ParseItem(h, b, node, depth).value.0, depth)
    ensures ParseItem(h, b, node, depth).value.0.msg == node.msg
  {
    hide Sound, Good, ParseItem;
    NonEmptyItem(h, b, node, depth);
    if b[0] == TAG_ATTESTATION {
      AttestationItemSound(h, b, node, depth);
    } else {
      OpItemSound(h, b, node, depth);
    }
    GoodIsSound(h, ParseItem(h, b, node, depth).value.0, depth);
  }

  lemma ItemsStep(h: Hashes, b: bytes, node: Tree, depth: nat)
    requires 0 < depth
    ensures b == [] ==> ParseItems(h, b, node, depth).None?
    ensures b != [] && b[0] != TAG_FORK ==> ParseItems(h, b, node, depth) == ParseItem(h, b, node, depth)
    ensures b != [] && b[0] == TAG_FORK ==>
      var item := ParseItem(h, b[1..], node, depth);
      ParseItems(h, b, node, depth) == if item.None? then None else ParseItems(h, item.value.1, item.value.0, depth)
    ensures ParseItem(h, [], node, depth).None?
  {
  }

  /** `Timestamp::read`: items until one without a fork marker, then one last sort. */
  method ReadNode(h: Hashes, r: Reader, msg: bytes, depth: nat) returns (res: Option<Tree>)
    requires r.Valid()
    modifies r
    ensures r.Valid()
    ensures var p := Parse(h, old(r.Rest()), msg, depth);
      if p.None? then res.None? else res == Some(p.value.0) && r.Rest() == p.value.1
    decreases depth, 1
  {
    hide Sound, Good, ParseItem, ParseItems;
    if depth == 0 {
      return None;
    }
    ghost var whole := Parse(h, r.Rest(), msg, depth);
    var node := Tree(msg, [], []);
    ghost var spec := node;
    EmptySound(h, msg, depth);
    while true
      invariant r.Valid() && Sound(h, spec, depth) && Reordered(node, spec)
      invariant ParseItems(h, r.Rest(), spec, depth) == whole
      decreases |r.input| - r.at
    {
      ItemsStep(h, r.Rest(), spec, depth);
      ghost var rest := r.Rest();
      var tag := r.Byte();
      if tag.None? {
        return None;
      }
      var fork := tag.value == TAG_FORK;
      if fork {
        assert rest[1..] == r.Rest();
        tag := r.Byte();
        if tag.None? {
          return None;
        }
      }
      ghost var item := [tag.value] + r.Rest();
      assert item == if fork then rest[1..] else rest;
      var out := ReadItem(h, r, tag.value, node, depth, spec);
      if out.None? {
        return None;
      }
      node := out.value;
      ItemGood(h, item, spec, depth);
      spec := ParseItem(h, item, spec, depth).value.0;
      if !fork {
        SoundParts(h, spec, depth);
        StrictAttestations(spec.attestations);
        node := Canonicalize(node, spec);
        return Some(node);
      }
    }
  }

  /** `Timestamp::deserialize`. */
  method DeserializeBytes(h: Hashes, b: bytes, msg: bytes) returns (r: Option<Tree>)
    ensures r == Deserialize(h, b, msg)
  {
    hide Parse;
    if |b| > MAX_PROOF_BYTES {
      return None;
    }
    var reader := new Reader(b);
    var t := ReadNode(h, reader, msg, MAX_DEPTH);
    if t.None? || reader.at != |b| {
      return None;
    }
    return t;
  }

  // ----- Writing a node -----

  method PutAttestation(out: bytes, a: Attestation) returns (out': bytes)
    ensures out' == out + WriteAttestation(a)
  {
    hide WriteVarUint;
    out' := PutVarUint(out + TagOf(a), |PayloadOf(a)|);
    out' := out' + PayloadOf(a);
  }

  method PutOp(out: bytes, op: Op) returns (out': bytes)
    ensures out' == out + WriteOp(op)
  {
    hide WriteVarUint;
    out' := out + [OpTag(op)];
    if op.Append? || op.Prepend? {
      out' := PutVarUint(out', |op.arg|);
      out' := out' + op.arg;
    }
  }

  /** The attestations of a node with `total` items, a fork marker in front of each that is not the last. */
  method PutAttestations(out: bytes, atts: seq<Attestation>, total: nat) returns (out': bytes)
    requires |atts| <= total
    ensures out' == out + WriteAttestations(atts, |atts| < total)
  {
    hide WriteAttestation, WriteAttestations;
    out' := out;
    assert atts[0..] == atts;
    for i := 0 to |atts|
      invariant out' + WriteAttestations(atts[i..], |atts| < total) == out + WriteAttestations(atts, |atts| < total)
    {
      AttestationStep(out', atts, i, |atts| < total);
      if i + 1 < total {
        out' := out' + [TAG_FORK];
      }
      out' := PutAttestation(out' + [TAG_ATTESTATION], atts[i]);
    }
    NothingWritten(atts, |atts|, |atts| < total, []);
    assert out' + WriteAttestations(atts[|atts|..], |atts| < total) == out';
  }

  method PutEdges(out: bytes, ops: seq<Edge>) returns (out': bytes)
    requires CanonicalEdges(ops)
    ensures out' == out + WriteEdges(ops)
    decreases ops
  {
    hide CanonicalEdges, WriteOp, WriteEdges, Write;
    out' := out;
    assert ops[0..] == ops;
    for j := 0 to |ops|
      invariant out' + WriteEdges(ops[j..]) == out + WriteEdges(ops)
    {
      EdgeStep(out', ops, j);
      if j + 1 < |ops| {
        out' := out' + [TAG_FORK];
      }
      EdgeAt(ops, j);
      out' := PutEdge(out', ops[j]);
    }
    NoEdges(ops[|ops|..]);
    assert out' + WriteEdges(ops[|ops|..]) == out';
  }

  method PutEdge(out: bytes, e: Edge) returns (out': bytes)
    requires CanonicalEdge(e)
    ensures out' == out + WriteOp(e.op) + Write(e.child)
    decreases e
  {
    hide WriteOp, Write;
    out' := PutOp(out, e.op);
    out' := PutTree(out', e.child);
  }

  lemma NoEdges(ops: seq<Edge>)
    ensures ops == [] ==> WriteEdges(ops) == []
  {
  }

  /** `Timestamp::write`: attestations and then branches, in canonical order. */
  method PutTree(out: bytes, t: Tree) returns (out': bytes)
    requires Canonical(t)
    ensures out' == out + Write(t)
    decreases t
  {
    hide CanonicalEdges, GoodAttestations, AttestationBefore, EdgeBefore, WriteAttestations, WriteEdges;
    StrictParts(t);
    AttestationsByKey();
    EdgesByKey();
    var atts := SortBy(t.attestations, AttestationBefore);
    SortRestores(t.attestations, atts, AttestationBefore);
    var ops := SortBy(t.ops, EdgeBefore);
    SortRestores(t.ops, ops, EdgeBefore);
    out' := PutAttestations(out, atts, |atts| + |ops|);
    out' := PutEdges(out', ops);
  }

  lemma AttestationStep(out: bytes, atts: seq<Attestation>, i: nat, more: bool)
    requires i < |atts|
    ensures out + WriteAttestations(atts[i..], more)
         == out + (if i + 1 < |atts| || more then [TAG_FORK] else []) + [TAG_ATTESTATION] + WriteAttestation(atts[i])
            + WriteAttestations(atts[i + 1..], more)
  {
    hide WriteAttestation;
    assert atts[i..][1..] == atts[i + 1..] && atts[i..][0] == atts[i];
  }

  lemma EdgeStep(out: bytes, ops: seq<Edge>, j: nat)
    requires j < |ops|
    ensures out + WriteEdges(ops[j..])
         == out + (if j + 1 < |ops| then [TAG_FORK] else []) + WriteOp(ops[j].op) + Write(ops[j].child) + WriteEdges(ops[j + 1..])
  {
    hide WriteOp, Write;
    assert ops[j..][1..] == ops[j + 1..] && ops[j..][0] == ops[j];
    assert WriteEdge(ops[j]) == WriteOp(ops[j].op) + Write(ops[j].child);
  }
}
