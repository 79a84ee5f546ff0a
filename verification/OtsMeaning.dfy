/** What an operation does to a message, what a proof attests along its paths, and how items are ordered. */
module OtsMeaning {
  import opened Wrappers
  import opened Orders
  import opened Powers
  import opened OtsCodec
  import opened OtsTree
  import opened OtsParse

  // ----- Operations -----

  /** Appending keeps the message in front; what is too long is refused. */
  lemma AppendMeans(h: Hashes, arg: bytes, msg: bytes)
    ensures var r := Apply(h, Append(arg), msg);
      && (r.Some? <==> |msg| + |arg| <= 4096)
      && (r.Some? ==> |r.value| == |msg| + |arg| && r.value[..|msg|] == msg && r.value[|msg|..] == arg)
  {
  }

  /** Prepending puts the argument in front, as if the message were appended to it. */
  lemma PrependMeans(h: Hashes, arg: bytes, msg: bytes)
    ensures Apply(h, Prepend(arg), msg) == Apply(h, Append(msg), arg)
  {
  }

  /** Reversing puts the last byte first, and reversing twice gives the message back. */
  lemma ReverseMeans(h: Hashes, msg: bytes)
    ensures var r := Apply(h, Reverse, msg);
      && (r.Some? <==> |msg| <= 4096)
      && (r.Some? ==> Apply(h, Reverse, r.value) == Some(msg))
      && (r.Some? && msg != [] ==> r.value[0] == msg[|msg| - 1])
  {
    if msg != [] {
      MirroredAt(msg, |msg| - 1);
    }
    assert Mirrored(Mirrored(msg)) == msg;
  }

  /** The value of a lower-case hexadecimal digit. */
  function DigitValue(c: byte): Option<nat> {
    if 48 <= c <= 57 then Some(c - 48) else if 97 <= c <= 102 then Some(c - 87) else None
  }

  lemma DigitRead(d: nat)
    requires d < 16
    ensures DigitValue(HexDigit(d)) == Some(d)
  {
  }

  /** Two lower-case digits stand for each byte, the higher half first. */
  lemma HexlifyMeans(h: Hashes, msg: bytes, i: nat)
    requires i < |msg|
    ensures var r := Apply(h, Hexlify, msg);
      && (r.Some? <==> 2 * |msg| <= 4096)
      && (r.Some? ==>
            && |r.value| == 2 * |msg|
            && DigitValue(r.value[2 * i]).Some? && DigitValue(r.value[2 * i + 1]).Some?
            && 16 * DigitValue(r.value[2 * i]).value + DigitValue(r.value[2 * i + 1]).value == msg[i])
  {
    hide DigitValue, HexDigit;
    HexlifiedAt(msg, i);
    DigitRead(msg[i] / 16);
    DigitRead(msg[i] % 16);
  }

  /** Each hash is its own; the two that are not evaluated give nothing. */
  lemma HashesMean(h: Hashes, msg: bytes)
    ensures |h.sha256(msg)| <= 4096 ==> Apply(h, Sha256, msg) == Some(h.sha256(msg))
    ensures |h.ripemd160(msg)| <= 4096 ==> Apply(h, Ripemd160, msg) == Some(h.ripemd160(msg))
    ensures Apply(h, Sha1, msg) == None && Apply(h, Keccak256, msg) == None
    ensures NextMessage(h, Sha1, msg) == Some([]) && NextMessage(h, Keccak256, msg) == Some([])
  {
  }

  // ----- What a proof attests -----

  /** The message after some operations. */
  function Along(h: Hashes, ops: seq<Op>, msg: bytes): Option<bytes> {
    if ops == [] then Some(msg)
    else
      match Apply(h, ops[0], msg)
      case None => None
      case Some(next) => Along(h, ops[1..], next)
  }

  /** A path of operations leads from the root of `t` to a node of this message with this attestation. */
  ghost predicate Reaches(t: Tree, ops: seq<Op>, x: (bytes, Attestation))
    decreases |ops|
  {
    if ops == [] then x.0 == t.msg && x.1 in t.attestations
    else Evaluated(ops[0]) && exists e :: e in t.ops && e.op == ops[0] && Reaches(e.child, ops[1..], x)
  }

  lemma NodeCollects(t: Tree, x: (bytes, Attestation))
    ensures x in Collect(t) <==> (x.0 == t.msg && x.1 in t.attestations) || exists e :: e in t.ops && x in CollectEdge(e)
  {
    hide CollectAll, CollectEdge, Named;
    NamedIn(t.msg, t.attestations, x);
    CollectAllIn(t.ops, x);
  }

  lemma {:induction false} ReachedIsCollected(t: Tree, ops: seq<Op>, x: (bytes, Attestation))
    requires Reaches(t, ops, x)
    ensures x in Collect(t)
    decreases |ops|
  {
    hide Collect;
    NodeCollects(t, x);
    if ops != [] {
      var e :| e in t.ops && e.op == ops[0] && Reaches(e.child, ops[1..], x);
      ReachedIsCollected(e.child, ops[1..], x);
      assert x in CollectEdge(e);
    }
  }

  lemma {:induction false} CollectedIsReached(t: Tree, x: (bytes, Attestation)) returns (ops: seq<Op>)
    requires x in Collect(t)
    ensures Reaches(t, ops, x)
    decreases t
  {
    hide Collect;
    NodeCollects(t, x);
    if x.0 == t.msg && x.1 in t.attestations {
      ops := [];
    } else {
      var e :| e in t.ops && x in CollectEdge(e);
      assert Evaluated(e.op) && x in Collect(e.child);
      var rest := CollectedIsReached(e.child, x);
      ops := [e.op] + rest;
      assert ops[1..] == rest;
    }
  }

  /** What is collected is what some path of evaluated operations reaches. */
  lemma CollectMeans(t: Tree, x: (bytes, Attestation))
    ensures x in Collect(t) <==> exists ops :: Reaches(t, ops, x)
  {
    if x in Collect(t) {
      var ops := CollectedIsReached(t, x);
    }
    if ops :| Reaches(t, ops, x) {
      ReachedIsCollected(t, ops, x);
    }
  }

  /** In a well-formed proof the message a path reaches is what its operations make of the message proved. */
  lemma {:induction false} PathMessage(h: Hashes, t: Tree, depth: nat, ops: seq<Op>, x: (bytes, Attestation))
    requires Sound(h, t, depth) && Reaches(t, ops, x)
    ensures Along(h, ops, t.msg) == Some(x.0)
    decreases |ops|
  {
    hide Apply, EdgeBefore, GoodAttestations;
    if ops != [] {
      var e :| e in t.ops && e.op == ops[0] && Reaches(e.child, ops[1..], x);
      SoundParts(h, t, depth);
      var i :| 0 <= i < |t.ops| && t.ops[i] == e;
      GoodEdgeAt(h, t.msg, t.ops, i, depth);
      GoodIsSound(h, e.child, depth - 1);
      PathMessage(h, e.child, depth - 1, ops[1..], x);
    }
  }

  /** Whatever a file attests, it attests of what operations of the proof make of the digest. */
  lemma AttestedFrom(h: Hashes, b: bytes, msg: bytes, x: (bytes, Attestation)) returns (ops: seq<Op>)
    requires Deserialize(h, b, msg).Some? && x in Collect(Deserialize(h, b, msg).value)
    ensures Reaches(Deserialize(h, b, msg).value, ops, x) && Along(h, ops, msg) == Some(x.0)
  {
    hide Parse, Collect, Reaches, Along;
    var t := Deserialize(h, b, msg).value;
    ParseSound(h, b, msg, MAX_DEPTH);
    GoodIsSound(h, t, MAX_DEPTH);
    ops := CollectedIsReached(t, x);
    PathMessage(h, t, MAX_DEPTH, ops, x);
  }

  // ----- Order -----

  lemma {:induction false} LexSnoc(a: bytes, x: byte, b: bytes, y: byte)
    requires |a| == |b|
    ensures Lex(a + [x], b + [y], ByteBefore) <==> Lex(a, b, ByteBefore) || (a == b && x < y)
  {
    if a == [] {
      assert a + [x] == [x] && b + [y] == [y];
      assert [x][1..] == [] && [y][1..] == [];
    } else {
      LexSnoc(a[1..], x, b[1..], y);
      assert (a + [x])[1..] == a[1..] + [x] && (b + [y])[1..] == b[1..] + [y];
      assert a == [a[0]] + a[1..] && b == [b[0]] + b[1..];
    }
  }

  lemma {:induction false} BigEndianOrder(u: nat, v: nat, n: nat)
    requires u < Pow256(n) && v < Pow256(n)
    ensures Lex(BigEndian(u, n), BigEndian(v, n), ByteBefore) <==> u < v
  {
    if n > 0 {
      BigEndianOrder(u / 256, v / 256, n - 1);
      LexSnoc(BigEndian(u / 256, n - 1), u % 256, BigEndian(v / 256, n - 1), v % 256);
      if BigEndian(u / 256, n - 1) == BigEndian(v / 256, n - 1) {
        BigEndianInjective(u / 256, v / 256, n - 1, Pow256(n - 1) - 1);
      }
    }
  }

  lemma {:induction false} LexAfter(p: bytes, a: bytes, b: bytes)
    ensures Lex(p + a, p + b, ByteBefore) <==> Lex(a, b, ByteBefore)
  {
    if p == [] {
      assert p + a == a && p + b == b;
    } else {
      LexAfter(p[1..], a, b);
      assert (p + a)[1..] == p[1..] + a && (p + b)[1..] == p[1..] + b;
    }
  }

  /** Within a notary, attestations are ordered by what they say: heights as numbers, addresses and payloads as text. */
  lemma NotaryOrder(u: nat, v: nat, a: bytes, b: bytes, tag: bytes)
    requires u <= U64_MAX && v <= U64_MAX
    ensures AttestationBefore(Bitcoin(u), Bitcoin(v)) <==> u < v
    ensures AttestationBefore(Pending(a), Pending(b)) <==> Lex(a, b, ByteBefore)
    ensures AttestationBefore(Unknown(tag, a), Unknown(tag, b)) <==> Lex(a, b, ByteBefore)
  {
    hide BigEndian, Lex;
    assert Pow256(4) == 0x1_0000_0000 && Pow256(8) == 256 * Pow256(7) && Pow256(7) == 256 * Pow256(6);
    assert Pow256(6) == 256 * Pow256(5) && Pow256(5) == 256 * Pow256(4);
    BigEndianOrder(u, v, 8);
    LexAfter(BITCOIN, BigEndian(u, 8), BigEndian(v, 8));
    LexAfter(PENDING, a, b);
    LexAfter(tag, a, b);
  }

  /** Operations are ordered by their tag, and those with an argument then by it. */
  lemma OpOrder(a: Edge, b: Edge)
    ensures OpTag(a.op) < OpTag(b.op) ==> EdgeBefore(a, b)
    ensures a.op.Append? && b.op.Append? ==> (EdgeBefore(a, b) <==> Lex(a.op.arg, b.op.arg, ByteBefore))
    ensures a.op.Prepend? && b.op.Prepend? ==> (EdgeBefore(a, b) <==> Lex(a.op.arg, b.op.arg, ByteBefore))
  {
    assert OpKey(a.op)[0] == OpTag(a.op) && OpKey(b.op)[0] == OpTag(b.op);
    if (a.op.Append? && b.op.Append?) || (a.op.Prepend? && b.op.Prepend?) {
      assert OpKey(a.op)[1..] == a.op.arg && OpKey(b.op)[1..] == b.op.arg;
    }
  }
}
