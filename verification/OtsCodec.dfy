/** The parts of an OpenTimestamps proof: variable-length integers, byte strings, attestations, operations. */
module OtsCodec {
  import opened Wrappers
  import opened Orders
  import opened Powers

  type bytes = seq<byte>

  const TAG_ATTESTATION: byte := 0x00
  const TAG_FORK: byte := 0xff
  const PENDING: bytes := [0x83, 0xdf, 0xe3, 0x0d, 0x2e, 0xf9, 0x0c, 0x8e]
  const BITCOIN: bytes := [0x05, 0x88, 0x96, 0x0d, 0x73, 0xd7, 0x19, 0x01]
  const MAX_MSG: nat := 4096
  const MAX_PAYLOAD: nat := 8192
  const MAX_URI: nat := 1000

  // ----- Variable-length integers -----

  /** One more than the largest value that fits from group `k` of seven bits on. */
  function Limit(k: nat): nat
    requires k <= 9
    decreases 9 - k
  {
    if k == 9 then 2 else 128 * Limit(k + 1)
  }

  /** What `Reader::varuint` reads from group `k` on: a value and what follows it. */
  function ReadVarUint(b: bytes, k: nat): (r: Option<(nat, bytes)>)
    requires k <= 10
    ensures r.Some? ==> |r.value.1| < |b| && b[|b| - |r.value.1|..] == r.value.1
    decreases 10 - k
  {
    if b == [] || k == 10 || (k == 9 && b[0] % 128 > 1) then None
    else if b[0] < 128 then Some((b[0], b[1..]))
    else
      var r := ReadVarUint(b[1..], k + 1);
      if r.None? then None else Some((b[0] % 128 + 128 * r.value.0, r.value.1))
  }

  function WriteVarUint(v: nat): (b: bytes)
    ensures b != []
  {
    if v < 128 then [v] else [v % 128 + 128] + WriteVarUint(v / 128)
  }

  lemma {:induction false} VarUintRoundTrip(v: nat, k: nat, tail: bytes)
    requires k <= 9 && v < Limit(k)
    ensures ReadVarUint(WriteVarUint(v) + tail, k) == Some((v, tail))
    decreases 9 - k
  {
    var b := WriteVarUint(v) + tail;
    if v < 128 {
      assert b[1..] == tail;
    } else {
      VarUintRoundTrip(v / 128, k + 1, tail);
      assert b[1..] == WriteVarUint(v / 128) + tail;
    }
  }

  /** Whatever form a value was read from, its own form is in range and no longer. */
  lemma {:induction false} VarUintMinimal(b: bytes, k: nat)
    requires k <= 9 && ReadVarUint(b, k).Some?
    ensures var (v, rest) := ReadVarUint(b, k).value; v < Limit(k) && |WriteVarUint(v)| <= |b| - |rest|
    decreases 9 - k
  {
    if b[0] >= 128 && k < 9 {
      VarUintMinimal(b[1..], k + 1);
      var (v, rest) := ReadVarUint(b[1..], k + 1).value;
      assert (b[0] % 128 + 128 * v) / 128 == v;
    } else {
      LimitAtLeast(k);
    }
  }

  lemma {:induction false} LimitAtLeast(k: nat)
    requires k <= 9
    ensures k < 9 ==> Limit(k) >= 128
    decreases 9 - k
  {
    if k < 8 {
      LimitAtLeast(k + 1);
    }
  }

  lemma LimitIsU64()
    ensures Limit(0) == U64_MAX + 1
  {
    assert Limit(8) == 128 * 2;
    assert Limit(7) == 128 * Limit(8);
    assert Limit(6) == 128 * Limit(7);
    assert Limit(5) == 128 * Limit(6);
    assert Limit(4) == 128 * Limit(5);
    assert Limit(3) == 128 * Limit(4);
    assert Limit(2) == 128 * Limit(3);
    assert Limit(1) == 128 * Limit(2);
  }

  lemma {:induction false} ShorterIsSmaller(u: nat, v: nat)
    requires u <= v
    ensures |WriteVarUint(u)| <= |WriteVarUint(v)|
  {
    if u >= 128 {
      ShorterIsSmaller(u / 128, v / 128);
    }
  }

  // ----- Byte strings -----

  function ReadVarBytes(b: bytes, max: nat): (r: Option<(bytes, bytes)>)
    ensures r.Some? ==> |r.value.1| < |b| && b[|b| - |r.value.1|..] == r.value.1
  {
    var len := ReadVarUint(b, 0);
    if len.None? || len.value.0 > max || len.value.0 > |len.value.1| then None
    else Some((len.value.1[..len.value.0], len.value.1[len.value.0..]))
  }

  function WriteVarBytes(b: bytes): bytes {
    WriteVarUint(|b|) + b
  }

  lemma VarBytesRoundTrip(b: bytes, max: nat, tail: bytes)
    requires |b| <= max <= U64_MAX
    ensures ReadVarBytes(WriteVarBytes(b) + tail, max) == Some((b, tail))
  {
    LimitIsU64();
    VarUintRoundTrip(|b|, 0, b + tail);
    assert WriteVarBytes(b) + tail == WriteVarUint(|b|) + (b + tail);
    assert (b + tail)[..|b|] == b && (b + tail)[|b|..] == tail;
  }

  lemma VarBytesMinimal(b: bytes, max: nat)
    requires ReadVarBytes(b, max).Some?
    ensures var (x, rest) := ReadVarBytes(b, max).value; |x| <= max && |WriteVarBytes(x)| <= |b| - |rest|
  {
    VarUintMinimal(b, 0);
  }

  // ----- Attestations -----

  datatype Attestation =
    | Pending(uri: bytes)
    | Bitcoin(height: nat)
    | Unknown(tag: bytes, payload: bytes)

  predicate UriByte(c: byte) {
    '0' as int <= c <= '9' as int || 'a' as int <= c <= 'z' as int || 'A' as int <= c <= 'Z' as int
    || c == '-' as int || c == '.' as int || c == '_' as int || c == '/' as int || c == ':' as int
  }

  predicate ValidUri(uri: bytes) {
    |uri| <= MAX_URI && forall i :: 0 <= i < |uri| ==> UriByte(uri[i])
  }

  /** What a parsed attestation always satisfies. */
  predicate GoodAttestation(a: Attestation) {
    match a
    case Pending(uri) => ValidUri(uri)
    case Bitcoin(height) => height <= U64_MAX
    case Unknown(tag, payload) => |tag| == 8 && tag != PENDING && tag != BITCOIN && |payload| <= MAX_PAYLOAD
  }

  function TagOf(a: Attestation): bytes {
    match a
    case Pending(_) => PENDING
    case Bitcoin(_) => BITCOIN
    case Unknown(tag, _) => tag
  }

  function PayloadOf(a: Attestation): bytes {
    match a
    case Pending(uri) => WriteVarBytes(uri)
    case Bitcoin(height) => WriteVarUint(height)
    case Unknown(_, payload) => payload
  }

  function WriteAttestation(a: Attestation): bytes {
    TagOf(a) + WriteVarBytes(PayloadOf(a))
  }

  /** The attestation under a tag, if the whole payload spells one. */
  function Decode(tag: bytes, payload: bytes): Option<Attestation> {
    if tag == PENDING then
      var uri := ReadVarBytes(payload, MAX_URI);
      if uri.None? || !ValidUri(uri.value.0) || uri.value.1 != [] then None else Some(Pending(uri.value.0))
    else if tag == BITCOIN then
      var height := ReadVarUint(payload, 0);
      if height.None? || height.value.1 != [] then None else Some(Bitcoin(height.value.0))
    else Some(Unknown(tag, payload))
  }

  function ReadAttestation(b: bytes): (r: Option<(Attestation, bytes)>)
    ensures r.Some? ==> |r.value.1| < |b| && b[|b| - |r.value.1|..] == r.value.1
  {
    if |b| < 8 then None
    else
      var payload := ReadVarBytes(b[8..], MAX_PAYLOAD);
      if payload.None? then None
      else
        var a := Decode(b[..8], payload.value.0);
        if a.None? then None else Some((a.value, payload.value.1))
  }

  lemma PayloadFits(a: Attestation)
    requires GoodAttestation(a)
    ensures |PayloadOf(a)| <= MAX_PAYLOAD
  {
    LimitIsU64();
    if a.Bitcoin? {
      WriteLength(a.height, 0);
    } else if a.Pending? {
      LimitAtLeast(8);
      WriteLength(|a.uri|, 0);
    }
  }

  lemma {:induction false} WriteLength(v: nat, k: nat)
    requires k <= 9 && v < Limit(k)
    ensures |WriteVarUint(v)| <= 10 - k
    decreases 9 - k
  {
    if v >= 128 {
      WriteLength(v / 128, k + 1);
    }
  }

  lemma DecodePayload(a: Attestation)
    requires GoodAttestation(a)
    ensures Decode(TagOf(a), PayloadOf(a)) == Some(a)
  {
    assert PENDING[0] != BITCOIN[0];
    assert PayloadOf(a) + [] == PayloadOf(a);
    if a.Pending? {
      VarBytesRoundTrip(a.uri, MAX_URI, []);
    } else if a.Bitcoin? {
      LimitIsU64();
      VarUintRoundTrip(a.height, 0, []);
    }
  }

  lemma TagLength(a: Attestation)
    requires GoodAttestation(a)
    ensures |TagOf(a)| == 8
  {
  }

  lemma SplitTag(tag: bytes, body: bytes, tail: bytes)
    requires |tag| == 8
    ensures (tag + body + tail)[..8] == tag && (tag + body + tail)[8..] == body + tail
  {
  }

  lemma AttestationRoundTrip(a: Attestation, tail: bytes)
    requires GoodAttestation(a)
    ensures ReadAttestation(WriteAttestation(a) + tail) == Some((a, tail))
  {
    hide Decode, PayloadOf, TagOf, ReadVarBytes, WriteVarBytes, GoodAttestation;
    PayloadFits(a);
    TagLength(a);
    SplitTag(TagOf(a), WriteVarBytes(PayloadOf(a)), tail);
    VarBytesRoundTrip(PayloadOf(a), MAX_PAYLOAD, tail);
    DecodePayload(a);
  }

  /** A decoded attestation has a payload of its own no longer than the one it was read from. */
  lemma DecodeMinimal(tag: bytes, payload: bytes)
    requires |tag| == 8 && |payload| <= MAX_PAYLOAD && Decode(tag, payload).Some?
    ensures var a := Decode(tag, payload).value;
      GoodAttestation(a) && TagOf(a) == tag && |PayloadOf(a)| <= |payload|
  {
    LimitIsU64();
    if tag == PENDING {
      VarBytesMinimal(payload, MAX_URI);
    } else if tag == BITCOIN {
      VarUintMinimal(payload, 0);
    }
  }

  lemma AttestationMinimal(b: bytes)
    requires ReadAttestation(b).Some?
    ensures var (a, rest) := ReadAttestation(b).value; GoodAttestation(a) && |WriteAttestation(a)| <= |b| - |rest|
  {
    hide Decode;
    var (payload, rest) := ReadVarBytes(b[8..], MAX_PAYLOAD).value;
    VarBytesMinimal(b[8..], MAX_PAYLOAD);
    DecodeMinimal(b[..8], payload);
    ShorterIsSmaller(|PayloadOf(Decode(b[..8], payload).value)|, |payload|);
  }

  // ----- Operations -----

  datatype Op = Sha1 | Ripemd160 | Sha256 | Keccak256 | Append(arg: bytes) | Prepend(arg: bytes) | Reverse | Hexlify

  /** The hash functions a proof evaluates. */
  datatype Hashes = Hashes(sha256: bytes -> bytes, ripemd160: bytes -> bytes)

  function OpTag(op: Op): byte {
    match op
    case Sha1 => 0x02
    case Ripemd160 => 0x03
    case Sha256 => 0x08
    case Keccak256 => 0x67
    case Append(_) => 0xf0
    case Prepend(_) => 0xf1
    case Reverse => 0xf2
    case Hexlify => 0xf3
  }

  function Mirrored(b: bytes): bytes {
    seq(|b|, i requires 0 <= i < |b| => b[|b| - 1 - i])
  }

  lemma MirroredAt(b: bytes, i: nat)
    requires i < |b|
    ensures |Mirrored(b)| == |b| && Mirrored(b)[|b| - 1 - i] == b[i] && Mirrored(Mirrored(b)) == b
  {
  }

  function HexDigit(d: nat): byte
    requires d < 16
  {
    if d < 10 then '0' as int + d else 'a' as int + d - 10
  }

  function Hexlified(b: bytes): bytes {
    if b == [] then [] else [HexDigit(b[0] / 16), HexDigit(b[0] % 16)] + Hexlified(b[1..])
  }

  lemma {:induction false} HexlifiedAt(b: bytes, i: nat)
    requires i < |b|
    ensures |Hexlified(b)| == 2 * |b|
    ensures Hexlified(b)[2 * i] == HexDigit(b[i] / 16) && Hexlified(b)[2 * i + 1] == HexDigit(b[i] % 16)
  {
    if i > 0 {
      HexlifiedAt(b[1..], i - 1);
    } else if |b| > 1 {
      HexlifiedAt(b[1..], 0);
    }
  }

  predicate Evaluated(op: Op) {
    !op.Sha1? && !op.Keccak256?
  }

  /** `Op::apply`. */
  function Apply(h: Hashes, op: Op, msg: bytes): Option<bytes> {
    if !Evaluated(op) then None
    else
      var out := match op
        case Sha256 => h.sha256(msg)
        case Ripemd160 => h.ripemd160(msg)
        case Append(arg) => msg + arg
        case Prepend(arg) => arg + msg
        case Reverse => Mirrored(msg)
        case _ => Hexlified(msg);
      if |out| <= MAX_MSG then Some(out) else None
  }

  /** The message after an operation; empty past one that is not evaluated. */
  function NextMessage(h: Hashes, op: Op, msg: bytes): Option<bytes> {
    if Evaluated(op) then Apply(h, op, msg) else Some([])
  }

  predicate GoodOp(op: Op) {
    op.Append? || op.Prepend? ==> 0 < |op.arg| <= MAX_MSG
  }

  function WriteOp(op: Op): (b: bytes)
    ensures b != []
  {
    [OpTag(op)] + if op.Append? || op.Prepend? then WriteVarBytes(op.arg) else []
  }

  function ReadOp(tag: byte, b: bytes): (r: Option<(Op, bytes)>)
    ensures r.Some? ==> |r.value.1| <= |b| && b[|b| - |r.value.1|..] == r.value.1
  {
    if tag == 0xf0 || tag == 0xf1 then
      var arg := ReadVarBytes(b, MAX_MSG);
      if arg.None? || arg.value.0 == [] then None
      else Some((if tag == 0xf0 then Append(arg.value.0) else Prepend(arg.value.0), arg.value.1))
    else if tag == 0x02 then Some((Sha1, b))
    else if tag == 0x03 then Some((Ripemd160, b))
    else if tag == 0x08 then Some((Sha256, b))
    else if tag == 0x67 then Some((Keccak256, b))
    else if tag == 0xf2 then Some((Reverse, b))
    else if tag == 0xf3 then Some((Hexlify, b))
    else None
  }

  lemma OpRoundTrip(op: Op, tail: bytes)
    requires GoodOp(op)
    ensures ReadOp(OpTag(op), (WriteOp(op) + tail)[1..]) == Some((op, tail))
    ensures OpTag(op) != TAG_FORK && OpTag(op) != TAG_ATTESTATION
  {
    hide ReadVarBytes, WriteVarBytes;
    if op.Append? || op.Prepend? {
      VarBytesRoundTrip(op.arg, MAX_MSG, tail);
      assert (WriteOp(op) + tail)[1..] == WriteVarBytes(op.arg) + tail;
    } else {
      assert (WriteOp(op) + tail)[1..] == tail;
    }
  }

  lemma OpMinimal(tag: byte, b: bytes)
    requires ReadOp(tag, b).Some?
    ensures var (op, rest) := ReadOp(tag, b).value; GoodOp(op) && OpTag(op) == tag && |WriteOp(op)| <= 1 + |b| - |rest|
  {
    if tag == 0xf0 || tag == 0xf1 {
      VarBytesMinimal(b, MAX_MSG);
    }
  }

  // ----- Sort keys -----

  predicate ByteBefore(a: byte, b: byte) {
    a < b
  }

  /** Big-endian bytes of a 64-bit number. */
  function BigEndian(v: nat, n: nat): (b: bytes)
    ensures |b| == n
  {
    if n == 0 then [] else BigEndian(v / 256, n - 1) + [v % 256]
  }

  lemma {:induction false} BigEndianInjective(u: nat, v: nat, n: nat, bound: nat)
    requires BigEndian(u, n) == BigEndian(v, n) && u <= bound && v <= bound
    requires Pow256(n) > bound
    ensures u == v
    decreases n
  {
    if n > 0 {
      var a, b := BigEndian(u, n), BigEndian(v, n);
      assert a[..n - 1] == BigEndian(u / 256, n - 1) && b[..n - 1] == BigEndian(v / 256, n - 1);
      assert a[n - 1] == u % 256 && b[n - 1] == v % 256;
      BigEndianInjective(u / 256, v / 256, n - 1, bound / 256);
    }
  }

  /** `Attestation::sort_key`, as one byte string: all tags have the same length. */
  function AttestationKey(a: Attestation): bytes {
    TagOf(a) + match a
               case Pending(uri) => uri
               case Bitcoin(height) => BigEndian(height, 8)
               case Unknown(_, payload) => payload
  }

  /** `Op::sort_key`, as one byte string. */
  function OpKey(op: Op): bytes {
    [OpTag(op)] + if op.Append? || op.Prepend? then op.arg else []
  }

  predicate AttestationBefore(a: Attestation, b: Attestation) {
    Lex(AttestationKey(a), AttestationKey(b), ByteBefore)
  }

  lemma OpKeyInjective(a: Op, b: Op)
    requires OpKey(a) == OpKey(b)
    ensures a == b
  {
    assert OpKey(a)[0] == OpTag(a) && OpKey(b)[0] == OpTag(b);
    assert a.Append? || a.Prepend? ==> OpKey(a)[1..] == a.arg;
    assert b.Append? || b.Prepend? ==> OpKey(b)[1..] == b.arg;
  }

  lemma AttestationKeyInjective(a: Attestation, b: Attestation)
    requires GoodAttestation(a) && GoodAttestation(b) && AttestationKey(a) == AttestationKey(b)
    ensures a == b
  {
    var x, y := AttestationKey(a), AttestationKey(b);
    assert PENDING[0] != BITCOIN[0];
    assert TagOf(a) == x[..8] == y[..8] == TagOf(b);
    if a.Bitcoin? {
      assert x[8..] == BigEndian(a.height, 8);
      assert y[8..] == BigEndian(b.height, 8);
      assert Pow256(8) > U64_MAX by {
        assert Pow256(4) == 0x1_0000_0000;
        assert Pow256(6) == 256 * Pow256(5) && Pow256(5) == 256 * Pow256(4);
      }
      BigEndianInjective(a.height, b.height, 8, U64_MAX);
    } else if a.Pending? {
      assert x[8..] == a.uri && y[8..] == b.uri;
    } else {
      assert x[8..] == a.payload && y[8..] == b.payload;
    }
  }

  lemma AttestationsByKey()
    ensures ByKey(AttestationBefore)
  {
    forall a, b | AttestationBefore(a, b)
      ensures !AttestationBefore(b, a)
    {
      LexTotal(AttestationKey(a), AttestationKey(b), ByteBefore);
    }
    forall a, b, c | !AttestationBefore(b, a) && !AttestationBefore(c, b)
      ensures !AttestationBefore(c, a)
    {
      LexNotTrans(AttestationKey(a), AttestationKey(b), AttestationKey(c), ByteBefore);
    }
  }
}
