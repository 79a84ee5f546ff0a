/** Detached proof files: what can be read back, what a calendar's response does to it, and where that fails. */
module OtsFiles {
  import opened Wrappers
  import opened Orders
  import opened OtsCodec
  import opened OtsTree
  import opened OtsParse
  import opened OtsShared
  import opened OtsUpgrade

  // ----- What can be read back -----

  /** A deeper limit reads what a shallower one reads. */
  lemma {:induction false} ParseDeeper(h: Hashes, b: bytes, msg: bytes, depth: nat, limit: nat)
    requires depth <= limit && Parse(h, b, msg, depth).Some?
    ensures Parse(h, b, msg, limit) == Parse(h, b, msg, depth)
    decreases |b|, 2
  {
    hide ParseItems;
    ParseItemsDeeper(h, b, Tree(msg, [], []), depth, limit);
  }

  lemma {:induction false} ParseItemsDeeper(h: Hashes, b: bytes, node: Tree, depth: nat, limit: nat)
    requires 0 < depth <= limit && ParseItems(h, b, node, depth).Some?
    ensures ParseItems(h, b, node, limit) == ParseItems(h, b, node, depth)
    decreases |b|, 1
  {
    hide ParseItem;
    var fork := b != [] && b[0] == TAG_FORK;
    var c := if fork then b[1..] else b;
    ParseItemDeeper(h, c, node, depth, limit);
    if fork {
      var (t, rest) := ParseItem(h, c, node, depth).value;
      ParseItemsDeeper(h, rest, t, depth, limit);
    }
  }

  lemma {:induction false} ParseItemDeeper(h: Hashes, b: bytes, node: Tree, depth: nat, limit: nat)
    requires 0 < depth <= limit && ParseItem(h, b, node, depth).Some?
    ensures ParseItem(h, b, node, limit) == ParseItem(h, b, node, depth)
    decreases |b|, 0
  {
    hide Parse, ReadAttestation, ReadOp, NextMessage, AddEdge, AddAttestation;
    NonEmptyItem(h, b, node, depth);
    if b[0] != TAG_ATTESTATION {
      var (op, after) := ReadOp(b[0], b[1..]).value;
      ParseDeeper(h, after, NextMessage(h, op, node.msg).value, depth - 1, limit - 1);
    }
  }

  /** A good tree of any depth is read from its bytes exactly when it is no deeper than the limit; otherwise nothing is. */
  lemma ParsedWithin(h: Hashes, t: Tree, depth: nat)
    requires Good(h, t, depth)
    ensures Parse(h, Write(t), t.msg, MAX_DEPTH) == if Depth(t) <= MAX_DEPTH then Some((t, [])) else None
  {
    hide Parse, Write, Good, Depth;
    assert Write(t) + [] == Write(t);
    GoodDepth(h, t, depth, MAX_DEPTH);
    ParseWritten(h, t, [], depth);
    if Depth(t) <= MAX_DEPTH {
      ParseWritten(h, t, [], MAX_DEPTH);
    } else if Parse(h, Write(t), t.msg, MAX_DEPTH).Some? {
      ParseDeeper(h, Write(t), t.msg, MAX_DEPTH, depth);
      ParseSound(h, Write(t), t.msg, MAX_DEPTH);
    }
  }

  /** So a proof reads back when it is within both limits, and is refused when it is not. */
  lemma ReadableExactly(h: Hashes, t: Tree, depth: nat)
    requires Good(h, t, depth)
    ensures Deserialize(h, Write(t), t.msg)
         == if Depth(t) <= MAX_DEPTH && |Write(t)| <= MAX_PROOF_BYTES then Some(t) else None
  {
    hide Parse, Write, Good, Depth;
    ParsedWithin(h, t, depth);
  }

  // ----- Detached files -----

  const MAGIC: bytes :=
    [0x00, 0x4f, 0x70, 0x65, 0x6e, 0x54, 0x69, 0x6d, 0x65, 0x73, 0x74, 0x61, 0x6d, 0x70, 0x73, 0x00, 0x00, 0x50, 0x72,
     0x6f, 0x6f, 0x66, 0x00, 0xbf, 0x89, 0xe2, 0xe8, 0x84, 0xe8, 0x92, 0x94]
  const MAJOR_VERSION: byte := 1
  const TAG_SHA256: byte := 0x08
  const HEADER_BYTES: nat := 65

  /** The digest of a detached file and what follows it, behind the magic bytes, the version and the digest kind. */
  function ReadHeader(b: bytes): Option<(bytes, bytes)> {
    if |b| < |MAGIC| || b[..|MAGIC|] != MAGIC then None
    else
      var version := ReadVarUint(b[|MAGIC|..], 0);
      if version.None? || version.value.0 != MAJOR_VERSION as nat then None
      else
        var rest := version.value.1;
        if |rest| < 33 || rest[0] != TAG_SHA256 then None else Some((rest[1..33], rest[33..]))
  }

  /** `DetachedTimestamp::parse`. */
  function ReadFile(h: Hashes, b: bytes): Option<Tree> {
    if |b| > MAX_PROOF_BYTES then None
    else
      var header := ReadHeader(b);
      if header.None? then None
      else
        var r := Parse(h, header.value.1, header.value.0, MAX_DEPTH);
        if r.None? || r.value.1 != [] then None else Some(r.value.0)
  }

  /** `DetachedTimestamp::serialize`. */
  function WriteFile(t: Tree): bytes {
    MAGIC + [MAJOR_VERSION, TAG_SHA256] + t.msg + Write(t)
  }

  lemma HeaderRead(digest: bytes, body: bytes)
    requires |digest| == 32
    ensures ReadHeader(MAGIC + [MAJOR_VERSION, TAG_SHA256] + digest + body) == Some((digest, body))
  {
    var b := MAGIC + [MAJOR_VERSION, TAG_SHA256] + digest + body;
    var rest := [TAG_SHA256] + digest + body;
    assert b[..|MAGIC|] == MAGIC && b[|MAGIC|..] == [MAJOR_VERSION] + rest;
    assert ([MAJOR_VERSION] + rest)[1..] == rest;
    assert ReadVarUint([MAJOR_VERSION] + rest, 0) == Some((1, rest));
    assert rest[1..33] == digest && rest[33..] == body;
  }

  lemma HeaderTakes(b: bytes)
    requires ReadHeader(b).Some?
    ensures |ReadHeader(b).value.0| == 32 && |ReadHeader(b).value.1| + HEADER_BYTES <= |b|
  {
  }

  /** And so does its file. */
  lemma FileReadableExactly(h: Hashes, t: Tree, depth: nat)
    requires Good(h, t, depth) && |t.msg| == 32
    ensures ReadFile(h, WriteFile(t))
         == if Depth(t) <= MAX_DEPTH && HEADER_BYTES + |Write(t)| <= MAX_PROOF_BYTES then Some(t) else None
  {
    hide Parse, Write, Good, Depth, ReadHeader;
    HeaderRead(t.msg, Write(t));
    assert |WriteFile(t)| == HEADER_BYTES + |Write(t)|;
    ParsedWithin(h, t, depth);
  }

  /** Every file that can be read is written back no longer than it was, and reads as the same proof. */
  lemma FileRewrites(h: Hashes, b: bytes)
    requires ReadFile(h, b).Some?
    ensures var t := ReadFile(h, b).value;
      && Good(h, t, MAX_DEPTH) && |t.msg| == 32
      && |WriteFile(t)| <= |b| && ReadFile(h, WriteFile(t)) == Some(t)
  {
    hide Parse, Write, Good, Depth, ReadHeader;
    var (digest, body) := ReadHeader(b).value;
    HeaderTakes(b);
    ParseSound(h, body, digest, MAX_DEPTH);
    var t := ReadFile(h, b).value;
    assert |WriteFile(t)| == HEADER_BYTES + |Write(t)|;
    GoodDepth(h, t, MAX_DEPTH, MAX_DEPTH);
    FileReadableExactly(h, t, MAX_DEPTH);
  }

  // ----- Upgraded files -----

  /** The response fits: within the depth limit from the level of its node, and within what is left of the file. */
  predicate Fits(t: Tree, commitment: bytes, u: Tree)
    requires Level(t, commitment).Some? && NodeAt(t, commitment).Some?
  {
    && Depth(t) <= MAX_DEPTH && Level(t, commitment).value + Depth(u) <= MAX_DEPTH
    && HEADER_BYTES + Size(t) + Size(u) - Shared(NodeAt(t, commitment).value, u) - 1 <= MAX_PROOF_BYTES
  }

  /**
   * Folding a calendar's response into a proof that waits for it gives a proof that is read back from
   * its file if the response fits, and a file that is refused if it does not.
   */
  lemma UpgradedFileReadable(h: Hashes, t: Tree, depth: nat, commitment: bytes, u: Tree, more: nat)
    requires Awaits(h, t, depth, commitment) && |t.msg| == 32 && Good(h, u, more) && u.msg == commitment
    ensures Level(t, commitment).Some? && NodeAt(t, commitment).Some? && Upgrade(t, commitment, u).Some?
    ensures var out := Upgrade(t, commitment, u).value;
      ReadFile(h, WriteFile(out)) == if Fits(t, commitment, u) then Some(out) else None
  {
    hide Parse, Write, Good, Depth, Level, NodeAt, Upgrade, ReadFile, WriteFile, Size, Shared, Awaits;
    UpgradeGood(h, t, depth, commitment, u, more);
    UpgradeDepth(t, commitment, u);
    AwaitsCanonical(h, t, depth, commitment);
    GoodIsSound(h, u, more);
    SoundIsCanonical(h, u, more);
    UpgradeSize(t, commitment, u);
    var out := Upgrade(t, commitment, u).value;
    FileReadableExactly(h, out, depth + more);
    TreeBytes(h, out, depth + more);
  }

  /** A proof read from a file takes a response at any commitment it holds. */
  lemma FileUpgrade(h: Hashes, file: bytes, commitment: bytes, body: bytes)
    requires ReadFile(h, file).Some? && Deserialize(h, body, commitment).Some?
    requires Level(ReadFile(h, file).value, commitment).Some?
    ensures var t, u := ReadFile(h, file).value, Deserialize(h, body, commitment).value;
      && NodeAt(t, commitment).Some? && Upgrade(t, commitment, u).Some?
      && var out := Upgrade(t, commitment, u).value;
         ReadFile(h, WriteFile(out)) == if Fits(t, commitment, u) then Some(out) else None
  {
    hide Parse, Write, Good, Depth, Level, NodeAt, Upgrade, ReadFile, WriteFile, Awaits, Fits;
    FileRewrites(h, file);
    ParseSound(h, body, commitment, MAX_DEPTH);
    GoodAwaits(h, ReadFile(h, file).value, MAX_DEPTH, commitment);
    UpgradedFileReadable(h, ReadFile(h, file).value, MAX_DEPTH, commitment, Deserialize(h, body, commitment).value, MAX_DEPTH);
  }

  // ----- A first submission -----

  /** `new` and `prepare_submission`: the digest with a nonce appended, hashed, and nothing attested yet. */
  function Submission(h: Hashes, digest: bytes, nonce: bytes): Tree {
    var salted := digest + nonce;
    Tree(digest, [], [Edge(Append(nonce), Tree(salted, [], [Edge(Sha256, Tree(h.sha256(salted), [], []))]))])
  }

  lemma SubmissionAwaits(h: Hashes, digest: bytes, nonce: bytes)
    requires |digest| == 32 && |nonce| == 16 && |h.sha256(digest + nonce)| == 32 && h.sha256(digest + nonce) != digest
    ensures var t, commitment := Submission(h, digest, nonce), h.sha256(digest + nonce);
      && Awaits(h, t, 3, commitment) && Level(t, commitment) == Some(2) && Depth(t) == 3 && Size(t) == 19
      && NodeAt(t, commitment) == Some(Tree(commitment, [], []))
  {
    hide EdgeBefore;
    var salted := digest + nonce;
    var commitment := h.sha256(salted);
    var leaf := Tree(commitment, [], []);
    var inner := Edge(Sha256, leaf);
    var mid := Tree(salted, [], [inner]);
    var outer := Edge(Append(nonce), mid);
    assert |salted| == 48;
    assert Awaits(h, leaf, 1, commitment) && Level(leaf, commitment) == Some(0) && NodeAt(leaf, commitment) == Some(leaf);
    assert AwaitsEdge(h, salted, inner, 2, commitment);
    OnlyBranch(h, salted, inner, 2, commitment);
    assert Awaits(h, mid, 2, commitment) && Level(mid, commitment) == Some(1) && NodeAt(mid, commitment) == Some(leaf);
    assert AwaitsEdge(h, digest, outer, 3, commitment);
    OnlyBranch(h, digest, outer, 3, commitment);
    assert |WriteOp(Append(nonce))| == 18 && |WriteOp(Sha256)| == 1;
    assert Size(leaf) == 0 && SizeEdge(inner) == 1 && Size(mid) == 1 && SizeEdge(outer) == 19;
    assert Depth(leaf) == 1 && DepthEdge(inner) == 1 && Depth(mid) == 2 && DepthEdge(outer) == 2;
  }

  /** A node whose only branch leads to the commitment. */
  lemma OnlyBranch(h: Hashes, msg: bytes, e: Edge, depth: nat, commitment: bytes)
    requires AwaitsEdge(h, msg, e, depth, commitment)
    ensures AwaitsBelow(h, msg, [e], depth, commitment)
    ensures LevelEdges([e], commitment) == LevelEdge(e, commitment) || LevelEdge(e, commitment).None?
    ensures NodeAtEdges([e], commitment) == NodeAtEdge(e, commitment) || NodeAtEdge(e, commitment).None?
    ensures DepthEdges([e]) == DepthEdge(e) && SizeEdges([e]) == SizeEdge(e)
  {
    hide AwaitsEdge, LevelEdge, NodeAtEdge, DepthEdge, SizeEdge, EdgeBefore;
    assert AwaitsAt(h, msg, [e], depth, commitment, 0);
    assert DepthEdges([e]) == Max(DepthEdge(e), DepthEdges([])) && SizeEdges([e]) == SizeEdge(e) + SizeEdges([]);
  }

  /** The first response is read back with the proof exactly when it has at most 254 levels and leaves room for the rest. */
  lemma SubmissionReadable(h: Hashes, digest: bytes, nonce: bytes, u: Tree, more: nat)
    requires |digest| == 32 && |nonce| == 16 && |h.sha256(digest + nonce)| == 32 && h.sha256(digest + nonce) != digest
    requires Good(h, u, more) && u.msg == h.sha256(digest + nonce)
    ensures var out := Upgrade(Submission(h, digest, nonce), h.sha256(digest + nonce), u);
      && out.Some?
      && ReadFile(h, WriteFile(out.value))
         == if Depth(u) <= 254 && HEADER_BYTES + 19 + |Write(u)| <= MAX_PROOF_BYTES then Some(out.value) else None
  {
    hide Submission, Parse, Write, Good, Depth, Level, NodeAt, Upgrade, ReadFile, WriteFile, Size, Awaits;
    var t, commitment := Submission(h, digest, nonce), h.sha256(digest + nonce);
    SubmissionAwaits(h, digest, nonce);
    assert t.msg == digest by {
      SubmissionOf(h, digest, nonce);
    }
    UpgradedFileReadable(h, t, 3, commitment, u, more);
    NothingShared(commitment, u);
    TreeBytes(h, u, more);
  }

  lemma SubmissionOf(h: Hashes, digest: bytes, nonce: bytes)
    ensures Submission(h, digest, nonce).msg == digest
  {
  }

  lemma NothingShared(msg: bytes, u: Tree)
    ensures Shared(Tree(msg, [], []), u) == 0
  {
    NoAttestationShared(u.attestations);
    NoEdgeShared(u.ops);
  }

  lemma {:induction false} NoAttestationShared(atts: seq<Attestation>)
    ensures SharedAttestations([], atts) == 0
  {
    hide WriteAttestation;
    if atts != [] {
      NoAttestationShared(atts[1..]);
    }
  }

  lemma {:induction false} NoEdgeShared(ops: seq<Edge>)
    ensures SharedEdges([], ops) == 0
  {
    hide WriteOp, Shared;
    if ops != [] {
      NoEdgeShared(ops[1..]);
    }
  }

  // ----- Responses that do not fit -----

  /** A path of `n` levels through operations whose messages are not evaluated. */
  function Path(msg: bytes, n: nat): Tree
    requires 0 < n
    decreases n
  {
    if n == 1 then Tree(msg, [Bitcoin(0)], []) else Tree(msg, [], [Edge(Sha1, Path([], n - 1))])
  }

  lemma {:induction false} PathGood(h: Hashes, msg: bytes, n: nat)
    requires 0 < n
    ensures Good(h, Path(msg, n), n) && Path(msg, n).msg == msg && Depth(Path(msg, n)) == n && Size(Path(msg, n)) <= n + 14
    decreases n
  {
    if n == 1 {
      assert GoodAttestations([Bitcoin(0)]);
      MakeGood(h, Path(msg, 1), 1);
      assert SizeAttestations([Bitcoin(0)]) == 2 + |WriteAttestation(Bitcoin(0))| + SizeAttestations([]);
    } else {
      PathGood(h, [], n - 1);
      var e := Edge(Sha1, Path([], n - 1));
      assert GoodEdge(h, msg, e, n);
      MakeGood(h, Path(msg, n), n);
      assert DepthEdge(e) == n - 1 && DepthEdges([e]) == Max(DepthEdge(e), DepthEdges([])) == n - 1;
      assert SizeEdge(e) == 1 + Size(e.child) && SizeEdges([e]) == SizeEdge(e) + SizeEdges([]);
    }
  }

  /** A digest with one byte appended, attested. */
  function Stamped(digest: bytes): Tree {
    Tree(digest, [], [Edge(Append([0]), Path(digest + [0], 1))])
  }

  lemma StampedGood(h: Hashes, digest: bytes)
    requires |digest| == 32
    ensures Good(h, Stamped(digest), 2) && Size(Stamped(digest)) <= 18
    ensures Depth(Stamped(digest)) == 2
  {
    var e := Edge(Append([0]), Path(digest + [0], 1));
    PathGood(h, digest + [0], 1);
    assert |WriteOp(e.op)| == 3;
    hide Path;
    assert GoodEdge(h, digest, e, 2);
    MakeGood(h, Stamped(digest), 2);
    assert DepthEdge(e) == 1 && DepthEdges([e]) == Max(DepthEdge(e), DepthEdges([])) == 1;
    assert SizeEdge(e) == 3 + Size(e.child) && SizeEdges([e]) == SizeEdge(e) + SizeEdges([]);
  }

  lemma StampedCommitment(digest: bytes, u: Tree)
    ensures Upgrade(Stamped(digest), digest + [0], u).Some? && Level(Stamped(digest), digest + [0]) == Some(1)
  {
    hide Merge;
    var t := Stamped(digest);
    assert |digest| != |digest + [0]|;
    assert UpgradeEdge(t.ops[0], digest + [0], u).Some? && LevelEdge(t.ops[0], digest + [0]) == Some(0);
  }

  /**
   * A file of two levels and a response of all 256, each within its limits: the commitment is one
   * level down, and the file of the upgraded proof is refused.
   */
  lemma ResponseTooDeep(h: Hashes, digest: bytes)
    requires |digest| == 32
    ensures var t, u, commitment := Stamped(digest), Path(digest + [0], MAX_DEPTH), digest + [0];
      && ReadFile(h, WriteFile(t)) == Some(t) && Deserialize(h, Write(u), commitment) == Some(u)
      && Upgrade(t, commitment, u).Some? && ReadFile(h, WriteFile(Upgrade(t, commitment, u).value)) == None
  {
    var t, u, commitment := Stamped(digest), Path(digest + [0], MAX_DEPTH), digest + [0];
    assert t.msg == digest;
    hide Stamped, Path, Write, Good, Depth, ReadFile, WriteFile, Size, Parse, Upgrade, Level, NodeAt, Shared;
    StampedGood(h, digest);
    StampedCommitment(digest, u);
    PathGood(h, commitment, MAX_DEPTH);
    TreeBytes(h, t, 2);
    TreeBytes(h, u, MAX_DEPTH);
    FileReadableExactly(h, t, 2);
    ReadableExactly(h, u, MAX_DEPTH);
    FileUpgrade(h, WriteFile(t), commitment, Write(u));
  }

  /** An attestation of an unknown kind with the largest payload. */
  function Bulk(k: byte): Attestation {
    Unknown([k, 0, 0, 0, 0, 0, 0, 0], seq(MAX_PAYLOAD, _ => 0))
  }

  /** Five of them, from kind `k` on. */
  function Bulky(msg: bytes, k: byte): Tree
    requires k <= 250
  {
    Tree(msg, [Bulk(k), Bulk(k + 1), Bulk(k + 2), Bulk(k + 3), Bulk(k + 4)], [])
  }

  lemma BulkGood(k: byte)
    ensures GoodAttestation(Bulk(k)) && |WriteAttestation(Bulk(k))| == 8202
  {
    assert PENDING[1] != 0 && BITCOIN[1] != 0;
    assert Bulk(k).tag[1] == 0;
    assert WriteVarUint(64) == [64] && WriteVarUint(MAX_PAYLOAD) == [128] + WriteVarUint(64);
  }

  lemma BulkBefore(j: byte, k: byte)
    requires j < k
    ensures AttestationBefore(Bulk(j), Bulk(k)) && Bulk(j) != Bulk(k)
  {
    assert AttestationKey(Bulk(j))[0] == j && AttestationKey(Bulk(k))[0] == k;
    assert Bulk(j).tag[0] == j && Bulk(k).tag[0] == k;
  }

  lemma BulkyGood(h: Hashes, msg: bytes, k: byte)
    requires k <= 250
    ensures Good(h, Bulky(msg, k), 1) && Size(Bulky(msg, k)) == 41020 && Depth(Bulky(msg, k)) == 1
  {
    hide Bulk, GoodAttestation, AttestationBefore, WriteAttestation;
    var t := Bulky(msg, k);
    var atts := t.attestations;
    forall i | 0 <= i < 5
      ensures atts[i] == Bulk(k + i) && GoodAttestation(atts[i]) && |WriteAttestation(atts[i])| == 8202
    {
      BulkGood(k + i);
    }
    forall i, j | 0 <= i < j < 5
      ensures AttestationBefore(atts[i], atts[j])
    {
      BulkBefore(k + i, k + j);
    }
    assert GoodAttestations(atts);
    MakeGood(h, t, 1);
    SizeOfFive(atts);
  }

  lemma SizeOfFive(atts: seq<Attestation>)
    requires |atts| == 5 && forall i :: 0 <= i < 5 ==> |WriteAttestation(atts[i])| == 8202
    ensures SizeAttestations(atts) == 41020
  {
    hide WriteAttestation;
    assert atts[1..][1..] == atts[2..] && atts[2..][1..] == atts[3..] && atts[3..][1..] == atts[4..];
    assert SizeAttestations(atts[5..]) == 0 && atts[4..][1..] == atts[5..];
    assert SizeAttestations(atts[4..]) == 8204 && SizeAttestations(atts[3..]) == 16408;
    assert SizeAttestations(atts[2..]) == 24612 && SizeAttestations(atts[1..]) == 32816;
  }

  lemma BulkyApart(msg: bytes)
    ensures Shared(Bulky(msg, 10), Bulky(msg, 20)) == 0
  {
    hide Bulk, WriteAttestation;
    var a, b := Bulky(msg, 10).attestations, Bulky(msg, 20).attestations;
    forall i, j | 0 <= i < 5 && 0 <= j < 5
      ensures a[i] != b[j]
    {
      BulkBefore(10 + i, 20 + j);
    }
    assert forall x :: x in b ==> (x in a <==> x in []);
    SameShared(a, [], b);
    NoAttestationShared(b);
  }

  /** A file and a response of five large attestations each, within their limits: together they are too large. */
  lemma ResponseTooLarge(h: Hashes, digest: bytes)
    requires |digest| == 32
    ensures var t, u := Bulky(digest, 10), Bulky(digest, 20);
      && ReadFile(h, WriteFile(t)) == Some(t) && Deserialize(h, Write(u), digest) == Some(u)
      && Upgrade(t, digest, u).Some? && ReadFile(h, WriteFile(Upgrade(t, digest, u).value)) == None
  {
    var t, u := Bulky(digest, 10), Bulky(digest, 20);
    assert Level(t, digest) == Some(0) && NodeAt(t, digest) == Some(t) && t.msg == u.msg == digest;
    hide Bulky, Write, Good, Depth, ReadFile, WriteFile, Size, Parse, Upgrade, Level, NodeAt, Shared;
    BulkyGood(h, digest, 10);
    BulkyGood(h, digest, 20);
    BulkyApart(digest);
    TreeBytes(h, t, 1);
    TreeBytes(h, u, 1);
    FileReadableExactly(h, t, 1);
    ReadableExactly(h, u, 1);
    FileUpgrade(h, WriteFile(t), digest, Write(u));
  }
}
