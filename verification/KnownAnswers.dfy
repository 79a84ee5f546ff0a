/**
 * Small worked examples of every format and tree, each written out in full: they fix the order of
 * parts, the tags and the byte order that the general laws leave open.
 */
module KnownAnswers {
  import opened Wrappers
  import Powers
  import Merkle
  import CheckpointText
  import Texts
  import Wal
  import Ledger
  import BudgetProtocol
  import BudgetRecovery
  import Orders
  import C = OtsCodec
  import T = OtsTree
  import P = OtsParse

  // ----- Section 2.1.5 of RFC 9162 -----

  type Hash = Merkle.Hash

  function N(l: Hash, r: Hash): Hash {
    Merkle.NodeHash(l, r)
  }

  lemma Splits()
    ensures Powers.Split(2) == 1 && Powers.Split(3) == 2 && Powers.Split(4) == 2 && Powers.Split(6) == 4 && Powers.Split(7) == 4
  {
    Powers.SplitUnique(2, 1);
    Powers.SplitUnique(3, 2);
    Powers.SplitUnique(4, 2);
    Powers.SplitUnique(6, 4);
    Powers.SplitUnique(7, 4);
  }

  lemma RootOfTwo(a: Hash, b: Hash)
    ensures Merkle.RootOf([a, b]) == N(a, b)
  {
    Splits();
    assert [a, b][..1] == [a] && [a, b][1..] == [b];
  }

  lemma RootOfThree(a: Hash, b: Hash, c: Hash)
    ensures Merkle.RootOf([a, b, c]) == N(N(a, b), c)
  {
    Splits();
    RootOfTwo(a, b);
    assert [a, b, c][..2] == [a, b] && [a, b, c][2..] == [c];
  }

  lemma RootOfFour(a: Hash, b: Hash, c: Hash, d: Hash)
    ensures Merkle.RootOf([a, b, c, d]) == N(N(a, b), N(c, d))
  {
    Splits();
    RootOfTwo(a, b);
    RootOfTwo(c, d);
    assert [a, b, c, d][..2] == [a, b] && [a, b, c, d][2..] == [c, d];
  }

  /** The tree of seven leaves: three complete subtrees, joined from the left. */
  lemma RootOfSeven(a: Hash, b: Hash, c: Hash, d: Hash, e: Hash, f: Hash, g: Hash)
    ensures Merkle.RootOf([]) == Merkle.EmptyHash && Merkle.RootOf([a]) == a
    ensures Merkle.RootOf([a, b, c, d, e, f, g]) == N(N(N(a, b), N(c, d)), N(N(e, f), g))
  {
    Splits();
    RootOfFour(a, b, c, d);
    RootOfThree(e, f, g);
    var all := [a, b, c, d, e, f, g];
    assert all[..4] == [a, b, c, d] && all[4..] == [e, f, g];
  }

  lemma PathsOfTwo(a: Hash, b: Hash)
    ensures Merkle.Path(0, [a, b]) == [b] && Merkle.Path(1, [a, b]) == [a]
  {
    Splits();
    assert [a, b][..1] == [a] && [a, b][1..] == [b];
  }

  lemma PathsOfThree(a: Hash, b: Hash, c: Hash)
    ensures Merkle.Path(0, [a, b, c]) == [b, c] && Merkle.Path(2, [a, b, c]) == [N(a, b)]
  {
    Splits();
    RootOfTwo(a, b);
    PathsOfTwo(a, b);
    assert [a, b, c][..2] == [a, b] && [a, b, c][2..] == [c];
  }

  lemma PathsOfFour(a: Hash, b: Hash, c: Hash, d: Hash)
    ensures Merkle.Path(0, [a, b, c, d]) == [b, N(c, d)] && Merkle.Path(3, [a, b, c, d]) == [c, N(a, b)]
  {
    Splits();
    RootOfTwo(a, b);
    RootOfTwo(c, d);
    PathsOfTwo(a, b);
    PathsOfTwo(c, d);
    hide Merkle.RootOf;
    assert [a, b, c, d][..2] == [a, b] && [a, b, c, d][2..] == [c, d];
  }

  /** Its inclusion proofs of leaves 0, 3, 4 and 6. */
  lemma PathsOfSeven(a: Hash, b: Hash, c: Hash, d: Hash, e: Hash, f: Hash, g: Hash)
    ensures var all := [a, b, c, d, e, f, g];
      && Merkle.Path(0, all) == [b, N(c, d), N(N(e, f), g)]
      && Merkle.Path(3, all) == [c, N(a, b), N(N(e, f), g)]
      && Merkle.Path(4, all) == [f, g, N(N(a, b), N(c, d))]
      && Merkle.Path(6, all) == [N(e, f), N(N(a, b), N(c, d))]
  {
    hide Merkle.RootOf, Powers.Split, N;
    Splits();
    var all, left, right := [a, b, c, d, e, f, g], [a, b, c, d], [e, f, g];
    assert all[..4] == left && all[4..] == right;
    RootOfFour(a, b, c, d);
    RootOfThree(e, f, g);
    PathsOfFour(a, b, c, d);
    PathsOfThree(e, f, g);
    assert Merkle.Path(0, all) == Merkle.Path(0, left) + [Merkle.RootOf(right)];
    assert Merkle.Path(3, all) == Merkle.Path(3, left) + [Merkle.RootOf(right)];
    assert Merkle.Path(4, all) == Merkle.Path(0, right) + [Merkle.RootOf(left)];
    assert Merkle.Path(6, all) == Merkle.Path(2, right) + [Merkle.RootOf(left)];
  }

  lemma SubProofsOfThree(a: Hash, b: Hash, c: Hash)
    ensures Merkle.SubProof(2, [a, b, c], false) == [N(a, b), c]
  {
    hide Powers.Split;
    Splits();
    RootOfTwo(a, b);
    assert [a, b, c][..2] == [a, b] && [a, b, c][2..] == [c];
  }

  lemma SubProofsOfFour(a: Hash, b: Hash, c: Hash, d: Hash)
    ensures Merkle.SubProof(3, [a, b, c, d], true) == [c, d, N(a, b)]
  {
    hide Powers.Split;
    Splits();
    RootOfTwo(a, b);
    assert [a, b, c, d][..2] == [a, b] && [a, b, c, d][2..] == [c, d];
    assert [c, d][..1] == [c] && [c, d][1..] == [d];
    assert Merkle.SubProof(1, [c, d], false) == Merkle.SubProof(1, [c], false) + [d] == [c, d];
  }

  /** Its consistency proofs from the first 3, 4 and 6 leaves. */
  lemma SubProofsOfSeven(a: Hash, b: Hash, c: Hash, d: Hash, e: Hash, f: Hash, g: Hash)
    ensures var all := [a, b, c, d, e, f, g];
      && Merkle.ConsistencyProof(all, 3) == Ok([c, d, N(a, b), N(N(e, f), g)])
      && Merkle.ConsistencyProof(all, 4) == Ok([N(N(e, f), g)])
      && Merkle.ConsistencyProof(all, 6) == Ok([N(e, f), g, N(N(a, b), N(c, d))])
  {
    hide Merkle.RootOf, Powers.Split, N;
    Splits();
    var all, left, right := [a, b, c, d, e, f, g], [a, b, c, d], [e, f, g];
    assert all[..4] == left && all[4..] == right;
    RootOfFour(a, b, c, d);
    RootOfThree(e, f, g);
    SubProofsOfFour(a, b, c, d);
    SubProofsOfThree(e, f, g);
    assert Merkle.SubProof(3, all, true) == Merkle.SubProof(3, left, true) + [Merkle.RootOf(right)]
                                         == [c, d, N(a, b), N(N(e, f), g)];
    assert Merkle.SubProof(4, all, true) == Merkle.SubProof(4, left, true) + [Merkle.RootOf(right)]
                                         == [N(N(e, f), g)];
    assert Merkle.SubProof(6, all, true) == Merkle.SubProof(2, right, false) + [Merkle.RootOf(left)]
                                         == [N(e, f), g, N(N(a, b), N(c, d))];
  }

  // ----- OpenTimestamps -----

  /** The tag of every operation, and the length in front of an argument. */
  lemma OperationBytes()
    ensures C.WriteOp(C.Sha1) == [0x02] && C.WriteOp(C.Ripemd160) == [0x03] && C.WriteOp(C.Sha256) == [0x08]
    ensures C.WriteOp(C.Keccak256) == [0x67] && C.WriteOp(C.Reverse) == [0xf2] && C.WriteOp(C.Hexlify) == [0xf3]
    ensures C.WriteOp(C.Append([7])) == [0xf0, 0x01, 7] && C.WriteOp(C.Prepend([7, 8])) == [0xf1, 0x02, 7, 8]
  {
  }

  /** The attestation of block 358391, a pending one, and one of another kind. */
  lemma AttestationBytes()
    ensures C.WriteAttestation(C.Bitcoin(358391)) == [0x05, 0x88, 0x96, 0x0d, 0x73, 0xd7, 0x19, 0x01, 0x03, 0xf7, 0xef, 0x15]
    ensures C.WriteAttestation(C.Pending([0x61])) == [0x83, 0xdf, 0xe3, 0x0d, 0x2e, 0xf9, 0x0c, 0x8e, 0x02, 0x01, 0x61]
    ensures C.WriteAttestation(C.Unknown([1, 2, 3, 4, 5, 6, 7, 8], [9])) == [1, 2, 3, 4, 5, 6, 7, 8, 0x01, 9]
  {
    assert C.WriteVarUint(21) == [21] && C.WriteVarUint(2799) == [0xef] + C.WriteVarUint(21);
    assert C.WriteVarUint(358391) == [0xf7] + C.WriteVarUint(2799) == [0xf7, 0xef, 0x15];
  }

  /** A node with two attestations and two branches: a fork marker in front of every item but the last. */
  lemma TreeBytes(x: C.Attestation, y: C.Attestation, a: T.Edge, b: T.Edge)
    ensures P.Write(T.Tree([], [x, y], [a, b]))
         == [0xff] + ([0x00] + C.WriteAttestation(x)) + ([0xff] + ([0x00] + C.WriteAttestation(y)))
            + ([0xff] + (C.WriteOp(a.op) + P.Write(a.child)) + (C.WriteOp(b.op) + P.Write(b.child)))
    ensures P.Write(T.Tree([], [x], [])) == [0x00] + C.WriteAttestation(x)
    ensures P.Write(T.Tree([], [], [a])) == C.WriteOp(a.op) + P.Write(a.child)
  {
    hide C.WriteOp, C.WriteAttestation;
    assert [x, y][1..] == [y] && [y][1..] == [] && [x][1..] == [] && [a, b][1..] == [b] && [b][1..] == [] && [a][1..] == [];
    assert P.WriteAttestations([y], true) == [0xff] + ([0x00] + C.WriteAttestation(y)) + P.WriteAttestations([], true);
    assert P.WriteAttestations([x], false) == [] + ([0x00] + C.WriteAttestation(x)) + P.WriteAttestations([], false);
    assert P.WriteEdges([b]) == [] + P.WriteEdge(b) + P.WriteEdges([]);
    assert P.WriteEdges([a]) == [] + P.WriteEdge(a) + P.WriteEdges([]);
  }

  // ----- Checkpoint text -----

  lemma TextOfThree()
    ensures Texts.Digits(0) == "0" && Texts.Digits(507) == "507"
  {
    assert Texts.Digits(50) == Texts.Digits(5) + "0" == "50";
  }

  /** A body, and a note with one signature of key hash 0x01020304. */
  lemma NoteText(b64: CheckpointText.Base64, root: seq<byte>, sig: seq<byte>)
    ensures var body := "example.com/log\n507\n" + b64.encode(root) + "\nextra\n";
      && CheckpointText.Unlines(CheckpointText.BodyLines(b64, CheckpointText.Checkpoint("example.com/log", 507, root, ["extra"]))) == body
      && CheckpointText.NoteOf(b64, CheckpointText.SignedNote(body, [CheckpointText.NoteSignature("key", 0x01020304, sig)]))
         == body + "\n" + "\U{2014} key " + b64.encode([1, 2, 3, 4] + sig) + "\n"
  {
    TextOfThree();
    var lines := CheckpointText.BodyLines(b64, CheckpointText.Checkpoint("example.com/log", 507, root, ["extra"]));
    assert lines == ["example.com/log", "507", b64.encode(root), "extra"];
    FourLines("example.com/log", "507", b64.encode(root), "extra");
    var s := CheckpointText.NoteSignature("key", 0x01020304, sig);
    assert CheckpointText.FourBytes(0x01020304) == [1, 2, 3, 4];
    var l := CheckpointText.LineOf(b64, s);
    assert CheckpointText.SignatureLines(b64, [s]) == [l];
    assert [l][1..] == [];
    assert CheckpointText.Unlines([l]) == l + "\n";
  }

  lemma FourLines(a: string, b: string, c: string, d: string)
    ensures CheckpointText.Unlines([a, b, c, d]) == a + "\n" + b + "\n" + c + "\n" + d + "\n"
  {
    assert [a, b, c, d][1..] == [b, c, d] && [b, c, d][1..] == [c, d] && [c, d][1..] == [d] && [d][1..] == [];
    assert CheckpointText.Unlines([d]) == d + "\n";
    assert CheckpointText.Unlines([c, d]) == c + "\n" + d + "\n";
    assert CheckpointText.Unlines([b, c, d]) == b + "\n" + (c + "\n" + d + "\n");
  }

  // ----- The log -----

  /** A line of the log, cut after each field. */
  lemma LogLine()
    ensures Wal.Text(Wal.Entry(507, "genesis", "ab", "{}"))
         == "{\"sequence\":507" + ",\"previous_hash\":\"genesis" + "\",\"entry_hash\":\"ab" + "\",\"data\":{}}\n"
  {
    TextOfThree();
    assert "{\"sequence\":" + "507" == "{\"sequence\":507";
    assert ",\"previous_hash\":\"" + "genesis" == ",\"previous_hash\":\"genesis";
    assert "\",\"entry_hash\":\"" + "ab" == "\",\"entry_hash\":\"ab";
    assert "\",\"data\":" + "{}" + "}\n" == "\",\"data\":{}}\n";
    Regrouped("{\"sequence\":507", ",\"previous_hash\":\"", "genesis", "\",\"entry_hash\":\"", "ab", "\",\"data\":", "{}", "}\n");
  }

  lemma Regrouped(a: string, b: string, c: string, d: string, e: string, f: string, g: string, h: string)
    ensures a + b + c + d + e + f + g + h == a + (b + c) + (d + e) + (f + g + h)
  {
  }

  /** A log of two entries, linked as the genesis text, the first hash and the second. */
  lemma ChainOfTwo(h: Wal.Hasher, x: string, y: string, a: Wal.Entry, b: Wal.Entry)
    requires a.data == x && b.data == y
    ensures Wal.IsChain(h, [a, b]) <==>
      && a == Wal.Entry(1, "genesis", h("genesis" + x), x)
      && b == Wal.Entry(2, h("genesis" + x), h(h("genesis" + x) + y), y)
  {
    assert [a, b][..0] == [] && [a, b][..1] == [a];
    assert Wal.IsChain(h, [a, b]) <==> Wal.Links(h, [a, b], 0) && Wal.Links(h, [a, b], 1);
  }

  // ----- The ledger -----

  lemma SmallEndian(v: byte)
    ensures Ledger.LittleEndian(v, 8) == [v, 0, 0, 0, 0, 0, 0, 0]
    ensures Ledger.LittleEndian(v, 4) == [v, 0, 0, 0]
  {
    Ledger.ZeroEndian(7);
    Ledger.ZeroEndian(3);
    assert Ledger.LittleEndian(v, 8) == [v] + Ledger.LittleEndian(0, 7);
    assert Ledger.LittleEndian(v, 4) == [v] + Ledger.LittleEndian(0, 3);
  }

  lemma AllOnes()
    ensures Ledger.Amount(-1) == [255, 255, 255, 255, 255, 255, 255, 255]
  {
    assert -1 % (U64_MAX + 1) == U64_MAX;
    assert Ledger.LittleEndian(0xFF, 1) == [255];
    assert Ledger.LittleEndian(0xFFFF, 2) == [255] + Ledger.LittleEndian(0xFF, 1);
    assert Ledger.LittleEndian(0xFFFFFF, 3) == [255] + Ledger.LittleEndian(0xFFFF, 2);
    assert Ledger.LittleEndian(0xFFFFFFFF, 4) == [255] + Ledger.LittleEndian(0xFFFFFF, 3);
    assert Ledger.LittleEndian(0xFFFFFFFFFF, 5) == [255] + Ledger.LittleEndian(0xFFFFFFFF, 4);
    assert Ledger.LittleEndian(0xFFFFFFFFFFFF, 6) == [255] + Ledger.LittleEndian(0xFFFFFFFFFF, 5);
    assert Ledger.LittleEndian(0xFFFFFFFFFFFFFF, 7) == [255] + Ledger.LittleEndian(0xFFFFFFFFFFFF, 6);
    assert Ledger.LittleEndian(U64_MAX, 8) == [255] + Ledger.LittleEndian(0xFFFFFFFFFFFFFF, 7);
  }

  lemma RowExample(utf8: Ledger.Utf8, t: string, c: byte, i: byte, r: byte, v: byte, k: byte)
    requires utf8(t) == [c]
    ensures Ledger.RowBytes(utf8, BudgetProtocol.TenantLedger(t, i, r, v, k))
         == [1, 0, 0, 0] + [c] + ([i, 0, 0, 0, 0, 0, 0, 0] + [r, 0, 0, 0, 0, 0, 0, 0] + [v, 0, 0, 0, 0, 0, 0, 0]
                                  + [k, 0, 0, 0, 0, 0, 0, 0])
  {
    hide Ledger.LittleEndian;
    SmallEndian(1);
    SmallEndian(i);
    SmallEndian(r);
    SmallEndian(v);
    SmallEndian(k);
  }

  /** Version 3, two tenants out of order, one reservation, log position 5. */
  lemma LedgerExample(utf8: Ledger.Utf8)
    requires utf8("a") == [0x61] && utf8("b") == [0x62]
    ensures var a, b := BudgetProtocol.TenantLedger("a", 9, 4, 3, 2), BudgetProtocol.TenantLedger("b", 8, 8, 0, 0);
      Ledger.LedgerBytes(utf8, BudgetProtocol.BudgetSnapshot(3, [b, a], 1, Some(5)))
      == Ledger.LEDGER_TAG + [3, 0, 0, 0, 0, 0, 0, 0] + [2, 0, 0, 0, 0, 0, 0, 0] + [1, 0, 0, 0, 0, 0, 0, 0]
         + (([1, 0, 0, 0] + [0x61] + ([9, 0, 0, 0, 0, 0, 0, 0] + [4, 0, 0, 0, 0, 0, 0, 0] + [3, 0, 0, 0, 0, 0, 0, 0]
                                      + [2, 0, 0, 0, 0, 0, 0, 0]))
            + ([1, 0, 0, 0] + [0x62] + ([8, 0, 0, 0, 0, 0, 0, 0] + [8, 0, 0, 0, 0, 0, 0, 0] + [0, 0, 0, 0, 0, 0, 0, 0]
                                        + [0, 0, 0, 0, 0, 0, 0, 0])))
         + (Ledger.WATERMARK_TAG + [5, 0, 0, 0, 0, 0, 0, 0])
  {
    hide Ledger.LittleEndian, Ledger.RowBytes, Ledger.RowsBytes, Orders.Sorted, Ledger.LEDGER_TAG, Ledger.WATERMARK_TAG;
    var a, b := BudgetProtocol.TenantLedger("a", 9, 4, 3, 2), BudgetProtocol.TenantLedger("b", 8, 8, 0, 0);
    SortedPair(a, b);
    Ledger.RowsOfTwo(utf8, a, b);
    RowExample(utf8, "a", 0x61, 9, 4, 3, 2);
    RowExample(utf8, "b", 0x62, 8, 8, 0, 0);
    SmallEndian(1);
    SmallEndian(2);
    SmallEndian(3);
    SmallEndian(5);
  }

  lemma SortedPair(a: BudgetProtocol.TenantLedger, b: BudgetProtocol.TenantLedger)
    requires a.tenant == "a" && b.tenant == "b"
    ensures Orders.Sorted([b, a], BudgetRecovery.RowBefore) == [a, b]
  {
    var less := BudgetRecovery.RowBefore;
    assert [b, a][..1] == [b] && [b][..0] == [];
    assert Orders.Sorted([b], less) == Orders.Insert(Orders.Sorted([], less), b, less) == [b];
    assert less(a, b);
    assert Orders.Sorted([b, a], less) == Orders.Insert([b], a, less);
  }
}
