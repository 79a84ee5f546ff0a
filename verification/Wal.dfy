/**
 * The hash-chained write-ahead log. A file is a sequence of lines, of which the last may lack its
 * newline; the hash under the writer's key mode is a function on text that yields 64 hex digits. Texts
 * are bytes, one character each.
 */
module Wal {
  import opened Wrappers
  import opened Texts

  const GENESIS := "genesis"
  const MAX_WAL_ENTRY_BYTES: nat := 16 * 1024 * 1024
  const MAX_WAL_PAYLOAD_BYTES: nat := MAX_WAL_ENTRY_BYTES - 512

  datatype Entry = Entry(sequence: nat, previous_hash: string, entry_hash: string, data: string)

  /**
   * What a line holds. The validator skips a line of white space whatever the space is; a JSON reader
   * skips it in front of an entry only if there is no form feed in it (`json`).
   */
  datatype Content = White(json: bool) | Record(entry: Entry) | Other

  /** A line and its length in bytes, its newline included when it has one. */
  datatype Line = Line(size: nat, content: Content)

  /** Terminated lines, and the text after the last newline unless there is none. */
  datatype WalFile = WalFile(lines: seq<Line>, tail: Option<Line>)

  datatype WalError =
    | TooLong
    | Malformed
    | DuplicateSequence(sequence: nat)
    | ChainBroken(sequence: nat, expected: string, found: string)
    | SequenceOverflow
    | Poisoned
    | PayloadTooLong
    | EntryTooLong
    | WriteFailed
    | UnknownAnchorSchema
    | KeyModeMismatch
    | AnchorMismatch

  type Hasher = string -> string

  predicate IsHex(c: char) {
    '0' <= c <= '9' || 'a' <= c <= 'f'
  }

  ghost predicate HexDigest(h: Hasher) {
    forall m :: |h(m)| == 64 && IsHex(h(m)[0])
  }

  // ----- What a chain is -----

  function Head(entries: seq<Entry>): string {
    if entries == [] then GENESIS else entries[|entries| - 1].entry_hash
  }

  /** Entry `i` is numbered in sequence, points at its predecessor and carries its own hash. */
  predicate Links(h: Hasher, entries: seq<Entry>, i: nat)
    requires i < |entries|
  {
    var e := entries[i];
    && e.sequence == i + 1 && e.previous_hash == Head(entries[..i])
    && e.entry_hash == h(e.previous_hash + e.data)
  }

  ghost predicate IsChain(h: Hasher, entries: seq<Entry>) {
    forall i :: 0 <= i < |entries| ==> Links(h, entries, i)
  }

  function AllLines(f: WalFile): seq<Line> {
    f.lines + if f.tail.Some? then [f.tail.value] else []
  }

  /** The entries of some lines, in order. */
  function Entries(lines: seq<Line>): (es: seq<Entry>)
    ensures |es| <= |lines|
  {
    if lines == [] then []
    else
      var rest := Entries(lines[..|lines| - 1]);
      var last := lines[|lines| - 1].content;
      if last.Record? then rest + [last.entry] else rest
  }

  /** What the validator finds wrong with a line that follows the entries `before`. */
  function Fault(h: Hasher, before: seq<Entry>, line: Line): Option<WalError> {
    if line.size > MAX_WAL_ENTRY_BYTES then Some(TooLong)
    else match line.content
    case White(_) => None
    case Other => Some(Malformed)
    case Record(e) =>
      if e.sequence != |before| + 1 then Some(DuplicateSequence(e.sequence))
      else if e.previous_hash != Head(before) then Some(ChainBroken(e.sequence, Head(before), e.previous_hash))
      else if h(e.previous_hash + e.data) != e.entry_hash then
        Some(ChainBroken(e.sequence, h(e.previous_hash + e.data), e.entry_hash))
      else if |before| + 1 >= U64_MAX then Some(SequenceOverflow)
      else None
  }

  function FaultAt(h: Hasher, lines: seq<Line>, i: nat): Option<WalError>
    requires i < |lines|
  {
    Fault(h, Entries(lines[..i]), lines[i])
  }

  ghost predicate Accepted(h: Hasher, lines: seq<Line>) {
    forall i :: 0 <= i < |lines| ==> FaultAt(h, lines, i).None?
  }

  /** `validate_chain_async_reader`: the length and head of the log, or the fault of the first faulty line. */
  method ValidateChain(h: Hasher, f: WalFile) returns (r: Result<(nat, string), WalError>)
    ensures r.Ok? <==> Accepted(h, AllLines(f))
    ensures r.Ok? ==> r.value == (|Entries(AllLines(f))|, Head(Entries(AllLines(f))))
    ensures r.Err? ==> exists i :: 0 <= i < |AllLines(f)| && FaultAt(h, AllLines(f), i) == Some(r.error)
                                   && forall j :: 0 <= j < i ==> FaultAt(h, AllLines(f), j).None?
  {
    var lines := AllLines(f);
    var expected, last_sequence, last_hash := 1, 0, GENESIS;
    for i := 0 to |lines|
      invariant forall j :: 0 <= j < i ==> FaultAt(h, lines, j).None?
      invariant last_sequence == |Entries(lines[..i])| && expected == last_sequence + 1
      invariant last_hash == Head(Entries(lines[..i]))
    {
      assert lines[..i + 1][..i] == lines[..i];
      if lines[i].size > MAX_WAL_ENTRY_BYTES {
        assert FaultAt(h, lines, i) == Some(TooLong);
        return Err(TooLong);
      }
      match lines[i].content {
        case White(_) =>
        case Other =>
          assert FaultAt(h, lines, i) == Some(Malformed);
          return Err(Malformed);
        case Record(e) =>
          ghost var fault := FaultAt(h, lines, i);
          if e.sequence != expected {
            assert fault == Some(DuplicateSequence(e.sequence));
            return Err(DuplicateSequence(e.sequence));
          }
          if e.previous_hash != last_hash {
            assert fault == Some(ChainBroken(e.sequence, last_hash, e.previous_hash));
            return Err(ChainBroken(e.sequence, last_hash, e.previous_hash));
          }
          var computed := h(e.previous_hash + e.data);
          if computed != e.entry_hash {
            assert fault == Some(ChainBroken(e.sequence, computed, e.entry_hash));
            return Err(ChainBroken(e.sequence, computed, e.entry_hash));
          }
          last_hash, last_sequence := e.entry_hash, e.sequence;
          if expected >= U64_MAX {
            assert fault == Some(SequenceOverflow);
            return Err(SequenceOverflow);
          }
          expected := expected + 1;
      }
    }
    assert lines[..|lines|] == lines;
    return Ok((last_sequence, last_hash));
  }

  /** No line is too long, and none is anything but white space or an entry. */
  predicate Readable(lines: seq<Line>) {
    forall i :: 0 <= i < |lines| ==> lines[i].size <= MAX_WAL_ENTRY_BYTES && lines[i].content != Other
  }

  lemma ChainPush(h: Hasher, es: seq<Entry>, e: Entry)
    ensures IsChain(h, es + [e]) <==>
      IsChain(h, es) && e.sequence == |es| + 1 && e.previous_hash == Head(es) && e.entry_hash == h(e.previous_hash + e.data)
  {
    var all := es + [e];
    assert all[..|es|] == es;
    forall i | 0 <= i < |es|
      ensures Links(h, all, i) <==> Links(h, es, i)
    {
      assert all[..i] == es[..i];
    }
    if IsChain(h, all) {
      assert Links(h, all, |es|);
      assert forall i :: 0 <= i < |es| ==> Links(h, es, i);
    }
  }

  lemma AcceptedPush(h: Hasher, lines: seq<Line>, line: Line)
    ensures Accepted(h, lines + [line]) <==> Accepted(h, lines) && Fault(h, Entries(lines), line).None?
  {
    var all := lines + [line];
    assert all[..|lines|] == lines;
    forall i | 0 <= i < |lines|
      ensures FaultAt(h, all, i) == FaultAt(h, lines, i)
    {
      assert all[..i] == lines[..i];
    }
    if Accepted(h, all) {
      assert FaultAt(h, all, |lines|).None?;
      assert forall i :: 0 <= i < |lines| ==> FaultAt(h, lines, i).None?;
    }
  }

  /** The validator accepts exactly the files whose entries form a countable chain with nothing else between them. */
  lemma {:induction false} AcceptedIsChain(h: Hasher, lines: seq<Line>)
    ensures Accepted(h, lines) <==> Readable(lines) && IsChain(h, Entries(lines)) && |Entries(lines)| < U64_MAX
  {
    if lines != [] {
      var init, last := lines[..|lines| - 1], lines[|lines| - 1];
      AcceptedIsChain(h, init);
      assert lines == init + [last];
      AcceptedPush(h, init, last);
      if last.content.Record? {
        ChainPush(h, Entries(init), last.content.entry);
      }
    }
  }

  /**
   * What a fault says is true of the line, and what it expects would repair it: the previous hash
   * together with the hash it then leads to, or the hash alone.
   */
  lemma FaultRepairs(h: Hasher, before: seq<Entry>, line: Line)
    requires line.content.Record? && Fault(h, before, line).Some? && |before| + 1 < U64_MAX
    ensures var e, f := line.content.entry, Fault(h, before, line).value;
      && (line.size > MAX_WAL_ENTRY_BYTES <==> f == TooLong)
      && (f.DuplicateSequence? ==> f.sequence == e.sequence != |before| + 1)
      && (f.ChainBroken? ==> f.sequence == e.sequence == |before| + 1 && f.expected != f.found)
      && (f.ChainBroken? && f.found == e.previous_hash != Head(before) ==>
            Fault(h, before, Line(line.size, Record(e.(previous_hash := f.expected, entry_hash := h(f.expected + e.data))))).None?)
      && (f.ChainBroken? && e.previous_hash == Head(before) ==>
            f.found == e.entry_hash && Fault(h, before, Line(line.size, Record(e.(entry_hash := f.expected)))).None?)
      && (f.ChainBroken? && e.previous_hash != Head(before) ==> f.found == e.previous_hash)
      && (f == TooLong || f.DuplicateSequence? || f.ChainBroken?)
  {
  }

  // ----- The head determines the log -----

  function Message(e: Entry): string {
    e.previous_hash + e.data
  }

  /** Among the texts hashed for two logs, different texts have different hashes. */
  ghost predicate CollisionFree(h: Hasher, a: seq<Entry>, b: seq<Entry>) {
    forall x, y :: x in a && y in b && h(Message(x)) == h(Message(y)) ==> Message(x) == Message(y)
  }

  lemma HeadIsGenesisOrHex(h: Hasher, es: seq<Entry>)
    requires HexDigest(h) && IsChain(h, es)
    ensures if es == [] then Head(es) == GENESIS else |Head(es)| == 64 && IsHex(Head(es)[0])
  {
    if es != [] {
      assert Links(h, es, |es| - 1);
    }
  }

  /** Two chained texts that are equal split at the same place. */
  lemma SplitMessage(p: string, q: string, d: string, e: string)
    requires p + d == q + e
    requires p == GENESIS || (|p| == 64 && IsHex(p[0]))
    requires q == GENESIS || (|q| == 64 && IsHex(q[0]))
    ensures p == q && d == e
  {
    assert (p + d)[0] == p[0] && (q + e)[0] == q[0];
    assert !IsHex(GENESIS[0]);
    assert |p| == |q|;
    assert p == (p + d)[..|p|] == (q + e)[..|q|] == q;
    assert d == (p + d)[|p|..] == (q + e)[|q|..] == e;
  }

  /** Two chains with the same head are the same chain. */
  lemma {:induction false} HeadDetermines(h: Hasher, a: seq<Entry>, b: seq<Entry>)
    requires HexDigest(h) && IsChain(h, a) && IsChain(h, b) && CollisionFree(h, a, b) && Head(a) == Head(b)
    ensures a == b
    decreases |a|
  {
    HeadIsGenesisOrHex(h, a);
    HeadIsGenesisOrHex(h, b);
    if a != [] && b != [] {
      var a', x, b', y := a[..|a| - 1], a[|a| - 1], b[..|b| - 1], b[|b| - 1];
      assert a == a' + [x] && b == b' + [y];
      ChainPush(h, a', x);
      ChainPush(h, b', y);
      HeadIsGenesisOrHex(h, a');
      HeadIsGenesisOrHex(h, b');
      assert x in a && y in b && h(Message(x)) == h(Message(y));
      SplitMessage(x.previous_hash, y.previous_hash, x.data, y.data);
      HeadDetermines(h, a', b');
    }
  }

  /** Any two files the validator accepts with equal heads hold the same entries in the same order. */
  lemma AcceptedHeadDetermines(h: Hasher, f: WalFile, g: WalFile)
    requires HexDigest(h) && Accepted(h, AllLines(f)) && Accepted(h, AllLines(g))
    requires CollisionFree(h, Entries(AllLines(f)), Entries(AllLines(g)))
    ensures Head(Entries(AllLines(f))) == Head(Entries(AllLines(g))) <==> Entries(AllLines(f)) == Entries(AllLines(g))
  {
    AcceptedIsChain(h, AllLines(f));
    AcceptedIsChain(h, AllLines(g));
    if Head(Entries(AllLines(f))) == Head(Entries(AllLines(g))) {
      HeadDetermines(h, Entries(AllLines(f)), Entries(AllLines(g)));
    }
  }

  // ----- Anchors -----

  const ANCHOR_SCHEMA := "calybris.wal-anchor.v1"

  datatype Anchor = Anchor(schema_version: string, sequence: nat, last_hash: string, keyed: bool)

  /** `verify_async_anchor`: the file is accepted and its head is the anchored one. */
  method VerifyAnchor(h: Hasher, keyed: bool, f: WalFile, anchor: Anchor) returns (r: Result<(nat, string), WalError>)
    ensures r.Ok? <==> anchor.schema_version == ANCHOR_SCHEMA && anchor.keyed == keyed && Accepted(h, AllLines(f))
                       && anchor.sequence == |Entries(AllLines(f))| && anchor.last_hash == Head(Entries(AllLines(f)))
    ensures r.Ok? ==> r.value == (anchor.sequence, anchor.last_hash)
    ensures anchor.schema_version != ANCHOR_SCHEMA ==> r == Err(UnknownAnchorSchema)
    ensures anchor.schema_version == ANCHOR_SCHEMA && anchor.keyed != keyed ==> r == Err(KeyModeMismatch)
  {
    if anchor.schema_version != ANCHOR_SCHEMA {
      return Err(UnknownAnchorSchema);
    }
    if anchor.keyed != keyed {
      return Err(KeyModeMismatch);
    }
    r := ValidateChain(h, f);
    if r.Ok? && (r.value.0 != anchor.sequence || r.value.1 != anchor.last_hash) {
      return Err(AnchorMismatch);
    }
  }

  /** An anchor taken from one accepted log matches another only if no entry was cut off or changed. */
  lemma AnchorExcludesTampering(h: Hasher, anchored: WalFile, found: WalFile)
    requires HexDigest(h) && Accepted(h, AllLines(anchored)) && Accepted(h, AllLines(found))
    requires CollisionFree(h, Entries(AllLines(found)), Entries(AllLines(anchored)))
    requires Head(Entries(AllLines(found))) == Head(Entries(AllLines(anchored)))
    ensures Entries(AllLines(found)) == Entries(AllLines(anchored))
    ensures |Entries(AllLines(found))| == |Entries(AllLines(anchored))|
  {
    AcceptedHeadDetermines(h, found, anchored);
  }

  // ----- The writer -----

  /** The line `append` writes for an entry. */
  function Text(e: Entry): (s: string)
    ensures |s| > |e.data| + 2
  {
    "{\"sequence\":" + Digits(e.sequence) + ",\"previous_hash\":\"" + e.previous_hash + "\",\"entry_hash\":\""
    + e.entry_hash + "\",\"data\":" + e.data + "}\n"
  }

  function NextEntry(h: Hasher, sequence: nat, last_hash: string, data: string): Entry {
    Entry(sequence + 1, last_hash, h(last_hash + data), data)
  }

  predicate Fits(e: Entry) {
    |e.data| <= MAX_WAL_PAYLOAD_BYTES && |Text(e)| <= MAX_WAL_ENTRY_BYTES
  }

  /** The payload limit leaves room for everything else, so it alone decides whether an entry fits. */
  lemma PayloadLimitSuffices(h: Hasher, es: seq<Entry>, data: string)
    requires HexDigest(h) && IsChain(h, es) && |es| < U64_MAX
    ensures Fits(NextEntry(h, |es|, Head(es), data)) <==> |data| <= MAX_WAL_PAYLOAD_BYTES
  {
    var e := NextEntry(h, |es|, Head(es), data);
    HeadIsGenesisOrHex(h, es);
    assert |e.entry_hash| == 64;
    assert Pow10(5) == 100_000 && Pow10(10) == 10_000_000_000 && Pow10(15) == 1_000_000_000_000_000
        && Pow10(20) == 100_000_000_000_000_000_000;
    DigitsLength(e.sequence, Pow10(20), 20);
  }

  /** How the writes of one append may end. */
  datatype Io =
    | Done
    /** Only so many bytes of the line reached the file. */
    | Cut(bytes: nat)
    /** The line was written and synchronising it failed. */
    | SyncFailed

  /** Text appended to a file continues its unterminated last line, if it has one. */
  function Glue(tail: Option<Line>, line: Line): Line {
    if tail.None? then line
    else Line(tail.value.size + line.size, if tail.value.content == White(true) then line.content else Other)
  }

  /** Text that holds no whole entry on one line, cut after its newlines. */
  function Pieces(s: string): WalFile
    decreases |s|
  {
    var i := IndexOf(s, '\n');
    if s == [] then WalFile([], None)
    else if i == |s| then WalFile([], Some(Line(|s|, Other)))
    else
      var rest := Pieces(s[i + 1..]);
      WalFile([Line(i + 1, Other)] + rest.lines, rest.tail)
  }

  /** The payload holds no newline, so the text of its entry is one line. */
  predicate Single(e: Entry) {
    '\n' !in e.data
  }

  /**
   * The first `n` bytes written for `e`, as the validator reads them. They are an entry only if it is
   * on one line and at most its newline is missing; otherwise their first line is an unclosed object,
   * where the validator stops, whatever the lines behind it hold.
   */
  function Parts(e: Entry, n: nat): WalFile
    requires n <= |Text(e)|
  {
    if Single(e) && n == |Text(e)| then WalFile([Line(n, Record(e))], None)
    else if Single(e) && n == |Text(e)| - 1 then WalFile([], Some(Line(n, Record(e))))
    else Pieces(Text(e)[..n])
  }

  /** One file behind another. */
  function Attach(f: WalFile, g: WalFile): WalFile {
    if g.lines == [] then WalFile(f.lines, if g.tail.None? then f.tail else Some(Glue(f.tail, g.tail.value)))
    else WalFile(f.lines + [Glue(f.tail, g.lines[0])] + g.lines[1..], g.tail)
  }

  /** How many bytes of the text of `e` reach the file. */
  function Reached(e: Entry, io: Io): (n: nat)
    ensures n <= |Text(e)|
  {
    if io.Cut? && io.bytes < |Text(e)| then io.bytes else |Text(e)|
  }

  /** The file after the writes of an append of `e`. */
  function Wrote(f: WalFile, e: Entry, io: Io): WalFile {
    Attach(f, Parts(e, Reached(e, io)))
  }

  /**
   * The file can take `bytes` more bytes of an entry: its last line has ended, or is white space that a
   * JSON reader skips and that leaves room for them.
   */
  predicate Ready(f: WalFile, bytes: nat) {
    f.tail.None? || (f.tail.value.content == White(true) && f.tail.value.size + bytes <= MAX_WAL_ENTRY_BYTES)
  }

  class Writer {
    const h: Hasher
    const keyed: bool
    var file: WalFile
    var sequence: nat
    var last_hash: string
    var poisoned: bool

    /** The writer's head is the one the validator finds in its file. */
    ghost predicate InStep()
      reads this
    {
      && Accepted(h, AllLines(file)) && sequence == |Entries(AllLines(file))|
      && last_hash == Head(Entries(AllLines(file)))
    }

    /** The writer is in step with its file, or has broken it for good. */
    ghost predicate Valid()
      reads this
    {
      InStep() || !Accepted(h, file.lines)
    }

    constructor (h: Hasher, keyed: bool, f: WalFile, sequence: nat, last_hash: string)
      requires Accepted(h, AllLines(f))
      requires (sequence, last_hash) == (|Entries(AllLines(f))|, Head(Entries(AllLines(f))))
      ensures InStep() && !poisoned && this.file == f && this.h == h && this.keyed == keyed
    {
      this.h, this.keyed, this.file := h, keyed, f;
      this.sequence, this.last_hash, this.poisoned := sequence, last_hash, false;
    }

    /**
     * `append`. When it succeeds the writer moves to the new entry, and the file still validates to
     * the writer's head exactly when it did before, was ready for the line, the payload holds no newline
     * and the sequence is still countable.
     */
    method Append(data: string, io: Io) returns (r: Result<Entry, WalError>)
      requires !poisoned ==> Valid()
      modifies this
      ensures !poisoned ==> Valid()
      ensures old(poisoned) ==> r == Err(Poisoned) && unchanged(this)
      ensures !old(poisoned) && old(sequence) >= U64_MAX ==> r == Err(SequenceOverflow) && unchanged(this)
      ensures !old(poisoned) && old(sequence) < U64_MAX ==>
        var e := NextEntry(h, old(sequence), old(last_hash), data);
        if |data| > MAX_WAL_PAYLOAD_BYTES then r == Err(PayloadTooLong) && unchanged(this)
        else if !Fits(e) then r == Err(EntryTooLong) && unchanged(this)
        else
          && file == Wrote(old(file), e, io)
          && (io.Done? ==> r == Ok(e) && !poisoned && sequence == e.sequence && last_hash == e.entry_hash)
          && (!io.Done? ==> r == Err(WriteFailed) && poisoned && sequence == old(sequence) && last_hash == old(last_hash))
      ensures r.Ok? ==>
        (InStep() <==> old(InStep()) && '\n' !in data && Ready(old(file), |Text(r.value)|) && sequence < U64_MAX)
      ensures r.Ok? ==> file.tail.None?
      ensures r.Ok? && InStep() ==> Entries(AllLines(file)) == old(Entries(AllLines(file))) + [r.value]
    {
      hide Text, Wrote, Ready;
      if poisoned {
        return Err(Poisoned);
      }
      if sequence >= U64_MAX {
        return Err(SequenceOverflow);
      }
      var e := NextEntry(h, sequence, last_hash, data);
      if |data| > MAX_WAL_PAYLOAD_BYTES {
        return Err(PayloadTooLong);
      }
      if |Text(e)| > MAX_WAL_ENTRY_BYTES {
        return Err(EntryTooLong);
      }
      WroteEnded(file, e);
      if Accepted(h, file.lines) {
        AppendInStep(h, file, e);
      } else {
        StaysBroken(h, file, e);
      }
      file := Wrote(file, e, io);
      if !io.Done? {
        poisoned := true;
        return Err(WriteFailed);
      }
      sequence, last_hash := e.sequence, e.entry_hash;
      return Ok(e);
    }
  }

  /** `open`: a writer in step with any file the validator accepts. */
  method Open(h: Hasher, keyed: bool, f: WalFile) returns (r: Result<Writer, WalError>)
    ensures r.Ok? <==> Accepted(h, AllLines(f))
    ensures r.Ok? ==> fresh(r.value) && r.value.InStep() && !r.value.poisoned && r.value.file == f
  {
    var v := ValidateChain(h, f);
    if v.Err? {
      return Err(v.error);
    }
    var w := new Writer(h, keyed, f, v.value.0, v.value.1);
    return Ok(w);
  }

  ghost predicate Continues(h: Hasher, f: WalFile, e: Entry) {
    && Accepted(h, AllLines(f)) && e.sequence == |Entries(AllLines(f))| + 1
    && e.previous_hash == Head(Entries(AllLines(f))) && e.entry_hash == h(e.previous_hash + e.data)
  }

  /** Exactly when the next entry, put behind what the file ends with, is accepted. */
  lemma GluedAccepted(h: Hasher, f: WalFile, e: Entry, bytes: nat)
    requires Continues(h, f, e) && bytes <= MAX_WAL_ENTRY_BYTES
    ensures var lines := f.lines + [Glue(f.tail, Line(bytes, Record(e)))];
      && (Accepted(h, lines) <==> Ready(f, bytes) && e.sequence < U64_MAX)
      && (Ready(f, bytes) ==> Entries(lines) == Entries(AllLines(f)) + [e])
  {
    var last := Glue(f.tail, Line(bytes, Record(e)));
    AcceptedPush(h, f.lines, last);
    assert (f.lines + [last])[..|f.lines|] == f.lines;
    if f.tail.None? {
      assert AllLines(f) == f.lines;
    } else {
      assert AllLines(f) == f.lines + [f.tail.value];
      assert AllLines(f)[..|f.lines|] == f.lines;
      AcceptedPush(h, f.lines, f.tail.value);
    }
  }

  lemma {:induction false} PiecesOther(s: string)
    requires s != []
    ensures var p := Pieces(s);
      if p.lines == [] then p.tail.Some? && p.tail.value.content == Other else p.lines[0].content == Other
    ensures s[|s| - 1] == '\n' ==> Pieces(s).lines != [] && Pieces(s).tail.None?
    decreases |s|
  {
    var i := IndexOf(s, '\n');
    if i < |s| && s[i + 1..] != [] {
      PiecesOther(s[i + 1..]);
    }
  }

  lemma AcceptedPrefix(h: Hasher, a: seq<Line>, b: seq<Line>)
    ensures Accepted(h, a + b) ==> Accepted(h, a)
  {
    hide Fault;
    if Accepted(h, a + b) {
      forall i | 0 <= i < |a|
        ensures FaultAt(h, a, i).None?
      {
        assert (a + b)[..i] == a[..i];
        assert FaultAt(h, a + b, i).None?;
      }
    }
  }

  lemma OtherRejected(h: Hasher, lines: seq<Line>, size: nat, rest: seq<Line>)
    ensures !Accepted(h, lines + [Line(size, Other)] + rest)
  {
    AcceptedPush(h, lines, Line(size, Other));
    AcceptedPrefix(h, lines + [Line(size, Other)], rest);
  }

  /** Text that is no entry, put behind a file, makes the validator reject it. */
  lemma PiecesRejected(h: Hasher, f: WalFile, s: string)
    requires s != []
    ensures !Accepted(h, AllLines(Attach(f, Pieces(s))))
    ensures Pieces(s).lines != [] ==> !Accepted(h, Attach(f, Pieces(s)).lines)
  {
    hide Accepted, Pieces;
    PiecesOther(s);
    var g := Pieces(s);
    if g.lines == [] {
      var size := Glue(f.tail, g.tail.value).size;
      OtherRejected(h, f.lines, size, []);
      assert AllLines(Attach(f, g)) == f.lines + [Line(size, Other)] + [];
    } else {
      var size := Glue(f.tail, g.lines[0]).size;
      var rest := g.lines[1..];
      OtherRejected(h, f.lines, size, rest);
      OtherRejected(h, f.lines, size, rest + if g.tail.Some? then [g.tail.value] else []);
      assert Attach(f, g).lines == f.lines + [Line(size, Other)] + rest;
      assert AllLines(Attach(f, g)) == f.lines + [Line(size, Other)] + (rest + if g.tail.Some? then [g.tail.value] else []);
    }
  }

  lemma TextEnds(e: Entry)
    ensures Text(e)[|Text(e)| - 1] == '\n'
  {
  }

  lemma WroteEnded(f: WalFile, e: Entry)
    ensures Wrote(f, e, Done).tail.None? && AllLines(Wrote(f, e, Done)) == Wrote(f, e, Done).lines
  {
    hide Text, Pieces;
    TextEnds(e);
    assert Text(e)[..|Text(e)|] == Text(e);
    PiecesOther(Text(e));
  }

  lemma StaysBroken(h: Hasher, f: WalFile, e: Entry)
    requires !Accepted(h, f.lines)
    ensures !Accepted(h, AllLines(f)) && !Accepted(h, Wrote(f, e, Done).lines)
  {
    hide Text, Accepted, Pieces;
    AcceptedPrefix(h, f.lines, AllLines(f)[|f.lines|..]);
    assert AllLines(f) == f.lines + AllLines(f)[|f.lines|..];
    var lines := Wrote(f, e, Done).lines;
    AcceptedPrefix(h, f.lines, lines[|f.lines|..]);
    assert lines == f.lines + lines[|f.lines|..];
  }

  /** Whether the file still validates to the new head after an append, case by case on its last line. */
  lemma AppendInStep(h: Hasher, f: WalFile, e: Entry)
    requires Continues(h, f, e) && Fits(e)
    ensures Accepted(h, AllLines(Wrote(f, e, Done))) <==>
      '\n' !in e.data && Ready(f, |Text(e)|) && e.sequence < U64_MAX
    ensures Accepted(h, AllLines(Wrote(f, e, Done))) ==>
      Entries(AllLines(Wrote(f, e, Done))) == Entries(AllLines(f)) + [e]
  {
    FailedAppendReopens(h, f, e, Done);
  }

  /** Which appends, failed or not, leave a file that still opens, and what it then holds. */
  lemma FailedAppendReopens(h: Hasher, f: WalFile, e: Entry, io: Io)
    requires Continues(h, f, e) && Fits(e)
    ensures var after, bytes := AllLines(Wrote(f, e, io)), Reached(e, io);
      && (Accepted(h, after) <==>
            || bytes == 0
            || ('\n' !in e.data && |Text(e)| - 1 <= bytes && Ready(f, bytes) && e.sequence < U64_MAX))
      && (Accepted(h, after) ==> Entries(after) == Entries(AllLines(f)) + if bytes == 0 then [] else [e])
  {
    hide Text, Accepted, Entries, Pieces;
    var after, bytes := AllLines(Wrote(f, e, io)), Reached(e, io);
    if bytes == 0 {
      NoPieces();
      assert Text(e)[..0] == [];
      assert after == AllLines(f);
    } else if Single(e) && |Text(e)| - 1 <= bytes {
      assert after == f.lines + [Glue(f.tail, Line(bytes, Record(e)))];
      GluedAccepted(h, f, e, bytes);
    } else {
      PiecesRejected(h, f, Text(e)[..bytes]);
    }
  }

  lemma NoPieces()
    ensures Pieces([]) == WalFile([], None)
  {
  }

  /** The entries a run of appends makes of its payloads, leaving out those that do not fit. */
  function Made(h: Hasher, sequence: nat, last_hash: string, datas: seq<string>): seq<Entry> {
    if datas == [] then []
    else
      var before := Made(h, sequence, last_hash, datas[..|datas| - 1]);
      var e := NextEntry(h, sequence + |before|, if before == [] then last_hash else Head(before), datas[|datas| - 1]);
      if sequence + |before| < U64_MAX && Fits(e) then before + [e] else before
  }

  predicate AllSingle(es: seq<Entry>) {
    forall e :: e in es ==> Single(e)
  }

  /**
   * A run of appends of any payloads to an opened file. Unless a write fails, the head is the
   * validator's at the end exactly when the file was ready for the first line written, no payload
   * written held a newline and the sequence has stayed countable; then the file holds just what was
   * made of the payloads.
   */
  method AppendAll(w: Writer, datas: seq<string>, ios: seq<Io>)
    requires |ios| == |datas| && !w.poisoned && w.InStep()
    modifies w
    ensures w.poisoned ==> exists i :: 0 <= i < |ios| && !ios[i].Done?
    ensures !w.poisoned ==>
      var made := Made(w.h, old(w.sequence), old(w.last_hash), datas);
      && w.sequence == old(w.sequence) + |made|
      && (w.InStep() <==> made == [] || (Ready(old(w.file), |Text(made[0])|) && AllSingle(made) && w.sequence < U64_MAX))
      && (w.InStep() ==> Entries(AllLines(w.file)) == old(Entries(AllLines(w.file))) + made)
  {
    hide Text, Fits, Accepted, Entries, Ready, Made, NextEntry, Wrote, AllSingle;
    ghost var start, sequence, last_hash := w.file, w.sequence, w.last_hash;
    MadeNone(w.h, sequence, last_hash);
    for n := 0 to |datas|
      invariant w.poisoned ==> exists i :: 0 <= i < n && !ios[i].Done?
      invariant !w.poisoned ==>
        var made := Made(w.h, sequence, last_hash, datas[..n]);
        && w.Valid() && w.sequence == sequence + |made| && w.last_hash == (if made == [] then last_hash else Head(made))
        && (made == [] ==> w.file == start) && (made != [] ==> w.file.tail.None?)
        && (w.InStep() <==> made == [] || (Ready(start, |Text(made[0])|) && AllSingle(made) && w.sequence < U64_MAX))
        && (w.InStep() ==> Entries(AllLines(w.file)) == Entries(AllLines(start)) + made)
    {
      MadePush(w.h, sequence, last_hash, datas, n);
      EndedIsReady(w.file, w.h, w.sequence, w.last_hash, datas[n]);
      var r := w.Append(datas[n], ios[n]);
    }
    assert datas[..|datas|] == datas;
  }

  lemma MadeNone(h: Hasher, sequence: nat, last_hash: string)
    ensures Made(h, sequence, last_hash, []) == [] && AllSingle([])
  {
  }

  lemma MadePush(h: Hasher, sequence: nat, last_hash: string, datas: seq<string>, n: nat)
    requires n < |datas|
    ensures var before := Made(h, sequence, last_hash, datas[..n]);
      var e := NextEntry(h, sequence + |before|, if before == [] then last_hash else Head(before), datas[n]);
      && e.sequence == sequence + |before| + 1
      && (Fits(e) ==> |datas[n]| <= MAX_WAL_PAYLOAD_BYTES)
      && Made(h, sequence, last_hash, datas[..n + 1])
         == (if sequence + |before| < U64_MAX && Fits(e) then before + [e] else before)
      && (AllSingle(before + [e]) <==> AllSingle(before) && '\n' !in datas[n])
  {
    hide Text, Head;
    assert datas[..n + 1][..n] == datas[..n];
    var before := Made(h, sequence, last_hash, datas[..n]);
    var e := NextEntry(h, sequence + |before|, if before == [] then last_hash else Head(before), datas[n]);
    assert datas[..n + 1][n] == datas[n];
    SinglePush(before, e);
  }

  lemma SinglePush(es: seq<Entry>, e: Entry)
    ensures AllSingle(es + [e]) <==> AllSingle(es) && '\n' !in e.data
  {
    assert forall x :: x in es + [e] <==> x in es || x == e;
    assert Single(e) <==> '\n' !in e.data;
  }

  lemma EndedIsReady(f: WalFile, h: Hasher, sequence: nat, last_hash: string, data: string)
    ensures f.tail.None? ==> Ready(f, |Text(NextEntry(h, sequence, last_hash, data))|)
  {
  }

  // ----- Files that open and then break -----

  /** The first entry of a log. */
  function FirstEntry(h: Hasher, data: string): Entry {
    NextEntry(h, 0, GENESIS, data)
  }

  /** An accepted file can be continued by its next entry. */
  lemma ContinuedByNext(h: Hasher, f: WalFile, data: string)
    requires Accepted(h, AllLines(f))
    ensures Continues(h, f, NextEntry(h, |Entries(AllLines(f))|, Head(Entries(AllLines(f))), data))
  {
  }

  /** A file of one line without its newline. */
  function OneLine(line: Line): WalFile {
    WalFile([], Some(line))
  }

  lemma OneLineAccepted(h: Hasher, line: Line)
    ensures Accepted(h, AllLines(OneLine(line))) <==> Fault(h, [], line).None?
    ensures Entries(AllLines(OneLine(line))) == if line.content.Record? then [line.content.entry] else []
  {
    assert AllLines(OneLine(line)) == [] + [line];
    AcceptedPush(h, [], line);
    assert Accepted(h, []);
  }

  lemma FirstFaultless(h: Hasher, data: string, size: nat)
    requires size <= MAX_WAL_ENTRY_BYTES
    ensures Fault(h, [], Line(size, Record(FirstEntry(h, data)))).None?
  {
  }

  /**
   * A file whose last entry lacks its newline is accepted and can be opened, and the next append to it
   * is glued to that entry: the writer reports success and the validator rejects the file.
   */
  lemma MissingNewline(h: Hasher, first: string, second: string)
    requires Fits(FirstEntry(h, first)) && Fits(NextEntry(h, 1, FirstEntry(h, first).entry_hash, second))
    ensures var e := FirstEntry(h, first);
      var f := OneLine(Line(|Text(e)| - 1, Record(e)));
      && Accepted(h, AllLines(f))
      && !Accepted(h, AllLines(Wrote(f, NextEntry(h, 1, e.entry_hash, second), Done)))
  {
    hide Text, Accepted, Entries, Continues, AllLines, Fault, Wrote;
    var e := FirstEntry(h, first);
    var line := Line(|Text(e)| - 1, Record(e));
    FirstFaultless(h, first, |Text(e)| - 1);
    OneLineAccepted(h, line);
    ContinuedByNext(h, OneLine(line), second);
    AppendInStep(h, OneLine(line), NextEntry(h, 1, e.entry_hash, second));
  }

  /** So does a file of one form feed, which the validator skips and the JSON reader does not. */
  lemma FormFeed(h: Hasher, data: string)
    requires Fits(FirstEntry(h, data))
    ensures var f := OneLine(Line(1, White(false)));
      Accepted(h, AllLines(f)) && !Accepted(h, AllLines(Wrote(f, FirstEntry(h, data), Done)))
  {
    hide Text, Accepted, Entries, Continues, AllLines;
    OneLineAccepted(h, Line(1, White(false)));
    ContinuedByNext(h, OneLine(Line(1, White(false))), data);
    AppendInStep(h, OneLine(Line(1, White(false))), FirstEntry(h, data));
  }

  /** And a file of spaces up to the limit, which leaves no room for a line. */
  lemma LongBlank(h: Hasher, data: string)
    requires Fits(FirstEntry(h, data))
    ensures var f := OneLine(Line(MAX_WAL_ENTRY_BYTES, White(true)));
      Accepted(h, AllLines(f)) && !Accepted(h, AllLines(Wrote(f, FirstEntry(h, data), Done)))
  {
    hide Text, Accepted, Entries, Continues, AllLines;
    OneLineAccepted(h, Line(MAX_WAL_ENTRY_BYTES, White(true)));
    ContinuedByNext(h, OneLine(Line(MAX_WAL_ENTRY_BYTES, White(true))), data);
    AppendInStep(h, OneLine(Line(MAX_WAL_ENTRY_BYTES, White(true))), FirstEntry(h, data));
  }

  /** And a payload with a newline in its text, appended to an empty file: its entry is cut in two. */
  lemma NewlineInPayload(h: Hasher)
    requires HexDigest(h)
    ensures var f, e := WalFile([], None), FirstEntry(h, "[\n]");
      Accepted(h, AllLines(f)) && Fits(e) && !Accepted(h, AllLines(Wrote(f, e, Done)))
  {
    hide Text, Entries, Wrote;
    var f := WalFile([], None);
    assert AllLines(f) == [] && IsChain(h, []);
    NoEntries();
    PayloadLimitSuffices(h, [], "[\n]");
    ContinuedByNext(h, f, "[\n]");
    AppendInStep(h, f, FirstEntry(h, "[\n]"));
    assert "[\n]"[1] == '\n';
  }

  lemma NoEntries()
    ensures Entries([]) == []
  {
  }
}
