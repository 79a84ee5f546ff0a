/**
 * The text of checkpoints and signed notes. Each parser accepts the canonical text of a well-formed
 * value and nothing else. Base64 is a parameter: a bijection onto its own canonical strings.
 */
module CheckpointText {
  import opened Wrappers
  import opened Texts

  const MAX_NOTE_BYTES: nat := 65536
  const MAX_SIGNATURES: nat := 100

  datatype Base64 = Base64(encode: seq<byte> -> string, decode: string -> Option<seq<byte>>)

  predicate IsControl(c: char) {
    c < ' ' || '\U{7F}' <= c <= '\U{9F}'
  }

  predicate IsWhitespace(c: char) {
    || '\U{9}' <= c <= '\U{D}' || c == ' ' || c == '\U{85}' || c == '\U{A0}' || c == '\U{1680}'
    || '\U{2000}' <= c <= '\U{200A}' || c == '\U{2028}' || c == '\U{2029}' || c == '\U{202F}' || c == '\U{205F}'
    || c == '\U{3000}'
  }

  /** Encoding and decoding are inverse, and encoded text has no space and no control character. */
  ghost predicate Standard(b64: Base64) {
    && (forall raw :: b64.decode(b64.encode(raw)) == Some(raw))
    && (forall s :: b64.decode(s).Some? ==> b64.encode(b64.decode(s).value) == s)
    && (forall raw :: Plain(b64.encode(raw)))
  }

  predicate Plain(s: string) {
    forall i :: 0 <= i < |s| ==> s[i] != ' ' && !IsControl(s[i])
  }

  predicate Printable(s: string) {
    forall i :: 0 <= i < |s| ==> !IsControl(s[i])
  }

  predicate ValidLine(s: string) {
    s != [] && Printable(s)
  }

  // ----- Lines -----

  predicate OneLine(s: string) {
    '\n' !in s
  }

  /** Text cut after every newline; nothing if it does not end in one. */
  function Lines(s: string): Option<seq<string>>
    decreases |s|
  {
    if s == [] then Some([])
    else
      var i := IndexOf(s, '\n');
      if i == |s| then None
      else
        var rest := Lines(s[i + 1..]);
        if rest.None? then None else Some([s[..i]] + rest.value)
  }

  function Unlines(lines: seq<string>): string {
    if lines == [] then [] else lines[0] + "\n" + Unlines(lines[1..])
  }

  lemma IndexOfFirst(a: string, c: char, b: string)
    requires c !in a
    ensures IndexOf(a + [c] + b, c) == |a|
  {
    var s := a + [c] + b;
    assert s[|a|] == c;
    assert forall j :: 0 <= j < |a| ==> s[j] == a[j];
  }

  lemma {:induction false} LinesOfUnlines(lines: seq<string>)
    requires forall l :: l in lines ==> OneLine(l)
    ensures Lines(Unlines(lines)) == Some(lines)
  {
    if lines != [] {
      var l, rest := lines[0], Unlines(lines[1..]);
      assert l in lines;
      LinesOfUnlines(lines[1..]);
      IndexOfFirst(l, '\n', rest);
      var s := l + "\n" + rest;
      assert s == l + ['\n'] + rest;
      assert s[..|l|] == l && s[|l| + 1..] == rest;
      assert lines == [l] + lines[1..];
    }
  }

  lemma {:induction false} UnlinesOfLines(s: string)
    requires Lines(s).Some?
    ensures Unlines(Lines(s).value) == s && forall l :: l in Lines(s).value ==> OneLine(l)
    decreases |s|
  {
    hide IndexOf;
    if s != [] {
      var i := IndexOf(s, '\n');
      UnlinesOfLines(s[i + 1..]);
      var rest := Lines(s[i + 1..]).value;
      assert ([s[..i]] + rest)[1..] == rest;
      assert s == s[..i] + "\n" + s[i + 1..];
    }
  }

  // ----- Decimal sizes -----

  /** A decimal without leading zeros that fits 64 bits. */
  function ParseSize(s: string): Option<nat> {
    if s == [] || (exists i :: 0 <= i < |s| && !IsDigit(s[i])) || (s != "0" && s[0] == '0') then None
    else if Value(s) > U64_MAX then None
    else Some(Value(s))
  }

  /** A size is read from its own digits and from nothing else. */
  lemma SizeCanonical(s: string, n: nat)
    ensures ParseSize(s) == Some(n) <==> n <= U64_MAX && s == Digits(n)
  {
    ValueOfDigits(n);
    if ParseSize(s).Some? {
      DigitsOfValue(s);
    }
  }

  // ----- Checkpoints -----

  datatype Checkpoint = Checkpoint(origin: string, size: nat, root: seq<byte>, extensions: seq<string>)

  datatype TextError =
    | MalformedCheckpoint | MalformedNote | BadName | NoteTooLarge | TooManySignatures | DuplicateSignature

  predicate GoodCheckpoint(c: Checkpoint) {
    && ValidLine(c.origin) && c.size <= U64_MAX && |c.root| == 32
    && forall l :: l in c.extensions ==> ValidLine(l)
  }

  function BodyLines(b64: Base64, c: Checkpoint): seq<string> {
    [c.origin, Digits(c.size), b64.encode(c.root)] + c.extensions
  }

  /** `Checkpoint::body`: one line each for origin, size and root, then the extensions. */
  method Body(b64: Base64, c: Checkpoint) returns (out: string)
    ensures out == Unlines(BodyLines(b64, c))
  {
    out := c.origin + "\n" + Digits(c.size) + "\n" + b64.encode(c.root) + "\n";
    ThreeLines(c.origin, Digits(c.size), b64.encode(c.root));
    assert BodyLines(b64, c.(extensions := [])) == [c.origin, Digits(c.size), b64.encode(c.root)];
    hide Unlines, Digits;
    for i := 0 to |c.extensions|
      invariant out == Unlines(BodyLines(b64, c.(extensions := c.extensions[..i])))
    {
      UnlinesPush(BodyLines(b64, c.(extensions := c.extensions[..i])), c.extensions[i]);
      assert BodyLines(b64, c.(extensions := c.extensions[..i])) + [c.extensions[i]]
          == BodyLines(b64, c.(extensions := c.extensions[..i + 1]));
      out := out + c.extensions[i] + "\n";
    }
    assert c.extensions[..|c.extensions|] == c.extensions;
  }

  lemma ThreeLines(x: string, y: string, z: string)
    ensures Unlines([x, y, z]) == x + "\n" + y + "\n" + z + "\n"
  {
    assert [x, y, z][1..] == [y, z] && [y, z][1..] == [z] && [z][1..] == [];
    assert Unlines([z]) == z + "\n";
    assert Unlines([y, z]) == y + "\n" + (z + "\n");
  }

  lemma {:induction false} UnlinesPush(lines: seq<string>, l: string)
    ensures Unlines(lines + [l]) == Unlines(lines) + l + "\n"
  {
    if lines != [] {
      UnlinesPush(lines[1..], l);
      assert (lines + [l])[1..] == lines[1..] + [l];
    } else {
      assert (lines + [l])[1..] == [];
    }
  }

  /** `Checkpoint::parse`. */
  function ParseCheckpoint(b64: Base64, body: string): Result<Checkpoint, TextError> {
    var lines := Lines(body);
    if lines.None? || |lines.value| < 3 then Err(MalformedCheckpoint)
    else
      var origin, size, root, extensions := lines.value[0], ParseSize(lines.value[1]), b64.decode(lines.value[2]), lines.value[3..];
      if !ValidLine(origin) || size.None? || root.None? || |root.value| != 32
         || b64.encode(root.value) != lines.value[2]
         || (exists i :: 0 <= i < |extensions| && !ValidLine(extensions[i])) then Err(MalformedCheckpoint)
      else Ok(Checkpoint(origin, size.value, root.value, extensions))
  }

  /** A checkpoint is read from its own body and from nothing else. */
  lemma CheckpointCanonical(b64: Base64, body: string, c: Checkpoint)
    requires Standard(b64)
    ensures ParseCheckpoint(b64, body) == Ok(c) <==> GoodCheckpoint(c) && Unlines(BodyLines(b64, c)) == body
  {
    hide Lines, Digits, ParseSize, Unlines;
    SizeCanonical(Digits(c.size), c.size);
    if GoodCheckpoint(c) && Unlines(BodyLines(b64, c)) == body {
      BodyLinesPlain(b64, c);
      LinesOfUnlines(BodyLines(b64, c));
      assert BodyLines(b64, c)[3..] == c.extensions;
      assert forall i :: 0 <= i < |c.extensions| ==> c.extensions[i] in c.extensions;
    }
    if ParseCheckpoint(b64, body) == Ok(c) {
      UnlinesOfLines(body);
      var lines := Lines(body).value;
      SizeCanonical(lines[1], c.size);
      assert lines == [lines[0], lines[1], lines[2]] + lines[3..];
    }
  }

  lemma BodyLinesPlain(b64: Base64, c: Checkpoint)
    requires Standard(b64) && GoodCheckpoint(c)
    ensures forall l :: l in BodyLines(b64, c) ==> OneLine(l)
  {
    PrintableIsOneLine(c.origin);
    PlainIsOneLine(b64.encode(c.root));
    DigitsOneLine(c.size);
    forall l | l in c.extensions
      ensures OneLine(l)
    {
      PrintableIsOneLine(l);
    }
  }

  lemma PrintableIsOneLine(s: string)
    requires Printable(s)
    ensures OneLine(s)
  {
    assert IsControl('\n');
  }

  lemma PlainIsOneLine(s: string)
    requires Plain(s)
    ensures OneLine(s) && Printable(s)
  {
    assert IsControl('\n');
  }

  lemma DigitsOneLine(n: nat)
    ensures OneLine(Digits(n))
  {
    assert !IsDigit('\n');
  }

  // ----- Signature lines -----

  datatype NoteSignature = NoteSignature(name: string, key_hash: nat, signature: seq<byte>)

  const PREFIX: string := ['\U{2014}', ' ']

  predicate ValidName(name: string) {
    name != [] && forall i :: 0 <= i < |name| ==> name[i] != '+' && !IsWhitespace(name[i]) && !IsControl(name[i])
  }

  predicate GoodSignature(s: NoteSignature) {
    ValidName(s.name) && s.key_hash < 0x1_0000_0000 && s.signature != []
  }

  function FourBytes(k: nat): (b: seq<byte>)
    ensures |b| == 4
  {
    [k / 0x100_0000 % 256, k / 0x1_0000 % 256, k / 0x100 % 256, k % 256]
  }

  function FromBytes(b: seq<byte>): nat
    requires |b| == 4
  {
    0x100_0000 * (b[0] as int) + 0x1_0000 * (b[1] as int) + 0x100 * (b[2] as int) + b[3] as int
  }

  lemma FourBytesInverse(k: nat, b: seq<byte>)
    requires |b| == 4
    ensures FromBytes(b) == k <==> k < 0x1_0000_0000 && b == FourBytes(k)
  {
    var w: int, x: int, y: int, z: int := b[0], b[1], b[2], b[3];
    if FromBytes(b) == k {
      assert k / 0x100 == 0x1_0000 * w + 0x100 * x + y;
      assert k / 0x1_0000 == 0x100 * w + x;
      assert k / 0x100_0000 == w;
    }
  }

  /** `NoteSignature::line`, without its newline. */
  function LineOf(b64: Base64, s: NoteSignature): string {
    PREFIX + s.name + " " + b64.encode(FourBytes(s.key_hash) + s.signature)
  }

  /** `NoteSignature::parse_line`. */
  function ParseLine(b64: Base64, line: string): Result<NoteSignature, TextError> {
    if !(PREFIX <= line) then Err(MalformedNote)
    else
      var rest := line[2..];
      var at := IndexOf(rest, ' ');
      if at == |rest| then Err(MalformedNote)
      else if !ValidName(rest[..at]) then Err(BadName)
      else
        var raw := b64.decode(rest[at + 1..]);
        if raw.None? || |raw.value| < 5 then Err(MalformedNote)
        else Ok(NoteSignature(rest[..at], FromBytes(raw.value[..4]), raw.value[4..]))
  }

  /** A signature is read from its own line and from nothing else. */
  lemma LineCanonical(b64: Base64, line: string, s: NoteSignature)
    requires Standard(b64)
    ensures ParseLine(b64, line) == Ok(s) <==> GoodSignature(s) && LineOf(b64, s) == line
  {
    hide IsWhitespace, IsControl;
    if GoodSignature(s) && LineOf(b64, s) == line {
      LineIsRead(b64, s);
    }
    if ParseLine(b64, line) == Ok(s) {
      var rest := line[2..];
      var at := IndexOf(rest, ' ');
      var raw := b64.decode(rest[at + 1..]).value;
      FourBytesInverse(s.key_hash, raw[..4]);
      assert raw == raw[..4] + raw[4..];
      assert line == PREFIX + rest;
      assert rest == rest[..at] + " " + rest[at + 1..];
    }
  }

  lemma LineIsRead(b64: Base64, s: NoteSignature)
    requires Standard(b64) && GoodSignature(s)
    ensures ParseLine(b64, LineOf(b64, s)) == Ok(s)
  {
    hide IsControl;
    var raw := FourBytes(s.key_hash) + s.signature;
    var line, rest := LineOf(b64, s), s.name + " " + b64.encode(raw);
    assert line == PREFIX + rest;
    assert line[2..] == rest;
    assert IsWhitespace(' ');
    assert ' ' !in s.name;
    IndexOfFirst(s.name, ' ', b64.encode(raw));
    assert rest == s.name + [' '] + b64.encode(raw);
    assert rest[..|s.name|] == s.name && rest[|s.name| + 1..] == b64.encode(raw);
    assert raw[..4] == FourBytes(s.key_hash) && raw[4..] == s.signature;
    FourBytesInverse(s.key_hash, raw[..4]);
  }

  // ----- Notes -----

  datatype SignedNote = SignedNote(text: string, signatures: seq<NoteSignature>)

  function Utf8Width(c: char): nat {
    if c < '\U{80}' then 1 else if c < '\U{800}' then 2 else if c < '\U{10000}' then 3 else 4
  }

  function Utf8Length(s: string): nat {
    if s == [] then 0 else Utf8Width(s[0]) + Utf8Length(s[1..])
  }

  /** No two signatures come from the same key. */
  predicate DistinctKeys(signatures: seq<NoteSignature>) {
    forall i, j :: 0 <= i < j < |signatures| ==> !SameKey(signatures[i], signatures[j])
  }

  predicate SameKey(a: NoteSignature, b: NoteSignature) {
    a.name == b.name && a.key_hash == b.key_hash
  }

  /** Text that ends in exactly one newline and has no other control character. */
  predicate GoodText(text: string) {
    && text != [] && text[|text| - 1] == '\n' && (|text| > 1 ==> text[|text| - 2] != '\n')
    && forall i :: 0 <= i < |text| ==> text[i] == '\n' || !IsControl(text[i])
  }

  predicate GoodNote(note: SignedNote) {
    && GoodText(note.text) && 0 < |note.signatures| <= MAX_SIGNATURES && DistinctKeys(note.signatures)
    && forall s :: s in note.signatures ==> GoodSignature(s)
  }

  function SignatureLines(b64: Base64, signatures: seq<NoteSignature>): seq<string> {
    seq(|signatures|, i requires 0 <= i < |signatures| => LineOf(b64, signatures[i]))
  }

  function NoteOf(b64: Base64, note: SignedNote): string {
    note.text + "\n" + Unlines(SignatureLines(b64, note.signatures))
  }

  /** `SignedNote::render`: the text, an empty line and the signature lines. */
  method Render(b64: Base64, note: SignedNote) returns (out: string)
    ensures out == NoteOf(b64, note)
  {
    hide Unlines, LineOf;
    out := note.text + "\n";
    NoLines();
    assert SignatureLines(b64, note.signatures[..0]) == [];
    for i := 0 to |note.signatures|
      invariant out == note.text + "\n" + Unlines(SignatureLines(b64, note.signatures[..i]))
    {
      var lines := SignatureLines(b64, note.signatures[..i]);
      UnlinesPush(lines, LineOf(b64, note.signatures[i]));
      assert SignatureLines(b64, note.signatures[..i + 1]) == lines + [LineOf(b64, note.signatures[i])];
      out := out + LineOf(b64, note.signatures[i]) + "\n";
    }
    assert note.signatures[..|note.signatures|] == note.signatures;
  }

  lemma NoLines()
    ensures Unlines([]) == []
  {
  }

  /** Where the last empty line starts, or -1. */
  function LastBlank(s: string): (i: int)
    ensures i == -1 || (0 <= i <= |s| - 2 && s[i] == '\n' == s[i + 1])
    ensures forall j :: i < j <= |s| - 2 && 0 <= j ==> !(s[j] == '\n' == s[j + 1])
  {
    if |s| < 2 then -1
    else
      var rest := LastBlank(s[1..]);
      if rest >= 0 then rest + 1 else if s[0] == '\n' == s[1] then 0 else -1
  }

  /** The signatures of some lines, up to the first that is no signature or repeats a key. */
  function ParseSignatures(b64: Base64, lines: seq<string>): (r: Result<seq<NoteSignature>, TextError>)
    ensures r.Ok? ==> |r.value| <= MAX_SIGNATURES
  {
    if lines == [] then Ok([])
    else
      var before := ParseSignatures(b64, lines[..|lines| - 1]);
      if before.Err? then before
      else if |before.value| == MAX_SIGNATURES then Err(TooManySignatures)
      else
        var sig := ParseLine(b64, lines[|lines| - 1]);
        if sig.Err? then Err(sig.error)
        else if exists i :: 0 <= i < |before.value| && SameKey(before.value[i], sig.value) then Err(DuplicateSignature)
        else Ok(before.value + [sig.value])
  }

  /** `SignedNote::parse`. */
  function ParseNote(b64: Base64, note: string): Result<SignedNote, TextError> {
    if Utf8Length(note) > MAX_NOTE_BYTES then Err(NoteTooLarge)
    else if exists i :: 0 <= i < |note| && IsControl(note[i]) && note[i] != '\n' then Err(MalformedNote)
    else
      var split := LastBlank(note);
      if split < 0 || (split > 0 && note[split - 1] == '\n') then Err(MalformedNote)
      else
        var lines := Lines(note[split + 2..]);
        if lines.None? || lines.value == [] then Err(MalformedNote)
        else
          var signatures := ParseSignatures(b64, lines.value);
          if signatures.Err? then Err(signatures.error) else Ok(SignedNote(note[..split + 1], signatures.value))
  }

  /** The loop over the signature lines. */
  method CollectSignatures(b64: Base64, lines: seq<string>) returns (r: Result<seq<NoteSignature>, TextError>)
    ensures r == ParseSignatures(b64, lines)
  {
    hide ParseLine, SameKey;
    var signatures: seq<NoteSignature> := [];
    for n := 0 to |lines|
      invariant ParseSignatures(b64, lines[..n]) == Ok(signatures)
    {
      assert lines[..n + 1][..n] == lines[..n];
      if |signatures| == MAX_SIGNATURES {
        FirstErrorStays(b64, lines, n + 1);
        return Err(TooManySignatures);
      }
      var sig := ParseLine(b64, lines[n]);
      if sig.Err? {
        FirstErrorStays(b64, lines, n + 1);
        return Err(sig.error);
      }
      var seen := false;
      for i := 0 to |signatures|
        invariant seen <==> exists j :: 0 <= j < i && SameKey(signatures[j], sig.value)
      {
        seen := seen || SameKey(signatures[i], sig.value);
      }
      if seen {
        FirstErrorStays(b64, lines, n + 1);
        return Err(DuplicateSignature);
      }
      signatures := signatures + [sig.value];
    }
    assert lines[..|lines|] == lines;
    return Ok(signatures);
  }

  lemma {:induction false} FirstErrorStays(b64: Base64, lines: seq<string>, n: nat)
    requires n <= |lines| && ParseSignatures(b64, lines[..n]).Err?
    ensures ParseSignatures(b64, lines) == ParseSignatures(b64, lines[..n])
    decreases |lines|
  {
    if n < |lines| {
      assert lines[..|lines| - 1][..n] == lines[..n];
      FirstErrorStays(b64, lines[..|lines| - 1], n);
    } else {
      assert lines[..n] == lines;
    }
  }

  lemma DistinctPush(before: seq<NoteSignature>, sig: NoteSignature)
    ensures DistinctKeys(before + [sig]) <==>
      DistinctKeys(before) && !(exists i :: 0 <= i < |before| && SameKey(before[i], sig))
  {
    var all := before + [sig];
    assert forall i :: 0 <= i < |before| ==> all[i] == before[i];
    assert all[|before|] == sig;
    if DistinctKeys(all) {
      assert forall i, j :: 0 <= i < j < |before| ==> !SameKey(all[i], all[j]);
      assert forall i :: 0 <= i < |before| ==> !SameKey(all[i], all[|before|]);
    }
  }

  lemma LinesPush(b64: Base64, before: seq<NoteSignature>, sig: NoteSignature)
    ensures SignatureLines(b64, before + [sig]) == SignatureLines(b64, before) + [LineOf(b64, sig)]
  {
  }

  /** One more line is one more signature of a new key. */
  lemma ParsePush(b64: Base64, init: seq<string>, last: string, before: seq<NoteSignature>, sig: NoteSignature)
    ensures ParseSignatures(b64, init + [last]) == Ok(before + [sig]) <==>
      && ParseSignatures(b64, init) == Ok(before) && |before| < MAX_SIGNATURES && ParseLine(b64, last) == Ok(sig)
      && forall i :: 0 <= i < |before| ==> !SameKey(before[i], sig)
  {
    hide ParseLine, SameKey;
    assert (init + [last])[..|init|] == init;
    assert (before + [sig])[..|before|] == before && (before + [sig])[|before|] == sig;
    if ParseSignatures(b64, init + [last]) == Ok(before + [sig]) {
      var parsed := ParseSignatures(b64, init).value;
      assert (parsed + [ParseLine(b64, last).value])[..|parsed|] == parsed;
    }
  }

  /** Signatures a note may hold. */
  ghost predicate GoodSignatures(signatures: seq<NoteSignature>) {
    |signatures| <= MAX_SIGNATURES && DistinctKeys(signatures) && forall s :: s in signatures ==> GoodSignature(s)
  }

  lemma GoodPush(before: seq<NoteSignature>, sig: NoteSignature)
    ensures GoodSignatures(before + [sig]) <==>
      && GoodSignatures(before) && |before| < MAX_SIGNATURES && GoodSignature(sig)
      && forall i :: 0 <= i < |before| ==> !SameKey(before[i], sig)
  {
    hide GoodSignature, SameKey, DistinctKeys;
    DistinctPush(before, sig);
    assert forall s :: s in before + [sig] <==> s in before || s == sig;
  }

  /** Signature lines are read from their own text and from nothing else. */
  lemma {:induction false} SignaturesCanonical(b64: Base64, lines: seq<string>, signatures: seq<NoteSignature>)
    requires Standard(b64)
    ensures ParseSignatures(b64, lines) == Ok(signatures) <==>
      lines == SignatureLines(b64, signatures) && GoodSignatures(signatures)
    decreases |lines|
  {
    if lines != [] && signatures != [] {
      hide ParseLine, LineOf, GoodSignature, SameKey, Standard, GoodSignatures, ParseSignatures, SignatureLines;
      var init, last := lines[..|lines| - 1], lines[|lines| - 1];
      var before, sig := signatures[..|signatures| - 1], signatures[|signatures| - 1];
      assert lines == init + [last] && signatures == before + [sig];
      SignaturesCanonical(b64, init, before);
      LineCanonical(b64, last, sig);
      ParsePush(b64, init, last, before, sig);
      GoodPush(before, sig);
      LinesPush(b64, before, sig);
      CutLast(init, last, SignatureLines(b64, before), LineOf(b64, sig));
    }
  }

  lemma CutLast<T>(a: seq<T>, x: T, b: seq<T>, y: T)
    ensures a + [x] == b + [y] <==> a == b && x == y
  {
    if a + [x] == b + [y] {
      assert a == (a + [x])[..|a|] && b == (b + [y])[..|b|];
      assert (a + [x])[|a|] == (b + [y])[|b|];
    }
  }

  predicate NoBlankIn(s: string) {
    forall j :: 0 <= j < |s| - 1 ==> !(s[j] == '\n' == s[j + 1])
  }

  lemma {:induction false} NoBlankLines(lines: seq<string>)
    requires lines != [] && forall l :: l in lines ==> ValidLine(l)
    ensures Unlines(lines) != [] && Unlines(lines)[0] != '\n' && NoBlankIn(Unlines(lines))
    ensures forall i :: 0 <= i < |Unlines(lines)| ==> Unlines(lines)[i] == '\n' || !IsControl(Unlines(lines)[i])
  {
    var l, rest := lines[0], Unlines(lines[1..]);
    assert l in lines;
    PrintableIsOneLine(l);
    assert lines == [l] + lines[1..];
    if |lines| > 1 {
      NoBlankLines(lines[1..]);
    }
    NoBlankJoin(l, rest);
  }

  lemma NoBlankJoin(l: string, rest: string)
    requires ValidLine(l) && OneLine(l) && NoBlankIn(rest) && (rest != [] ==> rest[0] != '\n')
    requires forall i :: 0 <= i < |rest| ==> rest[i] == '\n' || !IsControl(rest[i])
    ensures var s := l + "\n" + rest;
      && s[0] != '\n' && NoBlankIn(s) && forall i :: 0 <= i < |s| ==> s[i] == '\n' || !IsControl(s[i])
  {
    hide IsControl;
    var s := l + "\n" + rest;
    assert s[0] == l[0] && l[0] in l;
    forall j | 0 <= j < |s| - 1
      ensures !(s[j] == '\n' == s[j + 1])
    {
      if j < |l| {
        assert s[j] == l[j] && l[j] in l;
      } else if j == |l| {
        assert s[j + 1] == rest[0];
      } else {
        assert s[j] == rest[j - |l| - 1] && s[j + 1] == rest[j - |l|];
      }
    }
  }

  lemma LinesValid(b64: Base64, signatures: seq<NoteSignature>)
    requires Standard(b64) && forall s :: s in signatures ==> GoodSignature(s)
    ensures forall l :: l in SignatureLines(b64, signatures) ==> ValidLine(l)
  {
    forall l | l in SignatureLines(b64, signatures)
      ensures ValidLine(l)
    {
      var i :| 0 <= i < |signatures| && LineOf(b64, signatures[i]) == l;
      assert signatures[i] in signatures;
      LineValid(b64, signatures[i]);
    }
  }

  lemma LineValid(b64: Base64, s: NoteSignature)
    requires Standard(b64) && GoodSignature(s)
    ensures ValidLine(LineOf(b64, s))
  {
    var raw := FourBytes(s.key_hash) + s.signature;
    assert Plain(b64.encode(raw));
    assert !IsControl(PREFIX[0]) && !IsControl(PREFIX[1]);
    hide IsControl, IsWhitespace;
    assert Printable(PREFIX + s.name + " ");
  }

  /** The signatures start after the last empty line, and a rendered note has its own there. */
  lemma BlankFound(text: string, block: string)
    requires GoodText(text) && block != [] && block[0] != '\n' && NoBlankIn(block)
    ensures LastBlank(text + "\n" + block) == |text| - 1
  {
    hide IsControl, LastBlank;
    var s, at := text + "\n" + block, |text| - 1;
    assert s[at] == '\n' == s[at + 1];
    forall j | at < j <= |s| - 2
      ensures !(s[j] == '\n' == s[j + 1])
    {
      if j == |text| {
        assert s[j + 1] == block[0];
      } else {
        assert s[j] == block[j - |text| - 1] && s[j + 1] == block[j - |text|];
      }
    }
  }

  lemma NoteIsRead(b64: Base64, note: SignedNote)
    requires Standard(b64) && GoodNote(note) && Utf8Length(NoteOf(b64, note)) <= MAX_NOTE_BYTES
    ensures ParseNote(b64, NoteOf(b64, note)) == Ok(note)
  {
    hide Standard, IsControl, GoodSignature, LineOf, Unlines, Lines, DistinctKeys, ParseSignatures, LastBlank, Utf8Length;
    var lines := SignatureLines(b64, note.signatures);
    var block, text := Unlines(lines), note.text;
    var n := text + "\n" + block;
    LinesValid(b64, note.signatures);
    NoBlankLines(lines);
    BlankFound(text, block);
    forall l | l in lines
      ensures OneLine(l)
    {
      PrintableIsOneLine(l);
    }
    LinesOfUnlines(lines);
    SignaturesCanonical(b64, lines, note.signatures);
    assert n[..|text|] == text && n[|text| + 1..] == block;
    assert forall i :: 0 <= i < |n| ==> n[i] == if i < |text| then text[i] else if i == |text| then '\n' else block[i - |text| - 1];
  }

  lemma NoteIsRendered(b64: Base64, n: string)
    requires Standard(b64) && ParseNote(b64, n).Ok?
    ensures GoodNote(ParseNote(b64, n).value) && NoteOf(b64, ParseNote(b64, n).value) == n
  {
    hide Standard, IsControl, GoodSignature, LineOf, Unlines, Lines, DistinctKeys, ParseSignatures, LastBlank, Utf8Length;
    var split := LastBlank(n);
    var lines := Lines(n[split + 2..]).value;
    var note := ParseNote(b64, n).value;
    UnlinesOfLines(n[split + 2..]);
    SignaturesCanonical(b64, lines, note.signatures);
    assert n == n[..split + 1] + "\n" + n[split + 2..];
  }

  /** A note is read from its own text and from nothing else. */
  lemma NoteCanonical(b64: Base64, n: string, note: SignedNote)
    requires Standard(b64)
    ensures ParseNote(b64, n) == Ok(note) <==> GoodNote(note) && NoteOf(b64, note) == n && Utf8Length(n) <= MAX_NOTE_BYTES
  {
    hide Standard, GoodNote, NoteOf, Utf8Length;
    if ParseNote(b64, n) == Ok(note) {
      NoteIsRendered(b64, n);
    }
    if GoodNote(note) && NoteOf(b64, note) == n && Utf8Length(n) <= MAX_NOTE_BYTES {
      NoteIsRead(b64, note);
    }
  }

  /** `add_signature`: a good note stays good, and a second line of a key or one too many is refused. */
  method AddSignature(note: SignedNote, sig: NoteSignature) returns (r: Result<SignedNote, TextError>)
    ensures (exists i :: 0 <= i < |note.signatures| && SameKey(note.signatures[i], sig)) ==> r == Err(DuplicateSignature)
    ensures (forall i :: 0 <= i < |note.signatures| ==> !SameKey(note.signatures[i], sig)) ==>
      r == if |note.signatures| == MAX_SIGNATURES then Err(TooManySignatures)
           else Ok(note.(signatures := note.signatures + [sig]))
    ensures GoodNote(note) && GoodSignature(sig) ==> (r.Ok? <==> GoodNote(note.(signatures := note.signatures + [sig])))
  {
    hide SameKey, GoodText, GoodSignature;
    DistinctPush(note.signatures, sig);
    for i := 0 to |note.signatures|
      invariant forall j :: 0 <= j < i ==> !SameKey(note.signatures[j], sig)
    {
      if SameKey(note.signatures[i], sig) {
        return Err(DuplicateSignature);
      }
    }
    if |note.signatures| == MAX_SIGNATURES {
      return Err(TooManySignatures);
    }
    return Ok(note.(signatures := note.signatures + [sig]));
  }
}
