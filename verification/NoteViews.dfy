/** The notes the auditor works on, as views of the texts that are exchanged. */
module NoteViews {
  import opened Wrappers
  import opened Merkle
  import T = CheckpointText
  import N = Notes

  /** The text codec, and what root bytes and signature bytes stand for. */
  datatype Reading = Reading(b64: T.Base64, hash: seq<byte> -> Hash, sig: seq<byte> -> N.SignatureBytes)

  /** Different bytes stand for different hashes and different signatures. */
  ghost predicate Faithful(r: Reading) {
    && T.Standard(r.b64)
    && (forall a, b :: r.hash(a) == r.hash(b) ==> a == b)
    && (forall a, b :: r.sig(a) == r.sig(b) ==> a == b)
  }

  function ViewCheckpoint(r: Reading, c: T.Checkpoint): N.Checkpoint {
    N.Checkpoint(c.origin, TreeHead(c.size, r.hash(c.root)), c.extensions)
  }

  function ViewText(r: Reading, text: string): N.NoteText {
    match T.ParseCheckpoint(r.b64, text)
    case Ok(c) => N.Body(ViewCheckpoint(r, c))
    case Err(_) => N.OtherText(text)
  }

  function ViewSignature(r: Reading, s: T.NoteSignature): N.NoteSignature {
    N.NoteSignature(s.name, s.key_hash, r.sig(s.signature))
  }

  function ViewSignatures(r: Reading, signatures: seq<T.NoteSignature>): (v: seq<N.NoteSignature>)
    ensures |v| == |signatures|
    ensures forall i :: 0 <= i < |v| ==> v[i] == ViewSignature(r, signatures[i])
  {
    if signatures == [] then [] else [ViewSignature(r, signatures[0])] + ViewSignatures(r, signatures[1..])
  }

  function ViewNote(r: Reading, note: T.SignedNote): N.SignedNote {
    N.SignedNote(ViewText(r, note.text), ViewSignatures(r, note.signatures))
  }

  /** A signature over a view is a signature over one text: views of texts are equal only if the texts are. */
  lemma ViewTextExact(r: Reading, a: string, b: string)
    requires Faithful(r)
    ensures ViewText(r, a) == ViewText(r, b) <==> a == b
  {
    var x, y := T.ParseCheckpoint(r.b64, a), T.ParseCheckpoint(r.b64, b);
    if ViewText(r, a) == ViewText(r, b) && x.Ok? && y.Ok? {
      assert x.value == y.value;
      T.CheckpointCanonical(r.b64, a, x.value);
      T.CheckpointCanonical(r.b64, b, y.value);
    }
  }

  lemma ViewSignaturesExact(r: Reading, a: seq<T.NoteSignature>, b: seq<T.NoteSignature>)
    requires Faithful(r) && ViewSignatures(r, a) == ViewSignatures(r, b)
    ensures a == b
  {
    forall i | 0 <= i < |a|
      ensures a[i] == b[i]
    {
      assert ViewSignatures(r, a)[i] == ViewSignature(r, a[i]) && ViewSignatures(r, b)[i] == ViewSignature(r, b[i]);
    }
  }

  /** Two note texts that parse have the same view exactly when they are the same text. */
  lemma ViewNoteExact(r: Reading, m: string, n: string)
    requires Faithful(r) && T.ParseNote(r.b64, m).Ok? && T.ParseNote(r.b64, n).Ok?
    ensures ViewNote(r, T.ParseNote(r.b64, m).value) == ViewNote(r, T.ParseNote(r.b64, n).value) <==> m == n
  {
    hide T.ParseNote, T.NoteOf, T.GoodNote, ViewText, ViewSignatures, Faithful;
    var x, y := T.ParseNote(r.b64, m).value, T.ParseNote(r.b64, n).value;
    assert T.Standard(r.b64) by {
      FaithfulIsStandard(r);
    }
    T.NoteCanonical(r.b64, m, x);
    T.NoteCanonical(r.b64, n, y);
    ViewTextExact(r, x.text, y.text);
    if ViewNote(r, x) == ViewNote(r, y) {
      ViewSignaturesExact(r, x.signatures, y.signatures);
    }
  }

  lemma FaithfulIsStandard(r: Reading)
    requires Faithful(r)
    ensures T.Standard(r.b64)
  {
  }

  // ----- What the auditor asks of a note -----

  lemma {:induction false} NewlinesJoin(a: string, b: string)
    ensures N.Newlines(a + b) == N.Newlines(a) + N.Newlines(b)
  {
    if a == [] {
      assert a + b == b;
    } else {
      NewlinesJoin(a[1..], b);
      assert (a + b)[1..] == a[1..] + b;
    }
  }

  lemma {:induction false} LinesHaveNewlines(lines: seq<string>)
    ensures N.Newlines(T.Unlines(lines)) >= |lines|
  {
    if lines != [] {
      LinesHaveNewlines(lines[1..]);
      NewlinesJoin(lines[0] + "\n", T.Unlines(lines[1..]));
      NewlinesJoin(lines[0], "\n");
      assert N.Newlines("\n") == 1 + N.Newlines("\n"[1..]) == 1;
    }
  }

  /** The three lines a cosigned note needs are asked of the text itself; a checkpoint body has them. */
  lemma ThreeLines(r: Reading, text: string)
    requires Faithful(r)
    ensures N.HasThreeLines(ViewText(r, text)) <==> 3 <= N.Newlines(text)
  {
    var c := T.ParseCheckpoint(r.b64, text);
    if c.Ok? {
      T.CheckpointCanonical(r.b64, text, c.value);
      LinesHaveNewlines(T.BodyLines(r.b64, c.value));
    }
  }

  lemma {:induction false} FirstFrom(r: Reading, signatures: seq<T.NoteSignature>, key: N.NoteVerifier)
    ensures var found := N.SignatureFrom(ViewSignatures(r, signatures), key);
      && (found.Some? <==> exists i :: 0 <= i < |signatures| && Of(signatures[i], key))
      && (found.Some? ==>
            exists i :: 0 <= i < |signatures| && Of(signatures[i], key) && found.value == r.sig(signatures[i].signature))
  {
    if signatures != [] {
      FirstFrom(r, signatures[1..], key);
      assert ViewSignatures(r, signatures)[1..] == ViewSignatures(r, signatures[1..]);
      assert forall i :: 1 <= i < |signatures| ==> signatures[i] == signatures[1..][i - 1];
      if i :| 0 <= i < |signatures[1..]| && Of(signatures[1..][i], key) {
        assert Of(signatures[i + 1], key);
      }
    }
  }

  predicate Of(s: T.NoteSignature, key: N.NoteVerifier) {
    s.name == key.name && s.key_hash == key.key_hash
  }

  /** In a note that parses, a key's signature is on its only line. */
  lemma OnlySignatureOf(r: Reading, n: string, key: N.NoteVerifier, i: nat)
    requires Faithful(r) && T.ParseNote(r.b64, n).Ok?
    requires i < |T.ParseNote(r.b64, n).value.signatures| && Of(T.ParseNote(r.b64, n).value.signatures[i], key)
    ensures var note := T.ParseNote(r.b64, n).value;
      N.SignatureFrom(ViewNote(r, note).signatures, key) == Some(r.sig(note.signatures[i].signature))
  {
    hide T.ParseNote;
    var note := T.ParseNote(r.b64, n).value;
    T.NoteCanonical(r.b64, n, note);
    FirstFrom(r, note.signatures, key);
    forall j | 0 <= j < |note.signatures| && Of(note.signatures[j], key)
      ensures j == i
    {
      assert T.SameKey(note.signatures[i], note.signatures[j]);
    }
  }
}
