/**
 * Signed notes as the auditor reads them. Ed25519 signatures are free constructors: a signature
 * verifies for exactly the key and the message it was made with.
 */
module Notes {
  import opened Wrappers
  import opened Merkle

  const ALG_ED25519: nat := 0x01
  const ALG_COSIGNATURE_V1: nat := 0x04
  const MAX_COSIGNATURE_TIME: nat := 0x7FFF_FFFF_FFFF_FFFF

  type PublicKey = nat

  datatype NoteVerifier = NoteVerifier(name: string, algorithm: nat, key_hash: nat, key: PublicKey)

  datatype Checkpoint = Checkpoint(origin: string, head: TreeHead, extensions: seq<string>)

  /** The signed text: the canonical body of a checkpoint, or text that is not one. */
  datatype NoteText = Body(checkpoint: Checkpoint) | OtherText(text: string)

  datatype SignatureBytes =
    | NoteSig(key: PublicKey, text: NoteText)
    | CosignatureV1(time: nat, key: PublicKey, text: NoteText)
    | OtherBytes(bytes: seq<byte>)

  datatype NoteSignature = NoteSignature(name: string, key_hash: nat, signature: SignatureBytes)

  datatype SignedNote = SignedNote(text: NoteText, signatures: seq<NoteSignature>)

  datatype CheckpointError =
    | MalformedNote
    | MalformedCheckpoint
    | WrongAlgorithm(algorithm: nat)
    | NotSigned(name: string)
    | BadSignature(name: string)
    | BadTimestamp(time: nat)

  /** The checkpoint the text encodes. */
  function CheckpointOf(note: SignedNote): Result<Checkpoint, CheckpointError> {
    match note.text
    case Body(c) => Ok(c)
    case OtherText(_) => Err(MalformedCheckpoint)
  }

  function Newlines(s: string): nat {
    if s == "" then 0 else (if s[0] == '\n' then 1 else 0) + Newlines(s[1..])
  }

  /** Whether the text has the three lines a cosigned note needs; a checkpoint body always has. */
  predicate HasThreeLines(text: NoteText) {
    match text
    case Body(_) => true
    case OtherText(s) => 3 <= Newlines(s)
  }

  /** `signature_from`: the first line from this key. */
  function SignatureFrom(signatures: seq<NoteSignature>, key: NoteVerifier): Option<SignatureBytes> {
    if signatures == [] then None
    else if signatures[0].name == key.name && signatures[0].key_hash == key.key_hash then Some(signatures[0].signature)
    else SignatureFrom(signatures[1..], key)
  }

  /** `SignedNote::verify`. */
  function Verify(note: SignedNote, key: NoteVerifier): Outcome<CheckpointError> {
    if key.algorithm != ALG_ED25519 then Fail(WrongAlgorithm(key.algorithm))
    else match SignatureFrom(note.signatures, key)
      case None => Fail(NotSigned(key.name))
      case Some(sig) => if sig == NoteSig(key.key, note.text) then Pass else Fail(BadSignature(key.name))
  }

  /** `SignedNote::cosignature_time`. */
  function CosignatureTime(note: SignedNote, key: NoteVerifier): Result<nat, CheckpointError> {
    if key.algorithm != ALG_COSIGNATURE_V1 then Err(WrongAlgorithm(key.algorithm))
    else match SignatureFrom(note.signatures, key)
      case None => Err(NotSigned(key.name))
      case Some(CosignatureV1(time, signer, text)) =>
        if time == 0 || time > MAX_COSIGNATURE_TIME then Err(BadTimestamp(time))
        else if !HasThreeLines(note.text) then Err(MalformedNote)
        else if signer == key.key && text == note.text then Ok(time)
        else Err(BadSignature(key.name))
      case Some(_) => Err(BadSignature(key.name))
  }

  // ----- A signature belongs to one key and one text -----

  predicate Of(s: NoteSignature, key: NoteVerifier) {
    s.name == key.name && s.key_hash == key.key_hash
  }

  /** The first line of the note under the name and hash of `key` carries `sig`. */
  ghost predicate FirstLine(note: SignedNote, key: NoteVerifier, sig: SignatureBytes) {
    exists i ::
      && 0 <= i < |note.signatures|
      && note.signatures[i] == NoteSignature(key.name, key.key_hash, sig)
      && forall j :: 0 <= j < i ==> !Of(note.signatures[j], key)
  }

  /** No line of the note is under the name and hash of `key`. */
  ghost predicate Unsigned(note: SignedNote, key: NoteVerifier) {
    forall s :: s in note.signatures ==> !Of(s, key)
  }

  /** Where the first line of a key is. */
  lemma {:induction false} LineOf(signatures: seq<NoteSignature>, key: NoteVerifier) returns (i: nat)
    ensures i <= |signatures| && forall j :: 0 <= j < i ==> !Of(signatures[j], key)
    ensures i < |signatures| ==> Of(signatures[i], key) && SignatureFrom(signatures, key) == Some(signatures[i].signature)
    ensures i == |signatures| ==> SignatureFrom(signatures, key) == None
    decreases |signatures|
  {
    i := 0;
    if signatures != [] && !Of(signatures[0], key) {
      i := LineOf(signatures[1..], key);
      i := i + 1;
      assert forall j :: 1 <= j < i ==> signatures[j] == signatures[1..][j - 1];
    }
  }

  lemma FoundLine(note: SignedNote, key: NoteVerifier, sig: SignatureBytes)
    ensures SignatureFrom(note.signatures, key) == Some(sig) <==> FirstLine(note, key, sig)
    ensures SignatureFrom(note.signatures, key) == None <==> Unsigned(note, key)
  {
    hide SignatureFrom;
    var i := LineOf(note.signatures, key);
    if i < |note.signatures| {
      assert note.signatures[i] in note.signatures;
      assert note.signatures[i] == NoteSignature(key.name, key.key_hash, note.signatures[i].signature);
    }
    if FirstLine(note, key, sig) {
      var k :| 0 <= k < |note.signatures| && note.signatures[k] == NoteSignature(key.name, key.key_hash, sig)
        && forall j :: 0 <= j < k ==> !Of(note.signatures[j], key);
      assert Of(note.signatures[k], key) && k == i;
    }
  }

  /** A note passes for a key exactly when the key's first line is the signature of that key over the note's text. */
  lemma VerifiesExactly(note: SignedNote, key: NoteVerifier)
    ensures Verify(note, key).Pass? <==> key.algorithm == ALG_ED25519 && FirstLine(note, key, NoteSig(key.key, note.text))
    ensures key.algorithm == ALG_ED25519 && Unsigned(note, key) ==> Verify(note, key) == Fail(NotSigned(key.name))
    ensures key.algorithm == ALG_ED25519 && !Unsigned(note, key) && Verify(note, key).Fail? ==>
      Verify(note, key) == Fail(BadSignature(key.name))
  {
    FoundLine(note, key, NoteSig(key.key, note.text));
  }

  /** A cosignature gives a time exactly when the witness's first line is its signature over that time and the text. */
  lemma CosignedExactly(note: SignedNote, key: NoteVerifier, time: nat)
    ensures CosignatureTime(note, key) == Ok(time) <==>
      && key.algorithm == ALG_COSIGNATURE_V1 && 0 < time <= MAX_COSIGNATURE_TIME && HasThreeLines(note.text)
      && FirstLine(note, key, CosignatureV1(time, key.key, note.text))
  {
    FoundLine(note, key, CosignatureV1(time, key.key, note.text));
  }

  /** The same lines under another text pass for no key they passed for. */
  lemma ExchangedText(note: SignedNote, key: NoteVerifier, t: NoteText)
    requires t != note.text
    ensures Verify(note, key).Pass? ==> Verify(note.(text := t), key) == Fail(BadSignature(key.name))
    ensures CosignatureTime(note, key).Ok? ==> CosignatureTime(note.(text := t), key).Err?
  {
  }

  /** Nor do lines of another key under the same name and hash. */
  lemma ExchangedKey(note: SignedNote, key: NoteVerifier, other: PublicKey)
    requires other != key.key
    ensures Verify(note, key).Pass? ==> Verify(note, key.(key := other)) == Fail(BadSignature(key.name))
    ensures CosignatureTime(note, key).Ok? ==> CosignatureTime(note, key.(key := other)) == Err(BadSignature(key.name))
  {
    SameLines(note.signatures, key, other);
  }

  lemma {:induction false} SameLines(signatures: seq<NoteSignature>, key: NoteVerifier, other: PublicKey)
    ensures SignatureFrom(signatures, key.(key := other)) == SignatureFrom(signatures, key)
  {
    if signatures != [] {
      SameLines(signatures[1..], key, other);
    }
  }
}
