/**
 * The auditor: one party's append-only view of a log, what comparing it with another view proves,
 * and when a revoked key still counts.
 */
module Audit {
  import opened Wrappers
  import opened Powers
  import opened Merkle
  import opened MerkleVerify
  import opened Notes
  import opened Quorum

  // ----- Append-only runs -----

  /** A leaf list is fixed by its size and root. */
  lemma {:induction false} RootInjective(d: seq<Hash>, e: seq<Hash>)
    requires |d| == |e| && RootOf(d) == RootOf(e)
    ensures d == e
    decreases |d|
  {
    if |d| > 1 {
      var k := Split(|d|);
      RootInjective(d[..k], e[..k]);
      RootInjective(d[k..], e[k..]);
      assert d == d[..k] + d[k..] && e == e[..k] + e[k..];
    }
  }

  /** One accepted step from `old_head` to `new_head`, with its proof. */
  predicate Extends(old_head: TreeHead, new_head: TreeHead, proof: seq<Hash>) {
    && old_head.size <= new_head.size
    && (old_head.size == new_head.size ==> old_head.root == new_head.root)
    && (0 < old_head.size ==> ConsistencyVerdict(old_head, new_head, proof).Pass?)
  }

  /** Heads accepted one after the other, each with a proof from the one before. */
  ghost predicate IsRun(heads: seq<TreeHead>, proofs: seq<seq<Hash>>) {
    && |proofs| == |heads|
    && forall i :: 0 < i < |heads| ==> StepAt(heads, proofs, i)
  }

  ghost predicate StepAt(heads: seq<TreeHead>, proofs: seq<seq<Hash>>, i: nat)
    requires 0 < i < |heads| == |proofs|
  {
    Extends(heads[i - 1], heads[i], proofs[i])
  }

  /** Head `h` is what a log with leaves `d` shows for its first `h.size` leaves. */
  predicate PrefixHead(h: TreeHead, d: seq<Hash>) {
    h.size <= |d| && h == HeadOf(d[..h.size])
  }

  lemma {:induction false} SizesGrow(heads: seq<TreeHead>, proofs: seq<seq<Hash>>, i: nat, j: nat)
    requires IsRun(heads, proofs) && i <= j < |heads|
    ensures heads[i].size <= heads[j].size
    decreases j
  {
    if i < j {
      assert StepAt(heads, proofs, j);
      SizesGrow(heads, proofs, i, j - 1);
    }
  }

  /**
   * In every run, once a head is the head of leaf list `d`, every earlier accepted head of non-zero
   * size is the head of a prefix of `d`.
   */
  lemma {:induction false} RunIsPrefixes(heads: seq<TreeHead>, proofs: seq<seq<Hash>>, i: nat, j: nat, d: seq<Hash>)
    requires IsRun(heads, proofs) && i <= j < |heads|
    requires heads[j] == HeadOf(d) && 0 < heads[i].size
    ensures PrefixHead(heads[i], d)
    decreases j
  {
    hide HeadOf, ConsistencyVerdict;
    HeadSize(d);
    if i == j {
      assert d[..|d|] == d;
    } else {
      assert StepAt(heads, proofs, j);
      SizesGrow(heads, proofs, i, j - 1);
      ConsistencyExact(d, heads[j - 1], proofs[j]);
      var e := d[..heads[j - 1].size];
      RunIsPrefixes(heads, proofs, i, j - 1, e);
      assert e[..heads[i].size] == d[..heads[i].size];
    }
  }

  lemma HeadSize(d: seq<Hash>)
    ensures HeadOf(d).size == |d|
  {
  }

  /** And every record proven against any head of the run is that record of `d`. */
  lemma RecordsStay(
    heads: seq<TreeHead>, proofs: seq<seq<Hash>>, i: nat, j: nat, d: seq<Hash>,
    index: nat, leaf: Hash, proof: seq<Hash>
  )
    requires IsRun(heads, proofs) && i <= j < |heads| && heads[j] == HeadOf(d)
    requires InclusionVerdict(heads[i], index, leaf, proof).Pass?
    ensures index < |d| && d[index] == leaf
  {
    RunIsPrefixes(heads, proofs, i, j, d);
    InclusionExact(d[..heads[i].size], index, leaf, proof);
  }

  // ----- The auditor -----

  datatype AuditError =
    | BadQuorum(error: QuorumError)
    | WrongOrigin(got: string, want: string)
    | Shrinking
    | Inconsistent
    | Stale
    | NoCheckpoint
    | BadRecord(cause: MerkleError)

  datatype RecordProof = RecordProof(index: nat, tree_size: nat, seen_by: nat)

  datatype SplitView = SplitView(first: SignedNote, second: SignedNote)

  datatype Comparison = Consistent | Forked(evidence: SplitView)

  function SaturatingAdd(a: nat, b: nat): nat {
    if a + b > U64_MAX then U64_MAX else a + b
  }

  function SaturatingSub(a: nat, b: nat): nat {
    if a < b then 0 else a - b
  }

  /** `SplitView::verify`. */
  function VerifySplitView(v: SplitView, log: NoteVerifier): Outcome<AuditError> {
    match Verify(v.first, log)
    case Fail(e) => Fail(BadQuorum(NoteRefused(e)))
    case Pass =>
      match Verify(v.second, log)
      case Fail(e) => Fail(BadQuorum(NoteRefused(e)))
      case Pass =>
        match (CheckpointOf(v.first), CheckpointOf(v.second))
        case (Err(e), _) => Fail(BadQuorum(NoteRefused(e)))
        case (_, Err(e)) => Fail(BadQuorum(NoteRefused(e)))
        case (Ok(a), Ok(b)) =>
          if a.origin == b.origin && a.head.size == b.head.size && a.head.root != b.head.root then Pass
          else Fail(Inconsistent)
  }

  /** Split-view evidence is proof: no single leaf list explains both signed heads. */
  lemma SplitViewIsProof(v: SplitView, log: NoteVerifier, d: seq<Hash>)
    requires VerifySplitView(v, log).Pass?
    ensures v.first.text.Body? && v.second.text.Body?
    ensures !(PrefixHead(v.first.text.checkpoint.head, d) && PrefixHead(v.second.text.checkpoint.head, d))
  {
  }

  /** Evidence verifies exactly when the log signed two checkpoints of one origin and size with different roots. */
  lemma SplitViewExact(v: SplitView, log: NoteVerifier)
    ensures VerifySplitView(v, log).Pass? <==>
      && Verify(v.first, log).Pass? && Verify(v.second, log).Pass?
      && exists origin, size, x, y, ex, ey ::
           x != y && v.first.text == Body(Checkpoint(origin, TreeHead(size, x), ex))
           && v.second.text == Body(Checkpoint(origin, TreeHead(size, y), ey))
  {
    hide Verify;
    if VerifySplitView(v, log).Pass? {
      var a, b := v.first.text.checkpoint, v.second.text.checkpoint;
      assert v.first.text == Body(Checkpoint(a.origin, TreeHead(a.head.size, a.head.root), a.extensions));
      assert v.second.text == Body(Checkpoint(a.origin, TreeHead(a.head.size, b.head.root), b.extensions));
    }
  }

  /** A cosignature counts exactly when it is dated no more than the allowed skew ahead of the clock. */
  lemma SkewAllowed(now: nat, skew: nat, time: nat)
    requires time <= MAX_COSIGNATURE_TIME
    ensures Counts(time, Some(SaturatingAdd(now, skew))) <==> time <= now + skew
    ensures SaturatingAdd(now, skew) <= U64_MAX
  {
  }

  /** What an accepted note is, and when its quorum was last together. */
  lemma Witnessing(
    note: Result<SignedNote, CheckpointError>, log: NoteVerifier, policy: WitnessPolicy, latest: Option<nat>, t: nat
  )
    requires ValidPolicy(policy) && VerifyQuorum(note, log, policy, latest).Ok?
    ensures && note.Ok? && Verify(note.value, log).Pass? && note.value.text.Body?
            && policy.threshold <= |Signers(policy.witnesses, note.value, latest)|
    ensures var w := VerifyQuorum(note, log, policy, latest).value;
            && w.note == note.value && Body(w.checkpoint) == note.value.text && w.Valid()
            && (w.FreshAsOf() >= t <==> policy.threshold <= DatedSince(Counted(policy, note.value, latest), t))
  {
    assert note.Ok?;
    hide VerifyQuorum, Verify, Signers, Counted, DatedSince;
    QuorumMeaning(note.value, log, policy, latest);
    QuorumTimes(note.value, log, policy, latest, t);
  }

  class Auditor {
    const log: NoteVerifier
    const origin: string
    const policy: WitnessPolicy
    const max_age: Option<nat>
    const max_skew: nat
    var latest: Option<Witnessed>
    /** Every head accepted so far, oldest first, and the proof each came with. */
    ghost var heads: seq<TreeHead>
    ghost var proofs: seq<seq<Hash>>

    ghost predicate Valid()
      reads this
    {
      && ValidPolicy(policy)
      && IsRun(heads, proofs)
      && (latest.None? <==> heads == [])
      && (latest.Some? ==>
            && latest.value.Valid() && latest.value.checkpoint.head == heads[|heads| - 1]
            && latest.value.checkpoint.origin == origin
            && Body(latest.value.checkpoint) == latest.value.note.text && Verify(latest.value.note, log).Pass?)
    }

    constructor (origin: string, log: NoteVerifier, policy: WitnessPolicy, max_age: Option<nat>, max_skew: nat)
      requires ValidPolicy(policy)
      ensures Valid() && heads == [] && latest == None
      ensures this.origin == origin && this.log == log && this.policy == policy
      ensures this.max_age == max_age && this.max_skew == max_skew
    {
      this.origin, this.log, this.policy := origin, log, policy;
      this.max_age, this.max_skew := max_age, max_skew;
      latest, heads, proofs := None, [], [];
    }

    /** The log signed a checkpoint, and enough listed witnesses did so no later than the clock allows. */
    ghost predicate Witnesses(note: Result<SignedNote, CheckpointError>, now: nat) {
      && note.Ok? && Verify(note.value, log).Pass? && note.value.text.Body?
      && policy.threshold <= |Signers(policy.witnesses, note.value, Some(SaturatingAdd(now, max_skew)))|
    }

    /** If there is an age limit, enough of them did so no longer ago than it. */
    predicate Recent(note: SignedNote, now: nat) {
      max_age.Some? && max_age.value < now ==>
        policy.threshold <= DatedSince(Counted(policy, note, Some(SaturatingAdd(now, max_skew))), now - max_age.value)
    }

    /** `check`: what passes is exactly a quorum's recent checkpoint of this origin. */
    function Check(note: Result<SignedNote, CheckpointError>, now: nat): (r: Result<Witnessed, AuditError>)
      requires ValidPolicy(policy)
      ensures r.Ok? <==> Witnesses(note, now) && note.value.text.checkpoint.origin == origin && Recent(note.value, now)
      ensures r.Ok? ==>
        && r.value.note == note.value && Body(r.value.checkpoint) == note.value.text && r.value.Valid()
        && VerifyQuorum(note, log, policy, Some(SaturatingAdd(now, max_skew))) == Ok(r.value)
      ensures !Witnesses(note, now) ==>
        var q := VerifyQuorum(note, log, policy, Some(SaturatingAdd(now, max_skew)));
        q.Err? && r == Err(BadQuorum(q.error))
      ensures Witnesses(note, now) && r.Err? ==>
        var got := note.value.text.checkpoint.origin;
        r == Err(if got != origin then WrongOrigin(got, origin) else Stale)
    {
      hide VerifyQuorum, Verify, Signers, Counted, DatedSince;
      match VerifyQuorum(note, log, policy, Some(SaturatingAdd(now, max_skew)))
      case Err(e) =>
        NotWitnessed(note, log, policy, Some(SaturatingAdd(now, max_skew)));
        Err(BadQuorum(e))
      case Ok(w) =>
        Witnessing(note, log, policy, Some(SaturatingAdd(now, max_skew)),
                   if max_age.Some? && max_age.value < now then now - max_age.value else 0);
        if w.checkpoint.origin != origin then Err(WrongOrigin(w.checkpoint.origin, origin))
        else if max_age.Some? && SaturatingSub(now, w.FreshAsOf()) > max_age.value then Err(Stale)
        else Ok(w)
    }

    /** `advance`. */
    method Advance(note: Result<SignedNote, CheckpointError>, proof: seq<Hash>, now: nat)
      returns (r: Result<Witnessed, AuditError>)
      requires Valid()
      modifies this
      ensures Valid()
      ensures r.Ok? <==> Check(note, now).Ok? && (old(latest).Some? ==>
                           Extends(old(latest).value.checkpoint.head, Check(note, now).value.checkpoint.head, proof))
      ensures r.Ok? ==>
        && r == Check(note, now) && latest == Some(r.value)
        && heads == old(heads) + [r.value.checkpoint.head] && proofs == old(proofs) + [proof]
      ensures r.Err? ==> latest == old(latest) && heads == old(heads) && proofs == old(proofs)
      ensures Check(note, now).Err? ==> r == Check(note, now)
      ensures Check(note, now).Ok? && r.Err? ==>
        r == Err(if Check(note, now).value.checkpoint.head.size < old(latest).value.checkpoint.head.size then Shrinking
                 else Inconsistent)
    {
      var next := Check(note, now);
      if next.Err? {
        return next;
      }
      if latest.Some? {
        var old_head, new_head := latest.value.checkpoint.head, next.value.checkpoint.head;
        if new_head.size < old_head.size {
          return Err(Shrinking);
        }
        if new_head.size == old_head.size && new_head.root != old_head.root {
          return Err(Inconsistent);
        }
        if old_head.size > 0 {
          var verdict := VerifyConsistency(old_head, new_head, proof);
          if verdict.Fail? {
            return Err(Inconsistent);
          }
        }
        assert Extends(old_head, new_head, proof);
      }
      RunGrows(heads, proofs, next.value.checkpoint.head, proof);
      latest := Some(next.value);
      heads, proofs := heads + [next.value.checkpoint.head], proofs + [proof];
      r := next;
    }

    /** Another party's note of this log, held against a checkpoint already accepted. */
    predicate Comparable(parsed: Result<SignedNote, CheckpointError>)
      reads this
    {
      && latest.Some? && parsed.Ok? && Verify(parsed.value, log).Pass?
      && parsed.value.text.Body? && parsed.value.text.checkpoint.origin == origin
    }

    /** Why another party's note cannot be compared. */
    function Objection(parsed: Result<SignedNote, CheckpointError>): AuditError
      reads this
      requires !Comparable(parsed)
    {
      if latest.None? then NoCheckpoint
      else if parsed.Err? then BadQuorum(NoteRefused(parsed.error))
      else if Verify(parsed.value, log).Fail? then BadQuorum(NoteRefused(Verify(parsed.value, log).error))
      else if !parsed.value.text.Body? then BadQuorum(NoteRefused(MalformedCheckpoint))
      else WrongOrigin(parsed.value.text.checkpoint.origin, origin)
    }

    /** `compare`. */
    method Compare(parsed: Result<SignedNote, CheckpointError>, proof: seq<Hash>) returns (r: Result<Comparison, AuditError>)
      requires Valid()
      ensures r.Ok? ==> Comparable(parsed)
      ensures !Comparable(parsed) ==> r == Err(Objection(parsed))
      ensures Comparable(parsed) ==>
        var a, b := latest.value.checkpoint.head, parsed.value.text.checkpoint.head;
        r == if a == b then Ok(Consistent)
             else if a.size == b.size then Ok(Forked(SplitView(latest.value.note, parsed.value)))
             else if Extends(a, b, proof) || Extends(b, a, proof) then Ok(Consistent)
             else Err(Inconsistent)
      // What a fork verdict carries stands up on its own.
      ensures r.Ok? && r.value.Forked? ==> VerifySplitView(r.value.evidence, log).Pass?
      // A consistent verdict means one history: the larger head's leaves explain the smaller head.
      ensures r == Ok(Consistent) ==>
        forall d :: latest.value.checkpoint.head == HeadOf(d) || parsed.value.text.checkpoint.head == HeadOf(d) ==>
          OneHistory(latest.value.checkpoint.head, parsed.value.text.checkpoint.head, d)
      // An honest log is never accused and, with the proof it can generate, always accepted.
      ensures Comparable(parsed) ==>
        forall d :: PrefixHead(latest.value.checkpoint.head, d) && PrefixHead(parsed.value.text.checkpoint.head, d) ==>
          && !(r.Ok? && r.value.Forked?)
          && (Bridges(latest.value.checkpoint.head, parsed.value.text.checkpoint.head, d, proof) ==> r == Ok(Consistent))
    {
      hide ConsistencyVerdict, RootOf;
      if latest.None? {
        return Err(NoCheckpoint);
      }
      if parsed.Err? {
        return Err(BadQuorum(NoteRefused(parsed.error)));
      }
      var theirs := parsed.value;
      match Verify(theirs, log) {
        case Fail(e) => return Err(BadQuorum(NoteRefused(e)));
        case Pass =>
      }
      match theirs.text {
        case OtherText(_) => return Err(BadQuorum(NoteRefused(MalformedCheckpoint)));
        case Body(_) =>
      }
      var cp := theirs.text.checkpoint;
      if cp.origin != origin {
        return Err(WrongOrigin(cp.origin, origin));
      }
      var a, b := latest.value.checkpoint.head, cp.head;
      if a.size == b.size {
        r := if a.root == b.root then Ok(Consistent) else Ok(Forked(SplitView(latest.value.note, theirs)));
        forall d ensures a == b && a == HeadOf(d) ==> OneHistory(a, b, d) {
          assert d[..|d|] == d;
        }
        return;
      }
      var small, large := if a.size < b.size then a else b, if a.size < b.size then b else a;
      var verdict: Outcome<MerkleError> := Pass;
      if small.size > 0 {
        verdict := VerifyConsistency(small, large, proof);
      }
      r := if verdict.Pass? then Ok(Consistent) else Err(Inconsistent);
      forall d {
        ComparedHeads(small, large, d, proof);
      }
    }

    /** `verify_record`. */
    method VerifyRecord(index: nat, leaf: Hash, proof: seq<Hash>) returns (r: Result<RecordProof, AuditError>)
      requires Valid()
      ensures r.Ok? <==> latest.Some? && InclusionVerdict(heads[|heads| - 1], index, leaf, proof).Pass?
      ensures r.Ok? ==> r.value == RecordProof(index, heads[|heads| - 1].size, latest.value.SeenBy())
      ensures r.Err? ==>
        r == Err(if latest.None? then NoCheckpoint
                 else BadRecord(InclusionVerdict(heads[|heads| - 1], index, leaf, proof).error))
    {
      if latest.None? {
        return Err(NoCheckpoint);
      }
      var verdict := VerifyInclusion(latest.value.checkpoint.head, index, leaf, proof);
      match verdict {
        case Fail(e) => return Err(BadRecord(e));
        case Pass =>
      }
      r := Ok(RecordProof(index, latest.value.checkpoint.head.size, latest.value.SeenBy()));
    }
  }

  lemma RunGrows(heads: seq<TreeHead>, proofs: seq<seq<Hash>>, head: TreeHead, proof: seq<Hash>)
    requires IsRun(heads, proofs) && (heads != [] ==> Extends(heads[|heads| - 1], head, proof))
    ensures IsRun(heads + [head], proofs + [proof])
  {
    hide Extends;
    var hs, ps := heads + [head], proofs + [proof];
    forall i | 0 < i < |hs|
      ensures StepAt(hs, ps, i)
    {
      if i < |heads| {
        assert StepAt(heads, proofs, i);
      }
    }
  }

  /** If `d` are the leaves of the larger head, the smaller one, when not empty, is a prefix of it. */
  predicate OneHistory(a: TreeHead, b: TreeHead, d: seq<Hash>) {
    && (a.size <= b.size && b == HeadOf(d) && 0 < a.size ==> PrefixHead(a, d))
    && (b.size <= a.size && a == HeadOf(d) && 0 < b.size ==> PrefixHead(b, d))
  }

  /** `proof` is the one a log with leaves `d` generates between two of its heads. */
  predicate Bridges(a: TreeHead, b: TreeHead, d: seq<Hash>, proof: seq<Hash>)
    requires a.size <= |d| && b.size <= |d|
  {
    if a.size <= b.size then ConsistencyProof(d[..b.size], a.size) == Ok(proof)
    else ConsistencyProof(d[..a.size], b.size) == Ok(proof)
  }

  lemma ComparedHeads(small: TreeHead, large: TreeHead, d: seq<Hash>, proof: seq<Hash>)
    requires small.size < large.size
    ensures (small.size == 0 || ConsistencyVerdict(small, large, proof).Pass?) ==> OneHistory(small, large, d)
    ensures PrefixHead(small, d) && PrefixHead(large, d) && Bridges(small, large, d, proof) && 0 < small.size ==>
      ConsistencyVerdict(small, large, proof).Pass?
  {
    hide ConsistencyVerdict, RootOf;
    if large == HeadOf(d) {
      ConsistencyExact(d, small, proof);
    }
    if PrefixHead(small, d) && PrefixHead(large, d) {
      var e := d[..large.size];
      assert e[..small.size] == d[..small.size];
      ConsistencyExact(e, small, proof);
    }
  }

  // ----- Quorums and histories -----

  /**
   * Quorum safety: with a threshold above half the witnesses, two checkpoints that pass cannot tell
   * two stories. Whenever each witness that cosigned both kept to one append-only run, their leaf
   * lists are prefixes of one another.
   */
  lemma QuorumSafety(
    a: SignedNote, b: SignedNote, log: NoteVerifier, policy: WitnessPolicy, la: Option<nat>, lb: Option<nat>,
    run: NoteVerifier -> (seq<TreeHead>, seq<seq<Hash>>), da: seq<Hash>, db: seq<Hash>
  )
    requires 2 * policy.threshold > |policy.witnesses|
    requires VerifyQuorum(Ok(a), log, policy, la).Ok? && VerifyQuorum(Ok(b), log, policy, lb).Ok?
    requires a.text.Body? && a.text.checkpoint.head == HeadOf(da)
    requires b.text.Body? && b.text.checkpoint.head == HeadOf(db)
    requires forall w :: w in policy.witnesses && Signed(w, a, la) && Signed(w, b, lb) ==>
               IsRun(run(w).0, run(w).1) && HeadOf(da) in run(w).0 && HeadOf(db) in run(w).0
    ensures da <= db || db <= da
  {
    hide VerifyQuorum, Signed, HeadOf;
    var i := QuorumsMeet(a, b, log, policy, la, lb);
    var w := policy.witnesses[i];
    var (heads, proofs) := run(w);
    var x :| 0 <= x < |heads| && heads[x] == HeadOf(da);
    var y :| 0 <= y < |heads| && heads[y] == HeadOf(db);
    if x <= y {
      RunOrders(heads, proofs, x, y, da, db);
    } else {
      RunOrders(heads, proofs, y, x, db, da);
    }
  }

  lemma RunOrders(heads: seq<TreeHead>, proofs: seq<seq<Hash>>, i: nat, j: nat, d: seq<Hash>, e: seq<Hash>)
    requires IsRun(heads, proofs) && i <= j < |heads| && heads[i] == HeadOf(d) && heads[j] == HeadOf(e)
    ensures d <= e
  {
    if |d| > 0 {
      RunIsPrefixes(heads, proofs, i, j, e);
      RootInjective(d, e[..|d|]);
    }
  }

  // ----- Revoked keys -----

  datatype TimeSource = Witnesses | Rfc3161 | Bitcoin(height: nat)

  datatype Covers = Content | Signature

  datatype TimeEvidence = TimeEvidence(source: TimeSource, time: nat, covers: Covers)

  datatype KeyStatus = Active | Revoked(at: nat, bitcoin_height: Option<nat>)

  datatype KeyError =
    | TimeUnproven
    | SignatureUndated
    | SignedAfterRevocation(existed_by: nat, revoked_at: nat)
    | BitcoinNeedsHeight
    | AnchoredAfterRevocation(height: nat, revoked_height: nat)

  predicate IsClock(s: TimeSource) {
    !s.Bitcoin?
  }

  function MinOption(a: Option<nat>, x: nat): Option<nat> {
    if a.None? || x < a.value then Some(x) else a
  }

  /** `signed_by`. */
  function SignedBy(evidence: seq<TimeEvidence>): Option<nat> {
    if evidence == [] then None
    else
      var e, rest := evidence[0], SignedBy(evidence[1..]);
      if IsClock(e.source) && e.covers.Signature? then MinOption(rest, e.time) else rest
  }

  /** `anchored_by`. */
  function AnchoredBy(evidence: seq<TimeEvidence>): Option<nat> {
    if evidence == [] then None
    else
      var e, rest := evidence[0], AnchoredBy(evidence[1..]);
      if e.covers.Signature? && e.source.Bitcoin? then MinOption(rest, e.source.height) else rest
  }

  /** `KeyStatus::accepts`. */
  function Accepts(status: KeyStatus, evidence: seq<TimeEvidence>): Outcome<KeyError> {
    match status
    case Active => Pass
    case Revoked(at, limit) =>
      if !(exists e :: e in evidence && e.covers.Signature?) then
        Fail(if evidence == [] then TimeUnproven else SignatureUndated)
      else
        var clock, anchor := SignedBy(evidence), AnchoredBy(evidence);
        if clock.Some? && clock.value < at then Pass
        else if anchor.Some? && limit.Some? && anchor.value <= limit.value then Pass
        else match (clock, anchor, limit)
          case (Some(t), _, _) => Fail(SignedAfterRevocation(t, at))
          case (None, Some(h), Some(l)) => Fail(AnchoredAfterRevocation(h, l))
          case (None, Some(_), None) => Fail(BitcoinNeedsHeight)
          case (None, None, _) => Fail(TimeUnproven)
  }

  /** One piece of evidence that shows the signature existed before the revocation. */
  predicate Predates(e: TimeEvidence, at: nat, limit: Option<nat>) {
    && e.covers.Signature?
    && match e.source
       case Bitcoin(height) => limit.Some? && height <= limit.value
       case _ => e.time < at
  }

  lemma {:induction false} EarliestEvidence(evidence: seq<TimeEvidence>, at: nat, limit: Option<nat>)
    ensures (SignedBy(evidence).Some? && SignedBy(evidence).value < at)
         || (AnchoredBy(evidence).Some? && limit.Some? && AnchoredBy(evidence).value <= limit.value)
       <==> exists e :: e in evidence && Predates(e, at, limit)
  {
    if evidence != [] {
      EarliestEvidence(evidence[1..], at, limit);
      if exists e :: e in evidence[1..] && Predates(e, at, limit) {
        var e :| e in evidence[1..] && Predates(e, at, limit);
        assert e in evidence;
      }
      if e :| e in evidence && Predates(e, at, limit) {
        assert e == evidence[0] || e in evidence[1..];
      }
      assert evidence[0] in evidence;
    }
  }

  /**
   * A revoked key counts exactly when some evidence dates its *signature* before the revocation: a
   * clock strictly before, or a block the chain had reached. Content-only evidence and a block's own
   * time never matter.
   */
  lemma AcceptsExactly(at: nat, limit: Option<nat>, evidence: seq<TimeEvidence>)
    ensures Accepts(Revoked(at, limit), evidence).Pass? <==> exists e :: e in evidence && Predates(e, at, limit)
  {
    EarliestEvidence(evidence, at, limit);
  }

  /** A piece of evidence in which a clock dates the signature. */
  predicate Clocked(e: TimeEvidence) {
    e.covers.Signature? && (e.source.Witnesses? || e.source.Rfc3161?)
  }

  /** A piece of evidence in which a block anchors the signature. */
  predicate Anchored(e: TimeEvidence) {
    e.covers.Signature? && e.source.Bitcoin?
  }

  lemma {:induction false} EarliestAre(evidence: seq<TimeEvidence>)
    ensures SignedBy(evidence).None? <==> forall e :: e in evidence ==> !Clocked(e)
    ensures SignedBy(evidence).Some? ==>
      && (exists e :: e in evidence && Clocked(e) && e.time == SignedBy(evidence).value)
      && (forall e :: e in evidence && Clocked(e) ==> SignedBy(evidence).value <= e.time)
    ensures AnchoredBy(evidence).None? <==> forall e :: e in evidence ==> !Anchored(e)
    ensures AnchoredBy(evidence).Some? ==>
      && (exists e :: e in evidence && Anchored(e) && e.source.height == AnchoredBy(evidence).value)
      && (forall e :: e in evidence && Anchored(e) ==> AnchoredBy(evidence).value <= e.source.height)
  {
    if evidence != [] {
      var rest := evidence[1..];
      EarliestAre(rest);
      assert evidence == [evidence[0]] + rest;
      assert evidence[0] in evidence;
      if e :| e in rest && Clocked(e) && SignedBy(rest).Some? && e.time == SignedBy(rest).value {
        assert e in evidence;
      }
      if e :| e in rest && Anchored(e) && AnchoredBy(rest).Some? && e.source.height == AnchoredBy(rest).value {
        assert e in evidence;
      }
    }
  }

  /** Why a revoked key's signature is refused, by what the evidence lacks. */
  lemma RefusedBecause(at: nat, limit: Option<nat>, evidence: seq<TimeEvidence>)
    requires Accepts(Revoked(at, limit), evidence).Fail?
    ensures var r := Accepts(Revoked(at, limit), evidence).error;
      && (r == TimeUnproven <==> evidence == [])
      && (r == SignatureUndated <==> evidence != [] && forall e :: e in evidence ==> e.covers.Content?)
      && (r.SignedAfterRevocation? <==> exists e :: e in evidence && Clocked(e))
      && (r.SignedAfterRevocation? ==>
            r.revoked_at == at <= r.existed_by && exists e :: e in evidence && Clocked(e) && e.time == r.existed_by)
      && (r == BitcoinNeedsHeight ==> limit.None? && exists e :: e in evidence && Anchored(e))
      && (r.AnchoredAfterRevocation? ==>
            limit == Some(r.revoked_height) && r.revoked_height < r.height
            && exists e :: e in evidence && Anchored(e) && e.source.height == r.height)
  {
    EarliestAre(evidence);
    if evidence != [] {
      assert evidence[0] in evidence;
      assert evidence[0].covers.Content? || evidence[0].covers.Signature?;
    }
    if e :| e in evidence && e.covers.Signature? {
      assert Clocked(e) || Anchored(e);
    }
  }
}
