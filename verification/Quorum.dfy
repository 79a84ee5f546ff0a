/** Witness policies: which cosignatures count, what a quorum dates, and why two quorums meet. */
module Quorum {
  import opened Wrappers
  import opened Orders
  import opened Notes

  datatype PolicyError = ZeroThreshold | ThresholdTooHigh | WrongKeyKind | ListedTwice

  datatype WitnessPolicy = WitnessPolicy(witnesses: seq<NoteVerifier>, threshold: nat)

  predicate SameWitness(a: NoteVerifier, b: NoteVerifier) {
    a.key == b.key || (a.name == b.name && a.key_hash == b.key_hash)
  }

  ghost predicate ValidPolicy(p: WitnessPolicy) {
    && 0 < p.threshold <= |p.witnesses|
    && (forall i :: 0 <= i < |p.witnesses| ==> p.witnesses[i].algorithm == ALG_COSIGNATURE_V1)
    && (forall i, j :: 0 <= i < j < |p.witnesses| ==> !SameWitness(p.witnesses[i], p.witnesses[j]))
  }

  /** `WitnessPolicy::new`. */
  method NewPolicy(witnesses: seq<NoteVerifier>, threshold: nat) returns (r: Result<WitnessPolicy, PolicyError>)
    ensures r.Ok? <==> ValidPolicy(WitnessPolicy(witnesses, threshold))
    ensures r.Ok? ==> r.value == WitnessPolicy(witnesses, threshold)
    ensures r.Err? ==>
      r == Err(if threshold == 0 then ZeroThreshold
               else if threshold > |witnesses| then ThresholdTooHigh
               else if exists w :: w in witnesses && w.algorithm != ALG_COSIGNATURE_V1 then WrongKeyKind
               else ListedTwice)
  {
    if threshold == 0 {
      return Err(ZeroThreshold);
    }
    if threshold > |witnesses| {
      return Err(ThresholdTooHigh);
    }
    for i := 0 to |witnesses|
      invariant forall k :: 0 <= k < i ==> witnesses[k].algorithm == ALG_COSIGNATURE_V1
    {
      if witnesses[i].algorithm != ALG_COSIGNATURE_V1 {
        return Err(WrongKeyKind);
      }
    }
    for i := 0 to |witnesses|
      invariant forall a, b :: 0 <= a < b < i ==> !SameWitness(witnesses[a], witnesses[b])
    {
      for j := 0 to i
        invariant forall k :: 0 <= k < j ==> !SameWitness(witnesses[k], witnesses[i])
      {
        if SameWitness(witnesses[j], witnesses[i]) {
          return Err(ListedTwice);
        }
      }
    }
    r := Ok(WitnessPolicy(witnesses, threshold));
  }

  datatype Cosigned = Cosigned(name: string, time: nat)

  /** `cosignatures`: the valid cosignatures of listed witnesses, in the policy's order. */
  function Cosignatures(witnesses: seq<NoteVerifier>, note: SignedNote): seq<Cosigned> {
    if witnesses == [] then []
    else
      var rest := Cosignatures(witnesses[1..], note);
      match CosignatureTime(note, witnesses[0])
      case Ok(time) => [Cosigned(witnesses[0].name, time)] + rest
      case Err(_) => rest
  }

  /** Whether a cosignature dated `time` counts for a verifier whose clock allows `latest`. */
  predicate Counts(time: nat, latest: Option<nat>) {
    latest.None? || time <= latest.value
  }

  function Select(cs: seq<Cosigned>, latest: Option<nat>, keep: bool): seq<Cosigned> {
    if cs == [] then []
    else (if Counts(cs[0].time, latest) == keep then [cs[0]] else []) + Select(cs[1..], latest, keep)
  }

  // ----- The sort by time -----

  predicate Earlier(a: Cosigned, b: Cosigned) {
    a.time < b.time
  }

  ghost predicate SortedByTime(cs: seq<Cosigned>) {
    forall i, j :: 0 <= i < j < |cs| ==> cs[i].time <= cs[j].time
  }

  /** `sort_by_key(|c| c.time)`. */
  function SortByTime(cs: seq<Cosigned>): (r: seq<Cosigned>)
    ensures multiset(r) == multiset(cs) && |r| == |cs| && SortedByTime(r)
  {
    SortedOrdered(cs, Earlier);
    Sorted(cs, Earlier)
  }

  // ----- Counting cosignatures up to a time -----

  /** How many of `cs` are dated at or before `t`. */
  function DatedBy(cs: seq<Cosigned>, t: nat): nat {
    if cs == [] then 0 else (if cs[0].time <= t then 1 else 0) + DatedBy(cs[1..], t)
  }

  /** How many of `cs` are dated at or after `t`. */
  function DatedSince(cs: seq<Cosigned>, t: nat): nat {
    if cs == [] then 0 else (if cs[0].time >= t then 1 else 0) + DatedSince(cs[1..], t)
  }

  lemma {:induction false} CountsPush(cs: seq<Cosigned>, c: Cosigned, t: nat)
    ensures DatedBy(cs + [c], t) == DatedBy(cs, t) + if c.time <= t then 1 else 0
    ensures DatedSince(cs + [c], t) == DatedSince(cs, t) + if c.time >= t then 1 else 0
  {
    if cs != [] {
      CountsPush(cs[1..], c, t);
      assert (cs + [c])[1..] == cs[1..] + [c];
    }
  }

  lemma {:induction false} InsertCounts(cs: seq<Cosigned>, c: Cosigned, t: nat)
    ensures DatedBy(Insert(cs, c, Earlier), t) == DatedBy(cs + [c], t)
    ensures DatedSince(Insert(cs, c, Earlier), t) == DatedSince(cs + [c], t)
  {
    if cs != [] && Earlier(c, cs[0]) {
      CountsPush(cs, c, t);
      assert Insert(cs, c, Earlier) == [c] + cs && ([c] + cs)[1..] == cs;
    } else if cs != [] {
      InsertCounts(cs[1..], c, t);
      var rest := Insert(cs[1..], c, Earlier);
      assert Insert(cs, c, Earlier) == [cs[0]] + rest && ([cs[0]] + rest)[1..] == rest;
      assert (cs + [c])[1..] == cs[1..] + [c];
    }
  }

  lemma SortPush(cs: seq<Cosigned>, c: Cosigned)
    ensures SortByTime(cs + [c]) == Insert(SortByTime(cs), c, Earlier)
  {
    assert (cs + [c])[..|cs|] == cs;
  }

  lemma SortNone()
    ensures SortByTime([]) == []
  {
  }

  lemma {:induction false} SortCounts(cs: seq<Cosigned>, t: nat)
    ensures DatedBy(SortByTime(cs), t) == DatedBy(cs, t)
    ensures DatedSince(SortByTime(cs), t) == DatedSince(cs, t)
    decreases |cs|
  {
    hide SortByTime, Insert, DatedBy, DatedSince, SortedByTime;
    if cs == [] {
      SortNone();
    } else {
      var init, last := cs[..|cs| - 1], cs[|cs| - 1];
      assert cs == init + [last];
      SortCounts(init, t);
      SortPush(init, last);
      InsertCounts(SortByTime(init), last, t);
      CountsPush(SortByTime(init), last, t);
      CountsPush(init, last, t);
    }
  }

  lemma {:induction false} SortedDatedBy(cs: seq<Cosigned>, k: nat, t: nat)
    requires SortedByTime(cs) && 0 < k <= |cs|
    ensures cs[k - 1].time <= t <==> k <= DatedBy(cs, t)
    decreases cs
  {
    if k == 1 {
      if cs[0].time > t {
        NoneDatedBy(cs, t);
      }
    } else {
      SortedDatedBy(cs[1..], k - 1, t);
      if cs[0].time > t {
        NoneDatedBy(cs, t);
      }
    }
  }

  lemma {:induction false} NoneDatedBy(cs: seq<Cosigned>, t: nat)
    requires forall i :: 0 <= i < |cs| ==> cs[i].time > t
    ensures DatedBy(cs, t) == 0
  {
    if cs != [] {
      NoneDatedBy(cs[1..], t);
    }
  }

  lemma {:induction false} DatedSinceAtMost(cs: seq<Cosigned>, t: nat)
    ensures DatedSince(cs, t) <= |cs|
    ensures (forall i :: 0 <= i < |cs| ==> cs[i].time >= t) ==> DatedSince(cs, t) == |cs|
    ensures DatedSince(cs, t) == |cs| ==> forall i :: 0 <= i < |cs| ==> cs[i].time >= t
  {
    if cs != [] {
      DatedSinceAtMost(cs[1..], t);
      if DatedSince(cs, t) == |cs| {
        assert forall i :: 1 <= i < |cs| ==> cs[i] == cs[1..][i - 1];
      }
    }
  }

  lemma {:induction false} SortedDatedSince(cs: seq<Cosigned>, k: nat, t: nat)
    requires SortedByTime(cs) && 0 < k <= |cs|
    ensures cs[|cs| - k].time >= t <==> k <= DatedSince(cs, t)
    decreases cs
  {
    if k == |cs| {
      DatedSinceAtMost(cs, t);
    } else {
      SortedDatedSince(cs[1..], k, t);
      if cs[0].time >= t {
        DatedSinceAtMost(cs[1..], t);
      }
    }
  }

  // ----- The quorum check -----

  datatype QuorumError =
    | NoteRefused(error: CheckpointError)
    | CosignedInTheFuture(name: string, time: nat, latest: nat)
    | QuorumNotMet(got: nat, need: nat)

  datatype Witnessed = Witnessed(note: SignedNote, checkpoint: Checkpoint, cosigned: seq<Cosigned>, threshold: nat)
  {
    predicate Valid() {
      0 < threshold <= |cosigned|
    }

    /** `seen_by`. */
    function SeenBy(): nat
      requires Valid()
    {
      cosigned[threshold - 1].time
    }

    /** `fresh_as_of`. */
    function FreshAsOf(): nat
      requires Valid()
    {
      cosigned[|cosigned| - threshold].time
    }
  }

  /** `min_by_key(|c| c.time)`: the first of the earliest. */
  function Earliest(cs: seq<Cosigned>): Option<Cosigned> {
    if cs == [] then None
    else match Earliest(cs[1..])
      case None => Some(cs[0])
      case Some(e) => if cs[0].time <= e.time then Some(cs[0]) else Some(e)
  }

  /** The cosignatures of listed witnesses that count. */
  function Counted(policy: WitnessPolicy, note: SignedNote, latest: Option<nat>): seq<Cosigned> {
    Select(Cosignatures(policy.witnesses, note), latest, true)
  }

  /** `verify_quorum`, on a note that may have failed to parse. */
  function VerifyQuorum(
    parsed: Result<SignedNote, CheckpointError>, log: NoteVerifier, policy: WitnessPolicy, latest: Option<nat>
  ): Result<Witnessed, QuorumError> {
    match parsed
    case Err(e) => Err(NoteRefused(e))
    case Ok(note) =>
      match Verify(note, log)
      case Fail(e) => Err(NoteRefused(e))
      case Pass =>
        match CheckpointOf(note)
        case Err(e) => Err(NoteRefused(e))
        case Ok(checkpoint) =>
          var all := Cosignatures(policy.witnesses, note);
          var cosigned, ahead := Select(all, latest, true), Select(all, latest, false);
          if |cosigned| < policy.threshold then
            match (Earliest(ahead), latest)
            case (Some(first), Some(l)) => Err(CosignedInTheFuture(first.name, first.time, l))
            case _ => Err(QuorumNotMet(|cosigned|, policy.threshold))
          else
            Ok(Witnessed(note, checkpoint, SortByTime(cosigned), policy.threshold))
  }

  // ----- Which witnesses signed -----

  /** The positions of the policy's witnesses whose cosignature on `note` is valid and counted. */
  ghost function Signers(witnesses: seq<NoteVerifier>, note: SignedNote, latest: Option<nat>): set<nat> {
    set i: nat | i < |witnesses| && Signed(witnesses[i], note, latest)
  }

  predicate Signed(w: NoteVerifier, note: SignedNote, latest: Option<nat>) {
    var time := CosignatureTime(note, w);
    time.Ok? && Counts(time.value, latest)
  }

  lemma {:induction false} SignersCounted(witnesses: seq<NoteVerifier>, note: SignedNote, latest: Option<nat>)
    ensures |Signers(witnesses, note, latest)| == |Select(Cosignatures(witnesses, note), latest, true)|
  {
    hide Select, Cosignatures, Signed, Signers;
    if witnesses == [] {
      SelectNone(note, latest);
      NoSigners(note, latest);
    } else {
      var rest := Signers(witnesses[1..], note, latest);
      SignersCounted(witnesses[1..], note, latest);
      var shifted := set i: nat | i in rest :: i + 1;
      ShiftedSize(rest, shifted);
      SignersSplit(witnesses, note, latest, shifted);
      SelectSplit(witnesses, note, latest);
    }
  }

  lemma NoSigners(note: SignedNote, latest: Option<nat>)
    ensures Signers([], note, latest) == {}
  {
  }

  /** The first witness, and those behind it one place further on. */
  lemma SignerAt(witnesses: seq<NoteVerifier>, note: SignedNote, latest: Option<nat>, i: nat)
    requires witnesses != []
    ensures i in Signers(witnesses, note, latest) <==>
      if i == 0 then Signed(witnesses[0], note, latest) else i - 1 in Signers(witnesses[1..], note, latest)
  {
    hide Signed;
    if 0 < i < |witnesses| {
      assert witnesses[1..][i - 1] == witnesses[i];
    }
  }

  lemma SignersSplit(witnesses: seq<NoteVerifier>, note: SignedNote, latest: Option<nat>, shifted: set<nat>)
    requires witnesses != [] && shifted == set i: nat | i in Signers(witnesses[1..], note, latest) :: i + 1
    ensures |Signers(witnesses, note, latest)| == (if Signed(witnesses[0], note, latest) then 1 else 0) + |shifted|
  {
    hide Signed, Signers;
    var all, rest := Signers(witnesses, note, latest), Signers(witnesses[1..], note, latest);
    var first: set<nat> := if Signed(witnesses[0], note, latest) then {0} else {};
    forall i: nat
      ensures i in all <==> i in first + shifted
    {
      SignerAt(witnesses, note, latest, i);
      assert i > 0 ==> (i - 1 in rest <==> i in shifted);
    }
    assert all == first + shifted;
  }

  lemma SelectNone(note: SignedNote, latest: Option<nat>)
    ensures Select(Cosignatures([], note), latest, true) == []
  {
  }

  lemma SelectSplit(witnesses: seq<NoteVerifier>, note: SignedNote, latest: Option<nat>)
    requires witnesses != []
    ensures |Select(Cosignatures(witnesses, note), latest, true)|
         == (if Signed(witnesses[0], note, latest) then 1 else 0)
            + |Select(Cosignatures(witnesses[1..], note), latest, true)|
  {
    var rest := Cosignatures(witnesses[1..], note);
    if CosignatureTime(note, witnesses[0]).Ok? {
      assert Cosignatures(witnesses, note)[1..] == rest;
    }
  }

  lemma {:induction false} ShiftedSize(s: set<nat>, shifted: set<nat>)
    requires shifted == set i: nat | i in s :: i + 1
    ensures |shifted| == |s|
    decreases s
  {
    if s != {} {
      var x :| x in s;
      var t := s - {x};
      var u := set i: nat | i in t :: i + 1;
      ShiftedSize(t, u);
      assert x + 1 in shifted;
      forall y: nat
        ensures y in shifted <==> y in u + {x + 1}
      {
        if y in shifted {
          assert y - 1 in s;
          assert y - 1 == x || y - 1 in t;
        }
      }
      assert shifted == u + {x + 1} && x + 1 !in u;
    }
  }

  // ----- Main results -----

  /** A checkpoint passes exactly when the log signed it and enough listed witnesses did. */
  lemma QuorumMeaning(
    note: SignedNote, log: NoteVerifier, policy: WitnessPolicy, latest: Option<nat>
  )
    ensures var r := VerifyQuorum(Ok(note), log, policy, latest);
            r.Ok? <==> && Verify(note, log).Pass? && note.text.Body?
                       && policy.threshold <= |Signers(policy.witnesses, note, latest)|
    ensures var r := VerifyQuorum(Ok(note), log, policy, latest);
            r.Ok? ==> && r.value.note == note && Body(r.value.checkpoint) == note.text
                      && r.value.threshold == policy.threshold
                      && r.value.cosigned == SortByTime(Counted(policy, note, latest))
                      && (0 < policy.threshold ==> r.value.Valid())
  {
    SignersCounted(policy.witnesses, note, latest);
  }

  lemma NotWitnessed(
    note: Result<SignedNote, CheckpointError>, log: NoteVerifier, policy: WitnessPolicy, latest: Option<nat>
  )
    requires VerifyQuorum(note, log, policy, latest).Err?
    ensures !(&& note.Ok? && Verify(note.value, log).Pass? && note.value.text.Body?
              && policy.threshold <= |Signers(policy.witnesses, note.value, latest)|)
  {
    if note.Ok? {
      QuorumMeaning(note.value, log, policy, latest);
    }
  }

  /** The first of the earliest: no other is dated before it, and none in front of it as early. */
  lemma {:induction false} EarliestIsFirst(cs: seq<Cosigned>) returns (i: nat)
    requires cs != []
    ensures i < |cs| && Earliest(cs) == Some(cs[i])
    ensures forall j :: 0 <= j < |cs| ==> cs[i].time <= cs[j].time
    ensures forall j :: 0 <= j < i ==> cs[i].time < cs[j].time
  {
    i := 0;
    if |cs| > 1 {
      var k := EarliestIsFirst(cs[1..]);
      if cs[1..][k].time < cs[0].time {
        i := k + 1;
      }
      assert forall j :: 1 <= j < |cs| ==> cs[j] == cs[1..][j - 1];
    }
  }

  /** `c` is the earliest of the cosignatures dated too late to count. */
  ghost predicate EarliestAhead(ahead: seq<Cosigned>, latest: Option<nat>, c: Cosigned) {
    latest.Some? && c in ahead && forall d :: d in ahead ==> latest.value < c.time <= d.time
  }

  /** Short of the threshold, a cosignature dated too late to count is named rather than the number missing. */
  lemma QuorumRefusal(note: SignedNote, log: NoteVerifier, policy: WitnessPolicy, latest: Option<nat>)
    requires Verify(note, log).Pass? && note.text.Body?
    requires |Signers(policy.witnesses, note, latest)| < policy.threshold
    ensures var r := VerifyQuorum(Ok(note), log, policy, latest);
      var ahead := Select(Cosignatures(policy.witnesses, note), latest, false);
      && (ahead == [] ==> r == Err(QuorumNotMet(|Signers(policy.witnesses, note, latest)|, policy.threshold)))
      && (ahead != [] ==>
            exists c :: EarliestAhead(ahead, latest, c) && r == Err(CosignedInTheFuture(c.name, c.time, latest.value)))
  {
    SignersCounted(policy.witnesses, note, latest);
    var all := Cosignatures(policy.witnesses, note);
    var ahead := Select(all, latest, false);
    if ahead != [] {
      SelectedAhead(all, latest);
      var i := EarliestIsFirst(ahead);
      assert EarliestAhead(ahead, latest, ahead[i]);
    }
  }

  lemma {:induction false} SelectedAhead(cs: seq<Cosigned>, latest: Option<nat>)
    ensures forall c :: c in Select(cs, latest, false) ==> latest.Some? && latest.value < c.time
  {
    if cs != [] {
      SelectedAhead(cs[1..], latest);
    }
  }

  /** The counted cosignatures are those of listed witnesses over the note's own text, dated no later than allowed. */
  lemma {:induction false} CosignaturesAre(witnesses: seq<NoteVerifier>, note: SignedNote, latest: Option<nat>, keep: bool, c: Cosigned)
    ensures c in Select(Cosignatures(witnesses, note), latest, keep) <==>
      && (latest.None? || c.time <= latest.value) == keep
      && exists w :: w in witnesses && w.name == c.name && CosignatureTime(note, w) == Ok(c.time)
  {
    hide CosignatureTime;
    if witnesses != [] {
      var w, rest := witnesses[0], Cosignatures(witnesses[1..], note);
      CosignaturesAre(witnesses[1..], note, latest, keep, c);
      assert witnesses == [w] + witnesses[1..];
      if CosignatureTime(note, w).Ok? {
        var first := Cosigned(w.name, CosignatureTime(note, w).value);
        assert Cosignatures(witnesses, note) == [first] + rest;
        assert ([first] + rest)[1..] == rest;
      }
      if x :| x in witnesses[1..] && x.name == c.name && CosignatureTime(note, x) == Ok(c.time) {
        assert x in witnesses;
      }
      if x :| x in witnesses && x.name == c.name && CosignatureTime(note, x) == Ok(c.time) {
        assert x == w || x in witnesses[1..];
      }
    } else {
      assert Select([], latest, keep) == [];
    }
  }

  /** What a quorum signed is its own text: with the text exchanged, the log's signature fails and no cosignature counts. */
  lemma QuorumOfText(note: SignedNote, log: NoteVerifier, policy: WitnessPolicy, latest: Option<nat>, t: NoteText)
    requires VerifyQuorum(Ok(note), log, policy, latest).Ok? && t != note.text
    ensures VerifyQuorum(Ok(note.(text := t)), log, policy, latest) == Err(NoteRefused(BadSignature(log.name)))
    ensures Signers(policy.witnesses, note, latest) !! Signers(policy.witnesses, note.(text := t), latest)
  {
    hide CosignatureTime;
    ExchangedText(note, log, t);
    forall i | i in Signers(policy.witnesses, note, latest)
      ensures i !in Signers(policy.witnesses, note.(text := t), latest)
    {
      ExchangedText(note, policy.witnesses[i], t);
    }
  }

  /** In a valid policy no key and no line of a note can speak for two witnesses. */
  lemma WitnessesDiffer(p: WitnessPolicy)
    ensures ValidPolicy(p) <==>
      && 0 < p.threshold <= |p.witnesses|
      && (forall w :: w in p.witnesses ==> w.algorithm == ALG_COSIGNATURE_V1)
      && (forall i, j :: 0 <= i < |p.witnesses| && 0 <= j < |p.witnesses| && p.witnesses[i].key == p.witnesses[j].key ==> i == j)
      && (forall i, j ::
            0 <= i < |p.witnesses| && 0 <= j < |p.witnesses|
            && (p.witnesses[i].name, p.witnesses[i].key_hash) == (p.witnesses[j].name, p.witnesses[j].key_hash)
            ==> i == j)
  {
    var ws := p.witnesses;
    if ValidPolicy(p) {
      forall i, j | 0 <= i < |ws| && 0 <= j < |ws| && i != j
        ensures !SameWitness(ws[i], ws[j])
      {
        if j < i {
          assert !SameWitness(ws[j], ws[i]);
        }
      }
    }
  }

  /**
   * What the two reported times mean, with no mention of sorting: `seen_by` is the least time by
   * which `threshold` counted cosignatures are dated, `fresh_as_of` the greatest since which they are.
   */
  lemma QuorumTimes(note: SignedNote, log: NoteVerifier, policy: WitnessPolicy, latest: Option<nat>, t: nat)
    requires 0 < policy.threshold && VerifyQuorum(Ok(note), log, policy, latest).Ok?
    ensures var w := VerifyQuorum(Ok(note), log, policy, latest).value;
            var counted := Counted(policy, note, latest);
            && w.Valid()
            && (w.SeenBy() <= t <==> policy.threshold <= DatedBy(counted, t))
            && (w.FreshAsOf() >= t <==> policy.threshold <= DatedSince(counted, t))
  {
    hide VerifyQuorum, Counted, SortByTime, SortedByTime, DatedBy, DatedSince;
    QuorumMeaning(note, log, policy, latest);
    var counted := Counted(policy, note, latest);
    var w := VerifyQuorum(Ok(note), log, policy, latest).value;
    SortCounts(counted, t);
    SortedDatedBy(w.cosigned, policy.threshold, t);
    SortedDatedSince(w.cosigned, policy.threshold, t);
  }

  /** Two sets of positions below `n` that together exceed `n` share one. */
  lemma Pigeonhole(a: set<nat>, b: set<nat>, n: nat)
    requires (forall i :: i in a ==> i < n) && (forall i :: i in b ==> i < n)
    requires |a| + |b| > n
    ensures a * b != {}
  {
    if a * b == {} {
      assert |a + b| == |a| + |b|;
      BoundedSize(a + b, n);
    }
  }

  lemma {:induction false} BoundedSize(s: set<nat>, n: nat)
    requires forall i :: i in s ==> i < n
    ensures |s| <= n
  {
    if n > 0 {
      BoundedSize(s - {n - 1}, n - 1);
    } else {
      assert s == {};
    }
  }

  /**
   * Quorum intersection: under a policy whose threshold is above half its witnesses, any two
   * checkpoints that pass share a listed witness whose cosignatures on both are valid.
   */
  lemma QuorumsMeet(
    a: SignedNote, b: SignedNote, log: NoteVerifier, policy: WitnessPolicy, la: Option<nat>, lb: Option<nat>
  ) returns (i: nat)
    requires 2 * policy.threshold > |policy.witnesses|
    requires VerifyQuorum(Ok(a), log, policy, la).Ok? && VerifyQuorum(Ok(b), log, policy, lb).Ok?
    ensures i < |policy.witnesses|
    ensures Signed(policy.witnesses[i], a, la) && Signed(policy.witnesses[i], b, lb)
  {
    QuorumMeaning(a, log, policy, la);
    QuorumMeaning(b, log, policy, lb);
    var sa, sb := Signers(policy.witnesses, a, la), Signers(policy.witnesses, b, lb);
    Pigeonhole(sa, sb, |policy.witnesses|);
    i :| i in sa * sb;
  }
}
