/** Exposure caps and reservation ids of the budget protocol, over whole runs. */
module BudgetIds {
  import opened Wrappers
  import opened Sums
  import opened BudgetProtocol
  import opened BudgetConservation
  import opened BudgetRuns

  // ----- Caps -----

  /** The reserved total of `t` respects the cap that stands for it, if one does. */
  predicate CapHolds(e: Engine, t: Tenant) {
    0 < LimitOf(e, t) && t in e.totals ==> e.totals[t] <= LimitOf(e, t)
  }

  /** A step of a call raises the reserved total of a capped tenant only as far as the cap. */
  predicate CapStep(e: Engine, e': Engine, t: Tenant) {
    && e'.limits == e.limits
    && (t in e'.totals ==> t in e.totals)
    && (t in e'.totals ==> e'.totals[t] <= e.totals[t] || (0 < LimitOf(e, t) ==> e'.totals[t] <= LimitOf(e, t)))
  }

  lemma ReserveCap(e: Engine, free: Locks, op: Op, spurious: bool, t: Tenant)
    requires EngineOk(e) && OpOk(e, op) && op.Reserve? && ReserveStep(e, free, op, spurious).Some?
    requires t in e.remaining && Room(PurseOf(e, t), op, t)
    ensures CapStep(e, ReserveStep(e, free, op, spurious).value.e, t)
  {
    hide Wrap, Recorded, RecordOk;
    WrapAll();
  }

  lemma CommitCap(e: Engine, free: Locks, op: Op, spurious: bool, t: Tenant)
    requires EngineOk(e) && OpOk(e, op) && op.Commit? && CommitStep(e, free, op, spurious).Some?
    requires t in e.remaining && Room(PurseOf(e, t), op, t)
    ensures CapStep(e, CommitStep(e, free, op, spurious).value.e, t)
  {
    hide Wrap, Recorded, RecordOk;
    WrapAll();
  }

  lemma ReleaseCap(e: Engine, free: Locks, op: Op, t: Tenant)
    requires EngineOk(e) && OpOk(e, op) && op.Release? && ReleaseStep(e, free, op).Some?
    requires t in e.remaining && Room(PurseOf(e, t), op, t)
    ensures CapStep(e, ReleaseStep(e, free, op).value.e, t)
  {
    hide Wrap, Recorded, RecordOk;
    WrapAll();
  }

  lemma OpCap(e: Engine, free: Locks, op: Op, spurious: bool, t: Tenant)
    requires EngineOk(e) && OpOk(e, op) && OpStep(e, free, op, spurious).Some?
    requires t in e.remaining && Room(PurseOf(e, t), op, t)
    ensures CapStep(e, OpStep(e, free, op, spurious).value.e, t)
  {
    hide EngineOk, OpOk, PurseOf, Room, ReserveStep, CommitStep, ReleaseStep;
    match op
    case Reserve(_, _, _) => ReserveCap(e, free, op, spurious, t);
    case Commit(_, _, _, _) => CommitCap(e, free, op, spurious, t);
    case Release(_, _, _) => ReleaseCap(e, free, op, t);
    case _ =>
  }

  /** A new tenant has nothing reserved. */
  lemma NewTenantCap(e: Engine, u: Tenant, budget: int, t: Tenant)
    requires SameTenants(e) && t !in e.remaining
    ensures CapHolds(Ensured(e, u, budget), t)
  {
  }

  /** The one event that may leave the reserved total of `t` above its cap. */
  predicate Undercuts(e: Engine, ev: Event, t: Tenant) {
    ev.SetCap? && ev.tenant == t && t in e.totals && 0 < ev.max < e.totals[t]
  }

  /** A cap that holds is broken by a new cap below what is already reserved, and by nothing else. */
  lemma NextCap(s: State, ev: Event, t: Tenant)
    requires Inv(s) && Next(s, ev).Some? && CapHolds(s.e, t)
    ensures CapHolds(Next(s, ev).value.e, t) <==> !Undercuts(s.e, ev, t)
  {
    hide Sum, OpStep, FreeLocks, Account, OpOk, RecordOk, Restorable, Admitted, Apart;
    match ev
    case Act(k, spurious) =>
      if t in s.e.remaining {
        EngineIsOk(s);
        StepRoom(s, k, t);
        OpCap(s.e, FreeLocks(s.ops), s.ops[k], spurious, t);
      } else if Creates(s.ops[k]) {
        Created(s, k, spurious);
        NewTenantCap(s.e, s.ops[k].tenant, s.ops[k].budget, t);
      } else {
        ActKeeps(s, k, spurious);
        EngineIsOk(s);
        OpStepOk(s.e, FreeLocks(s.ops), s.ops[k], spurious);
        SameTenantSet(s.e, FreeLocks(s.ops), s.ops[k], OpStep(s.e, FreeLocks(s.ops), s.ops[k], spurious).value);
      }
    case _ =>
  }

  ghost predicate NeverUndercuts(s: State, events: seq<Event>, t: Tenant)
    decreases |events|
  {
    events != [] && Next(s, events[0]).Some? ==>
      !Undercuts(s.e, events[0], t) && NeverUndercuts(Next(s, events[0]).value, events[1..], t)
  }

  /** The cap of `t` holds in every state of the run. */
  ghost predicate CapThroughout(s: State, events: seq<Event>, t: Tenant)
    decreases |events|
  {
    && CapHolds(s.e, t)
    && (events != [] && Next(s, events[0]).Some? ==> CapThroughout(Next(s, events[0]).value, events[1..], t))
  }

  lemma {:induction false} RunCap(s: State, events: seq<Event>, t: Tenant)
    requires Inv(s) && CapHolds(s.e, t)
    ensures CapThroughout(s, events, t) <==> NeverUndercuts(s, events, t)
    ensures CapThroughout(s, events, t) && Run(s, events).Some? ==> CapHolds(Run(s, events).value.e, t)
    decreases |events|
  {
    hide Inv, Next, CapHolds, Undercuts;
    if events != [] && Next(s, events[0]).Some? {
      NextCap(s, events[0], t);
      NextKeeps(s, events[0]);
      if CapHolds(Next(s, events[0]).value.e, t) {
        RunCap(Next(s, events[0]).value, events[1..], t);
      }
    }
  }

  /** A run stays within a tenant's caps throughout if and only if none is set below what is already reserved. */
  lemma CapsHold(events: seq<Event>, t: Tenant)
    ensures CapThroughout(Initial, events, t) <==> NeverUndercuts(Initial, events, t)
    ensures NeverUndercuts(Initial, events, t) && Run(Initial, events).Some? ==> CapHolds(Run(Initial, events).value.e, t)
  {
    InitialKept();
    RunCap(Initial, events, t);
  }

  // ----- Ids -----

  predicate Increasing(s: seq<nat>) {
    forall i, j :: 0 <= i < j < |s| ==> s[i] < s[j]
  }

  predicate NoDup(s: seq<nat>) {
    forall i, j :: 0 <= i < j < |s| ==> s[i] != s[j]
  }

  /** An id with a record, or with a call in flight that owns it. */
  ghost predicate Live(s: State, id: nat) {
    id in s.e.reservations || exists k :: k in s.ops && IdOf(s.ops[k]) == Some(id)
  }

  /** Issued ids grow and stay below the allocator; each is settled at most once, and never while live. */
  ghost predicate Ids(s: State) {
    && Increasing(s.issued) && (forall id :: id in s.issued ==> id < s.e.next_id)
    && NoDup(s.settled) && (forall id :: id in s.settled ==> id in s.issued)
    && (forall id :: Live(s, id) ==> id in s.issued && id !in s.settled)
  }

  /** What a step does to ids. */
  ghost predicate IdStep(e: Engine, op: Op, x: Effect) {
    && (|| (x.issued == [] && x.e.next_id == e.next_id)
        || (x.issued == [e.next_id] && x.e.next_id == e.next_id + 1))
    && (forall id :: id in x.e.reservations ==>
          id in e.reservations || (IdOf(op) == Some(id) && x.next.None? && x.settled == []))
    && (x.next.Some? && IdOf(x.next.value).Some? ==>
          var id := IdOf(x.next.value).value;
          IdOf(op) == Some(id) || id in x.issued || id in e.reservations)
    && (x.settled == [] || (IdOf(op).Some? && x.settled == [IdOf(op).value] && x.next.None?))
  }

  // Each kind of step, once for all calls that make it.

  lemma WritesKeepIds(e: Engine, t: Tenant)
    ensures forall v {:trigger SetTotal(e, t, v)} ::
      SetTotal(e, t, v).reservations == e.reservations && SetTotal(e, t, v).next_id == e.next_id
    ensures forall v {:trigger SetRemaining(e, t, v)} ::
      SetRemaining(e, t, v).reservations == e.reservations && SetRemaining(e, t, v).next_id == e.next_id
    ensures forall v {:trigger SetCommitted(e, t, v)} ::
      SetCommitted(e, t, v).reservations == e.reservations && SetCommitted(e, t, v).next_id == e.next_id
  {
  }

  lemma PlainIds(e: Engine, op: Op)
    ensures forall e': Engine, op': Op {:trigger Quiet(e', op')} ::
      e'.reservations == e.reservations && e'.next_id == e.next_id && (IdOf(op').None? || IdOf(op') == IdOf(op)) ==>
        IdStep(e, op, Quiet(e', op').value)
    ensures forall e': Engine {:trigger Finish(e')} ::
      e'.reservations == e.reservations && e'.next_id == e.next_id ==> IdStep(e, op, Finish(e').value)
  {
  }

  lemma RecordIds(e: Engine, op: Op, id: nat, rec: Record)
    requires IdOf(op) == Some(id)
    ensures IdStep(e, op, Finish(PutRecord(e, id, rec)).value)
  {
  }

  lemma SettleIds(e: Engine, op: Op, id: nat)
    requires IdOf(op) == Some(id)
    ensures forall e': Engine {:trigger Effect(e', None, [], [id])} ::
      e'.reservations == e.reservations && e'.next_id == e.next_id ==> IdStep(e, op, Effect(e', None, [], [id]))
  {
  }

  lemma AllocateIds(e: Engine, free: Locks, op: Op, spurious: bool)
    requires op.Reserve? && op.rs.RAllocate? && ReserveStep(e, free, op, spurious).Some?
    ensures IdStep(e, op, ReserveStep(e, free, op, spurious).value)
  {
  }

  lemma ReserveIds(e: Engine, free: Locks, op: Op, spurious: bool)
    requires op.Reserve? && ReserveStep(e, free, op, spurious).Some?
    ensures IdStep(e, op, ReserveStep(e, free, op, spurious).value)
  {
    if op.rs.RAllocate? {
      AllocateIds(e, free, op, spurious);
    } else {
      hide Wrap, LimitOf, SetTotal, SetRemaining, PutRecord, IdStep, Quiet, Finish;
      WritesKeepIds(e, op.tenant);
      PlainIds(e, op);
      if op.rs.RInsert? {
        RecordIds(e, op, op.rs.id, Record(op.tenant, op.cost));
      }
    }
  }

  lemma CommitIds(e: Engine, free: Locks, op: Op, spurious: bool)
    requires op.Commit? && CommitStep(e, free, op, spurious).Some?
    ensures IdStep(e, op, CommitStep(e, free, op, spurious).value)
  {
    hide Wrap, SetTotal, SetRemaining, SetCommitted, PutRecord, IdStep, Quiet, Finish;
    WritesKeepIds(e, op.rec.tenant);
    PlainIds(e, op);
    RecordIds(e, op, op.id, op.rec);
    SettleIds(e, op, op.id);
  }

  lemma ReleaseIds(e: Engine, free: Locks, op: Op)
    requires op.Release? && ReleaseStep(e, free, op).Some?
    ensures IdStep(e, op, ReleaseStep(e, free, op).value)
  {
    hide Wrap, LimitOf;
  }

  lemma RemoveIds(e: Engine, free: Locks, op: Op)
    requires (op.CommitStart? || op.ReleaseStart?) && RemoveStep(e, free, op).Some?
    ensures IdStep(e, op, RemoveStep(e, free, op).value)
  {
    hide Wrap, LimitOf;
  }

  lemma TopUpIds(e: Engine, free: Locks, op: Op, spurious: bool)
    requires op.TopUp? && TopUpStep(e, free, op, spurious).Some?
    ensures IdStep(e, op, TopUpStep(e, free, op, spurious).value)
  {
    hide Wrap, LimitOf;
  }

  lemma EnsureIds(e: Engine, free: Locks, op: Op)
    requires op.Ensure? && EnsureStep(e, free, op).Some?
    ensures IdStep(e, op, EnsureStep(e, free, op).value)
  {
  }

  lemma OpIds(e: Engine, free: Locks, op: Op, spurious: bool)
    requires OpStep(e, free, op, spurious).Some?
    ensures IdStep(e, op, OpStep(e, free, op, spurious).value)
  {
    hide IdStep, ReserveStep, CommitStep, ReleaseStep, RemoveStep, TopUpStep, EnsureStep;
    match op
    case Reserve(_, _, _) => ReserveIds(e, free, op, spurious);
    case CommitStart(_, _) => RemoveIds(e, free, op);
    case Commit(_, _, _, _) => CommitIds(e, free, op, spurious);
    case ReleaseStart(_) => RemoveIds(e, free, op);
    case Release(_, _, _) => ReleaseIds(e, free, op);
    case TopUp(_, _, _) => TopUpIds(e, free, op, spurious);
    case Ensure(_, _, _) => EnsureIds(e, free, op);
  }

  lemma ActLive(s: State, k: nat, x: Effect, id: nat)
    requires k in s.ops && IdStep(s.e, s.ops[k], x) && Live(Apply(s, k, x), id)
    ensures Live(s, id) || id in x.issued
  {
    var s' := Apply(s, k, x);
    if id !in s'.e.reservations {
      var j :| j in s'.ops && IdOf(s'.ops[j]) == Some(id);
      assert j != k ==> s.ops[j] == s'.ops[j];
    }
  }

  /** A settled id is no longer live: no record holds it and no other call owns it. */
  lemma SettledIsDead(s: State, k: nat, x: Effect, id: nat)
    requires Shape(s) && k in s.ops && IdStep(s.e, s.ops[k], x) && id in x.settled
    ensures !Live(Apply(s, k, x), id)
  {
    hide Shape;
    var s' := Apply(s, k, x);
    assert OpOk(s.e, s.ops[k]) by {
      ShapeOps(s, k);
    }
    if j :| j in s'.ops && IdOf(s'.ops[j]) == Some(id) {
      ShapeApart(s, j, k);
    }
  }

  lemma ShapeOps(s: State, k: nat)
    requires Shape(s) && k in s.ops
    ensures OpOk(s.e, s.ops[k])
  {
  }

  lemma ShapeApart(s: State, j: nat, k: nat)
    requires Shape(s) && j in s.ops && k in s.ops && j != k
    ensures Apart(s.ops[j], s.ops[k])
  {
  }

  lemma ActIds(s: State, k: nat, x: Effect)
    requires Shape(s) && Ids(s) && k in s.ops && IdStep(s.e, s.ops[k], x)
    ensures Ids(Apply(s, k, x))
  {
    hide Live, Shape;
    var s' := Apply(s, k, x);
    forall id | Live(s', id)
      ensures id in s'.issued && id !in s'.settled
    {
      ActLive(s, k, x, id);
      if id in x.settled {
        SettledIsDead(s, k, x, id);
      }
    }
    OwnedIsLive(s, k);
    IncreasingPush(s.issued, s.e.next_id);
    assert s.issued + [] == s.issued;
    assert NoDup(s'.settled);
    assert forall id :: id in s'.issued ==> id < s'.e.next_id;
    assert forall id :: id in s'.settled ==> id in s'.issued;
  }

  lemma IncreasingPush(s: seq<nat>, x: nat)
    requires Increasing(s) && forall y :: y in s ==> y < x
    ensures Increasing(s + [x])
  {
    assert forall i :: 0 <= i < |s| ==> s[i] in s;
  }

  lemma OwnedIsLive(s: State, k: nat)
    requires k in s.ops
    ensures IdOf(s.ops[k]).Some? ==> Live(s, IdOf(s.ops[k]).value)
  {
  }

  /** A restore is guarded when the snapshot's fence is above every id handed out so far. */
  predicate Guarded(s: State, ev: Event) {
    ev.Restore? ==> forall id :: id in s.issued ==> id < Fence(ev.snap.version)
  }

  lemma NextIds(s: State, ev: Event)
    requires Inv(s) && Ids(s) && Next(s, ev).Some? && Guarded(s, ev)
    ensures Ids(Next(s, ev).value)
  {
    hide Accounts, OpStep, FreeLocks, OpOk, RecordOk, Restorable, Apart, Increasing, NoDup, IdStep;
    var s' := Next(s, ev).value;
    match ev
    case Begin(k, op) =>
      forall id | Live(s', id)
        ensures Live(s, id)
      {
        if id !in s'.e.reservations {
          var j :| j in s'.ops && IdOf(s'.ops[j]) == Some(id);
          assert j != k && s.ops[j] == s'.ops[j];
        }
      }
    case Act(k, spurious) =>
      ShapeOps(s, k);
      OpIds(s.e, FreeLocks(s.ops), s.ops[k], spurious);
      ActIds(s, k, OpStep(s.e, FreeLocks(s.ops), s.ops[k], spurious).value);
    case EnsureTenant(t, budget) =>
      assert forall id :: Live(s', id) ==> Live(s, id);
    case SetCap(t, max) =>
      assert forall id :: Live(s', id) ==> Live(s, id);
    case TakeSnapshot =>
      assert forall id :: Live(s', id) ==> Live(s, id);
    case Restore(snap) =>
      assert forall id :: !Live(s', id);
  }

  ghost predicate AllGuarded(s: State, events: seq<Event>)
    decreases |events|
  {
    events != [] && Next(s, events[0]).Some? ==>
      Guarded(s, events[0]) && AllGuarded(Next(s, events[0]).value, events[1..])
  }

  lemma {:induction false} RunIds(s: State, events: seq<Event>)
    requires Inv(s) && Ids(s) && Run(s, events).Some? && AllGuarded(s, events)
    ensures Ids(Run(s, events).value)
    decreases |events|
  {
    hide Inv, Next, Ids, Guarded;
    if events != [] {
      NextIds(s, events[0]);
      NextKeeps(s, events[0]);
      RunIds(Next(s, events[0]).value, events[1..]);
    }
  }

  lemma InitialOk()
    ensures Inv(Initial) && Ids(Initial)
  {
    assert forall id :: !Live(Initial, id);
  }

  /** Over every run whose restores are guarded, no id is issued twice and none is settled twice. */
  lemma IdsOnce(events: seq<Event>)
    requires Run(Initial, events).Some? && AllGuarded(Initial, events)
    ensures var s := Run(Initial, events).value;
      && Increasing(s.issued) && NoDup(s.settled)
      && (forall id :: id in s.settled ==> id in s.issued && id !in s.e.reservations)
  {
    hide Next, Run, AllGuarded;
    InitialOk();
    RunIds(Initial, events);
    assert forall id :: id in Run(Initial, events).value.e.reservations ==> Live(Run(Initial, events).value, id);
  }

  // ----- When a restore can reissue an id -----

  predicate NoRestores(events: seq<Event>) {
    forall i :: 0 <= i < |events| ==> !events[i].Restore?
  }

  lemma {:induction false} NoRestoresGuarded(s: State, events: seq<Event>)
    requires NoRestores(events)
    ensures AllGuarded(s, events)
    decreases |events|
  {
    hide Next;
    if events != [] && Next(s, events[0]).Some? {
      NoRestoresGuarded(Next(s, events[0]).value, events[1..]);
    }
  }

  /** Snapshots only move the allocator. */
  lemma {:induction false} Snapshots(s: State, n: nat) returns (events: seq<Event>)
    requires s.ops == map[] && s.e.next_id + n <= ALLOCATOR_MASK
    ensures NoRestores(events) && Run(s, events).Some?
    ensures var e := Run(s, events).value.e;
      && Run(s, events).value == s.(e := e)
      && e.(snapshot_version := 0) == s.e.(next_id := s.e.next_id + n, snapshot_version := 0)
    decreases n
  {
    if n == 0 {
      events := [];
    } else {
      var s' := Next(s, TakeSnapshot).value;
      var rest := Snapshots(s', n - 1);
      events := [TakeSnapshot] + rest;
      assert events[1..] == rest;
    }
  }

  const Probe := [EnsureTenant("", 0), Begin(0, Reserve("", 1, RLookup)),
                  Act(0, false), Act(0, false), Act(0, false), Act(0, false), Act(0, false)]

  /** The only call in flight takes a step. */
  lemma LoneAct(s: State, op: Op)
    requires s.ops == map[0 := op] && op.Reserve?
    ensures var x := ReserveStep(s.e, Locks(true, true, true, true), op, false);
      x.Some? ==>
        var ops := if x.value.next.Some? then map[0 := x.value.next.value] else map[];
        Next(s, Act(0, false)) ==
          Some(State(x.value.e, ops, s.issued + x.value.issued, s.settled + x.value.settled))
  {
    hide ReserveStep;
    var x := ReserveStep(s.e, Locks(true, true, true, true), op, false);
    assert FreeLocks(s.ops) == Locks(true, true, true, true);
    if x.Some? {
      if x.value.next.Some? {
        assert s.ops[0 := x.value.next.value] == map[0 := x.value.next.value];
      } else {
        assert s.ops - {0} == map[];
      }
    }
  }

  /** An idle engine with nothing reserved and no caps hands out its next id to the next reservation. */
  lemma ProbeIssues(s: State)
    requires s.ops == map[] && SameTenants(s.e) && s.e.limits == map[] && s.e.next_id < ALLOCATOR_MASK
    requires forall t :: t in s.e.totals ==> s.e.totals[t] == 0
    ensures Run(s, Probe).Some? && Run(s, Probe).value.issued == s.issued + [s.e.next_id]
  {
    var acts := [Act(0, false), Act(0, false), Act(0, false), Act(0, false), Act(0, false)];
    var e := Ensured(s.e, "", 0);
    var op := Reserve("", 1, RLookup);
    ProbeActs(s.(e := e, ops := map[0 := op]), acts, 1);
    assert Next(s, Probe[0]) == Some(s.(e := e)) by {
      hide OpStep, Apply;
    }
    hide Next, Run;
    RunStep(s, Probe);
    assert Probe[1..] == [Probe[1]] + acts;
    assert Next(s.(e := e), Probe[1]) == Some(s.(e := e, ops := map[0 := op])) by {
      BeginProbe(s.(e := e), 1);
    }
    RunStep(s.(e := e), Probe[1..]);
    assert Probe[1..][1..] == acts;
  }

  lemma BeginProbe(s: State, cost: int)
    requires s.ops == map[] && 0 < cost <= I64_MAX
    ensures Next(s, Begin(0, Reserve("", cost, RLookup))) == Some(s.(ops := map[0 := Reserve("", cost, RLookup)]))
  {
  }

  lemma ProbeActs(s: State, acts: seq<Event>, cost: int)
    requires s.ops == map[0 := Reserve("", cost, RLookup)] && s.e.limits == map[] && s.e.next_id < ALLOCATOR_MASK
    requires "" in s.e.remaining && "" in s.e.totals && s.e.totals[""] == 0 && 0 < cost <= I64_MAX
    requires acts == [Act(0, false), Act(0, false), Act(0, false), Act(0, false), Act(0, false)]
    ensures Run(s, acts) == Some(State(Bump(SetTotal(s.e, "", cost)), map[0 := Reserve("", cost, RLoadBudget(s.e.next_id))],
                                       s.issued + [s.e.next_id], s.settled))
  {
    hide Next, Run;
    assert s.issued + [] == s.issued && s.settled + [] == s.settled;
    var op := Reserve("", cost, RLookup);
    LoneAct(s, op);
    RunStep(s, acts);
    var s1 := s.(ops := map[0 := op.(rs := RLimit)]);
    LoneAct(s1, op.(rs := RLimit));
    RunStep(s1, acts[1..]);
    var s2 := s.(ops := map[0 := op.(rs := RLoadTotal(0))]);
    LoneAct(s2, op.(rs := RLoadTotal(0)));
    RunStep(s2, acts[2..]);
    var s3 := s.(ops := map[0 := op.(rs := RAddTotal(0, 0))]);
    LoneAct(s3, op.(rs := RAddTotal(0, 0)));
    RunStep(s3, acts[3..]);
    var s4 := s.(e := SetTotal(s.e, "", cost), ops := map[0 := op.(rs := RAllocate)]);
    LoneAct(s4, op.(rs := RAllocate));
    RunStep(s4, acts[4..]);
    RunNothing(Next(s4, acts[4]).value, acts[4..][1..]);
    assert acts[1..][1..] == acts[2..] && acts[2..][1..] == acts[3..] && acts[3..][1..] == acts[4..];
  }

  const Act0 := Act(0, false)

  /** A tenant that can pay gets its reservation recorded. */
  lemma PayAndRecord(s: State, id: nat, cost: int)
    requires s.ops == map[0 := Reserve("", cost, RLoadBudget(id))]
    requires "" in s.e.remaining && cost <= s.e.remaining[""]
    ensures Run(s, [Act0, Act0, Act0]) ==
      Some(State(PutRecord(SetRemaining(s.e, "", s.e.remaining[""] - cost), id, Record("", cost)), map[], s.issued, s.settled))
  {
    hide Next, Run, PutRecord, SetRemaining, SetTotal, Wrap, LimitOf, Bump;
    assert s.issued + [] == s.issued && s.settled + [] == s.settled;
    var op := Reserve("", cost, RLoadBudget(id));
    var acts := [Act0, Act0, Act0];
    LoneAct(s, op);
    RunStep(s, acts);
    var s1 := s.(ops := map[0 := op.(rs := RDebit(id, s.e.remaining[""]))]);
    LoneAct(s1, op.(rs := RDebit(id, s.e.remaining[""])));
    RunStep(s1, acts[1..]);
    var s2 := s.(e := SetRemaining(s.e, "", s.e.remaining[""] - cost), ops := map[0 := op.(rs := RInsert(id))]);
    LoneAct(s2, op.(rs := RInsert(id)));
    RunStep(s2, acts[2..]);
    RunNothing(Next(s2, acts[2]).value, acts[2..][1..]);
    assert acts[1..][1..] == acts[2..];
  }

  /** All steps of one reservation that nothing gets in the way of. */
  function OneReservation(cost: int): seq<Event> {
    [Begin(0, Reserve("", cost, RLookup)), Act0, Act0, Act0, Act0, Act0, Act0, Act0, Act0]
  }

  lemma ReservedOnce(s: State, cost: int)
    requires s.ops == map[] && s.e.limits == map[] && s.e.next_id < ALLOCATOR_MASK && 0 < cost <= I64_MAX
    requires "" in s.e.remaining && "" in s.e.totals && s.e.totals[""] == 0 && cost <= s.e.remaining[""]
    ensures Run(s, OneReservation(cost)).Some?
    ensures var s' := Run(s, OneReservation(cost)).value;
      s'.ops == map[] && s'.issued == s.issued + [s.e.next_id] && s'.e.totals == s.e.totals["" := cost]
  {
    hide Next, Run;
    BeginProbe(s, cost);
    var s1 := s.(ops := map[0 := Reserve("", cost, RLookup)]);
    var acts := [Act0, Act0, Act0, Act0, Act0];
    ProbeActs(s1, acts, cost);
    var s2 := Run(s1, acts).value;
    PayAndRecord(s2, s.e.next_id, cost);
    RunSplit(s1, acts, [Act0, Act0, Act0]);
    RunStep(s, OneReservation(cost));
    assert OneReservation(cost)[1..] == acts + [Act0, Act0, Act0];
  }

  /** Restoring `snap` now can never lead, without another restore, to an id being issued twice. */
  ghost predicate NeverReissues(s: State, snap: BudgetSnapshot) {
    forall events :: NoRestores(events) && Run(s.(e := Restored(snap)), events).Some? ==>
      NoDup(Run(s.(e := Restored(snap)), events).value.issued)
  }

  lemma FenceTooLow(s: State, snap: BudgetSnapshot, id: nat) returns (events: seq<Event>)
    requires s.ops == map[] && Ids(s) && s.e.next_id <= ALLOCATOR_MASK && Restorable(snap)
    requires id in s.issued && Fence(snap.version) <= id
    ensures NoRestores(events) && Run(s.(e := Restored(snap)), events).Some?
    ensures Run(s.(e := Restored(snap)), events).value.issued == s.issued + [id]
  {
    hide Column, Run, Next;
    var s0 := s.(e := Restored(snap));
    RestoredTenants(snap);
    var climb := Snapshots(s0, id - Fence(snap.version));
    var s1 := Run(s0, climb).value;
    forall t | t in s1.e.totals
      ensures s1.e.totals[t] == 0
    {
      var i :| 0 <= i < |snap.tenants| && snap.tenants[i].tenant == t;
      RestoredRow(snap, i);
      assert GoodRow(snap.tenants[i]);
    }
    ProbeIssues(s1);
    RunSplit(s0, climb, Probe);
    events := climb + Probe;
  }

  /**
   * After a restore no id is ever issued again exactly when the snapshot's fence is above every id
   * issued so far: a snapshot older than the latest reservation is not enough.
   */
  lemma RestoreSafety(s: State, snap: BudgetSnapshot)
    requires Inv(s) && Ids(s) && s.ops == map[] && Restorable(snap)
    ensures NeverReissues(s, snap) <==> Guarded(s, Restore(snap))
  {
    var s0 := s.(e := Restored(snap));
    if Guarded(s, Restore(snap)) {
      RestoreKeeps(s, snap);
      assert Next(s, Restore(snap)) == Some(s0);
      NextIds(s, Restore(snap));
      forall events | NoRestores(events) && Run(s0, events).Some?
        ensures NoDup(Run(s0, events).value.issued)
      {
        NoRestoresGuarded(s0, events);
        RunIds(s0, events);
      }
    } else {
      var id :| id in s.issued && Fence(snap.version) <= id;
      var events := FenceTooLow(s, snap, id);
      var issued := Run(s0, events).value.issued;
      var i :| 0 <= i < |s.issued| && s.issued[i] == id;
      assert issued[i] == issued[|s.issued|] == id;
    }
  }

  // ----- A cap set too low -----

  const TwoBudget := Engine(map["" := 2], map["" := 2], map["" := 0], map["" := 0], map[], map[], 1, 0)

  /** A cap can be set below what is reserved, and does not hold then: here 1 is set with 2 reserved. */
  lemma LoweredCap()
    ensures var events := [EnsureTenant("", 2)] + OneReservation(2) + [SetCap("", 1)];
      Run(Initial, events).Some? && !CapHolds(Run(Initial, events).value.e, "")
  {
    var s := State(TwoBudget, map[], [], []);
    assert Next(Initial, EnsureTenant("", 2)) == Some(s);
    hide Next, Run;
    RunStep(Initial, [EnsureTenant("", 2)]);
    RunNothing(s, [EnsureTenant("", 2)][1..]);
    ReservedOnce(s, 2);
    var s' := Run(s, OneReservation(2)).value;
    RunSplit(Initial, [EnsureTenant("", 2)], OneReservation(2));
    CapSet(s', "", 1);
    RunSplit(Initial, [EnsureTenant("", 2)] + OneReservation(2), [SetCap("", 1)]);
  }

  lemma CapSet(s: State, t: Tenant, max: int)
    requires s.ops == map[] && 0 < max <= I64_MAX
    ensures Run(s, [SetCap(t, max)]) == Some(s.(e := Capped(s.e, t, max)))
  {
    RunStep(s, [SetCap(t, max)]);
    RunNothing(s.(e := Capped(s.e, t, max)), [SetCap(t, max)][1..]);
  }
}
