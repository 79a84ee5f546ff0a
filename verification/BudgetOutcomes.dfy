/**
 * What each budget call leaves behind when no other call moves between its steps: the whole new state,
 * for every outcome, however often its compare-and-swaps fail for no reason.
 */
module BudgetOutcomes {
  import opened Wrappers
  import opened BudgetProtocol
  import opened BudgetConservation
  import opened BudgetRuns
  import opened BudgetProgress

  /** What a call leaves: the engine, and the ids it issued and settled. */
  datatype Outcome = Outcome(e: Engine, issued: seq<nat>, settled: seq<nat>)

  function Untouched(e: Engine): Outcome {
    Outcome(e, [], [])
  }

  // ----- What a whole call means -----

  /** The amounts of one tenant, moved by some differences. */
  function Moved(e: Engine, t: Tenant, remaining: int, total: int, committed: int, initial: int): Engine
    requires SameTenants(e) && t in e.remaining
  {
    e.(remaining := e.remaining[t := e.remaining[t] + remaining],
       totals := e.totals[t := e.totals[t] + total],
       committed := e.committed[t := e.committed[t] + committed],
       initial := e.initial[t := e.initial[t] + initial])
  }

  /** The new total neither overflows nor exceeds a cap that stands. */
  predicate WithinCap(e: Engine, t: Tenant, cost: int)
    requires t in e.totals
  {
    e.totals[t] + cost <= I64_MAX && (t in e.limits ==> e.totals[t] + cost <= e.limits[t])
  }

  /** A reservation: refused without a trace, refused after an id was spent on it, or made. */
  function Reserved(e: Engine, t: Tenant, cost: int): Outcome
    requires SameTenants(e)
  {
    if t !in e.remaining || !WithinCap(e, t, cost) || e.next_id >= ALLOCATOR_MASK then Untouched(e)
    else if e.remaining[t] < cost then Outcome(e.(next_id := e.next_id + 1), [e.next_id], [])
    else
      var moved := Moved(e, t, -cost, cost, 0, 0);
      Outcome(moved.(next_id := e.next_id + 1, reservations := e.reservations[e.next_id := Record(t, cost)]), [e.next_id], [])
  }

  /** Every record is of a known tenant. */
  predicate KnownTenants(e: Engine) {
    forall id :: id in e.reservations ==> e.reservations[id].tenant in e.remaining
  }

  /** The committed amount does not overflow, and the balance covers what the record did not set aside. */
  predicate Committable(e: Engine, rec: Record, actual: int)
    requires SameTenants(e) && rec.tenant in e.remaining
  {
    e.committed[rec.tenant] + actual <= I64_MAX && actual - rec.amount <= e.remaining[rec.tenant]
  }

  /** A commit: the record goes and its hold with it, and the actual cost is committed; or nothing changes. */
  function Committed(e: Engine, id: nat, actual: int): Outcome
    requires SameTenants(e) && KnownTenants(e)
  {
    if id !in e.reservations || !Committable(e, e.reservations[id], actual) then Untouched(e)
    else
      var rec := e.reservations[id];
      var moved := Moved(e, rec.tenant, rec.amount - actual, -rec.amount, actual, 0);
      Outcome(moved.(reservations := e.reservations - {id}), [], [id])
  }

  /** A release: the record goes, and its hold is spendable again. */
  function Released(e: Engine, id: nat): Outcome
    requires SameTenants(e) && KnownTenants(e)
  {
    if id !in e.reservations then Untouched(e)
    else
      var rec := e.reservations[id];
      Outcome(Moved(e, rec.tenant, rec.amount, -rec.amount, 0, 0).(reservations := e.reservations - {id}), [], [id])
  }

  /** A top-up: balance and initial amount rise together, or nothing changes. */
  function ToppedUp(e: Engine, t: Tenant, amount: int): Outcome
    requires SameTenants(e)
  {
    if t !in e.remaining || e.initial[t] + amount > I64_MAX || e.remaining[t] + amount > I64_MAX then Untouched(e)
    else Outcome(Moved(e, t, amount, 0, 0, amount), [], [])
  }

  /** A tenant with its budget and nothing else, unless there is one. */
  function Opened(e: Engine, t: Tenant, budget: int): Outcome {
    if t in e.remaining then Untouched(e)
    else
      Outcome(e.(remaining := e.remaining[t := budget], initial := e.initial[t := budget],
                 committed := e.committed[t := 0], totals := e.totals[t := 0]), [], [])
  }

  /** What a call that has just begun is for. */
  function Meaning(e: Engine, op: Op): Outcome
    requires SameTenants(e) && KnownTenants(e)
  {
    match op
    case Reserve(t, cost, _) => Reserved(e, t, cost)
    case CommitStart(id, actual) => Committed(e, id, actual)
    case ReleaseStart(id) => Released(e, id)
    case TopUp(t, amount, _) => ToppedUp(e, t, amount)
    case Ensure(t, budget, _) => Opened(e, t, budget)
    case _ => Untouched(e)
  }

  // ----- What is still to come of a call, at each of its stages -----

  predicate Refuses(max: int, current: int, cost: int) {
    current + cost > I64_MAX || (max > 0 && current + cost > max)
  }

  function TotalLowered(e: Engine, t: Tenant, cost: int): Outcome
    requires t in e.totals
  {
    Untouched(SetTotal(e, t, e.totals[t] - cost))
  }

  function AfterDebit(e: Engine, t: Tenant, cost: int, id: nat): Outcome
    requires t in e.totals && t in e.remaining
  {
    if e.remaining[t] < cost then TotalLowered(e, t, cost)
    else Untouched(PutRecord(SetRemaining(e, t, e.remaining[t] - cost), id, Record(t, cost)))
  }

  function AfterAllocation(e: Engine, t: Tenant, cost: int): Outcome
    requires t in e.totals && t in e.remaining
  {
    if e.next_id < ALLOCATOR_MASK then AfterDebit(Bump(e), t, cost, e.next_id).(issued := [e.next_id])
    else TotalLowered(e, t, cost)
  }

  function AfterAdding(e: Engine, t: Tenant, cost: int, max: int): Outcome
    requires t in e.totals && t in e.remaining
  {
    if Refuses(max, e.totals[t], cost) then Untouched(e)
    else AfterAllocation(SetTotal(e, t, e.totals[t] + cost), t, cost)
  }

  function ReserveRest(e: Engine, op: Op): Outcome
    requires op.Reserve? && SameTenants(e) && (op.rs.RLookup? || op.tenant in e.remaining)
  {
    var t, cost := op.tenant, op.cost;
    match op.rs
    case RLookup => if t in e.remaining then AfterAdding(e, t, cost, LimitOf(e, t)) else Untouched(e)
    case RLimit => AfterAdding(e, t, cost, LimitOf(e, t))
    case RLoadTotal(max) => AfterAdding(e, t, cost, max)
    case RAddTotal(max, current) => if Refuses(max, current, cost) then Untouched(e) else AfterAdding(e, t, cost, max)
    case RAllocate => AfterAllocation(e, t, cost)
    case RLoadBudget(id) => AfterDebit(e, t, cost, id)
    case RDebit(id, current) => if current < cost then TotalLowered(e, t, cost) else AfterDebit(e, t, cost, id)
    case RInsert(id) => Untouched(PutRecord(e, id, Record(t, cost)))
    case RUndo => TotalLowered(e, t, cost)
  }

  function Unreserved(e: Engine, id: nat, rec: Record): Outcome
    requires rec.tenant in e.totals
  {
    Outcome(SetTotal(e, rec.tenant, e.totals[rec.tenant] - rec.amount), [], [id])
  }

  function Refunded(e: Engine, id: nat, rec: Record, actual: int): Outcome
    requires rec.tenant in e.totals && rec.tenant in e.remaining
  {
    var t := rec.tenant;
    Unreserved(if actual < rec.amount then SetRemaining(e, t, e.remaining[t] + rec.amount - actual) else e, id, rec)
  }

  function AfterOverrun(e: Engine, id: nat, rec: Record, actual: int, new_committed: int): Outcome
    requires rec.tenant in e.totals && rec.tenant in e.remaining
  {
    var t, delta := rec.tenant, actual - rec.amount;
    if e.remaining[t] < delta then Untouched(PutRecord(e, id, rec))
    else Refunded(SetCommitted(SetRemaining(e, t, e.remaining[t] - delta), t, new_committed), id, rec, actual)
  }

  function AfterLock(e: Engine, id: nat, rec: Record, actual: int): Outcome
    requires SameTenants(e) && rec.tenant in e.remaining
  {
    var t := rec.tenant;
    var new_committed := e.committed[t] + actual;
    if new_committed > I64_MAX then Untouched(PutRecord(e, id, rec))
    else if actual > rec.amount then AfterOverrun(e, id, rec, actual, new_committed)
    else Refunded(SetCommitted(e, t, new_committed), id, rec, actual)
  }

  function CommitRest(e: Engine, op: Op): Outcome
    requires op.Commit? && SameTenants(e) && op.rec.tenant in e.remaining
  {
    var id, rec, actual := op.id, op.rec, op.actual;
    match op.cs
    case CLookup => AfterLock(e, id, rec, actual)
    case CLock => AfterLock(e, id, rec, actual)
    case CLoad(new_committed) => AfterOverrun(e, id, rec, actual, new_committed)
    case CDebit(new_committed, current) =>
      if current < actual - rec.amount then Untouched(PutRecord(e, id, rec))
      else AfterOverrun(e, id, rec, actual, new_committed)
    case CCommit(new_committed) => Refunded(SetCommitted(e, rec.tenant, new_committed), id, rec, actual)
    case CRefund => Refunded(e, id, rec, actual)
    case CUnreserve => Unreserved(e, id, rec)
    case CFail => Untouched(PutRecord(e, id, rec))
  }

  function Credited(e: Engine, id: nat, rec: Record): Outcome
    requires rec.tenant in e.remaining
  {
    Outcome(SetRemaining(e, rec.tenant, e.remaining[rec.tenant] + rec.amount), [], [id])
  }

  function ReleaseRest(e: Engine, op: Op): Outcome
    requires op.Release? && SameTenants(e) && op.rec.tenant in e.remaining
  {
    var t := op.rec.tenant;
    if op.ls.LCredit? then Credited(e, op.id, op.rec)
    else Credited(SetTotal(e, t, e.totals[t] - op.rec.amount), op.id, op.rec)
  }

  function AfterCredit(e: Engine, t: Tenant, amount: int, new_initial: int): Outcome
    requires t in e.remaining
  {
    if e.remaining[t] + amount > I64_MAX then Untouched(e)
    else Untouched(SetInitial(SetRemaining(e, t, e.remaining[t] + amount), t, new_initial))
  }

  function AfterInitial(e: Engine, t: Tenant, amount: int): Outcome
    requires SameTenants(e) && t in e.remaining
  {
    if e.initial[t] + amount > I64_MAX then Untouched(e) else AfterCredit(e, t, amount, e.initial[t] + amount)
  }

  function TopUpRest(e: Engine, op: Op): Outcome
    requires op.TopUp? && SameTenants(e) && (op.ts.TLookup? || op.tenant in e.remaining)
  {
    var t, amount := op.tenant, op.amount;
    match op.ts
    case TLookup => if t in e.remaining then AfterInitial(e, t, amount) else Untouched(e)
    case TInitial => AfterInitial(e, t, amount)
    case TLoad(new_initial) => AfterCredit(e, t, amount, new_initial)
    case TCredit(new_initial, current) =>
      if current + amount > I64_MAX then Untouched(e) else AfterCredit(e, t, amount, new_initial)
    case TStore(new_initial) => Untouched(SetInitial(e, t, new_initial))
  }

  function Rest(e: Engine, op: Op): Outcome
    requires SameTenants(e) && KnownTenants(e) && (TenantOf(op).Some? ==> TenantOf(op).value in e.remaining)
  {
    match op
    case Reserve(_, _, _) => ReserveRest(e, op)
    case CommitStart(id, actual) =>
      if id !in e.reservations then Untouched(e) else AfterLock(DropRecord(e, id), id, e.reservations[id], actual)
    case Commit(_, _, _, _) => CommitRest(e, op)
    case ReleaseStart(id) =>
      if id !in e.reservations then Untouched(e)
      else ReleaseRest(DropRecord(e, id), Release(id, e.reservations[id], LLookup))
    case Release(_, _, _) => ReleaseRest(e, op)
    case TopUp(_, _, _) => TopUpRest(e, op)
    case Ensure(t, budget, _) => Opened(e, t, budget)
  }

  // ----- Each step goes towards it -----

  ghost predicate Towards(e: Engine, op: Op, x: Effect, rest: Outcome) {
    if x.next.None? then Outcome(x.e, x.issued, x.settled) == rest
    else
      && SameTenants(x.e) && KnownTenants(x.e)
      && (TenantOf(x.next.value).Some? ==> TenantOf(x.next.value).value in x.e.remaining)
      && var o := Rest(x.e, x.next.value);
         rest == Outcome(o.e, x.issued + o.issued, x.settled + o.settled)
  }

  /** The locals are true, and nothing a step adds or takes can wrap. */
  ghost predicate Steady(e: Engine, op: Op) {
    && EngineOk(e) && OpOk(e, op)
    && (TenantOf(op).Some? ==> Room(PurseOf(e, TenantOf(op).value), op, TenantOf(op).value))
  }

  lemma SteadyParts(e: Engine, op: Op)
    requires Steady(e, op)
    ensures SameTenants(e) && KnownTenants(e) && OpOk(e, op)
  {
    forall id | id in e.reservations
      ensures e.reservations[id].tenant in e.remaining
    {
      assert RecordOk(e, id, e.reservations[id]);
    }
  }

  lemma ReserveExact(e: Engine, op: Op)
    requires Steady(e, op) && op.Reserve? && op.rs.RUndo?
    ensures op.tenant in e.totals && Wrap(e.totals[op.tenant] - op.cost) == e.totals[op.tenant] - op.cost
  {
  }

  lemma CommitExact(e: Engine, op: Op)
    requires Steady(e, op) && op.Commit? && SameTenants(e)
    ensures var t, r := op.rec.tenant, op.rec.amount;
      && t in e.remaining
      && Wrap(e.totals[t] - r) == e.totals[t] - r
      && (op.cs.CRefund? && op.actual < r ==> Wrap(e.remaining[t] - (op.actual - r)) == e.remaining[t] + r - op.actual)
  {
  }

  lemma EarlyReserveTowards(e: Engine, free: Locks, op: Op, spurious: bool)
    requires SameTenants(e) && KnownTenants(e) && OpOk(e, op) && op.Reserve? && Early(op)
    requires ReserveStep(e, free, op, spurious).Some?
    ensures Towards(e, op, ReserveStep(e, free, op, spurious).value, Rest(e, op))
  {
    hide KnownTenants, Wrap, AfterAllocation, LimitOf;
    if op.tenant in e.remaining {
      KnownStay(e, op.tenant);
    }
    assert forall o: Outcome :: [] + o.issued == o.issued && [] + o.settled == o.settled;
  }

  lemma DebitTowards(e: Engine, free: Locks, op: Op, spurious: bool)
    requires Steady(e, op) && SameTenants(e) && KnownTenants(e) && OpOk(e, op) && op.Reserve? && (op.rs.RLoadBudget? || op.rs.RDebit?)
    requires ReserveStep(e, free, op, spurious).Some?
    ensures Towards(e, op, ReserveStep(e, free, op, spurious).value, Rest(e, op))
  {
    hide Steady, KnownTenants, Wrap, LimitOf, AfterAdding, CommitRest, TopUpRest, Opened, AfterLock, ReleaseRest;
    KnownStay(e, op.tenant);
    assert forall o: Outcome :: [] + o.issued == o.issued && [] + o.settled == o.settled;
  }

  lemma LateReserveTowards(e: Engine, free: Locks, op: Op, spurious: bool)
    requires Steady(e, op) && SameTenants(e) && KnownTenants(e) && OpOk(e, op) && op.Reserve? && !Early(op)
    requires ReserveStep(e, free, op, spurious).Some?
    ensures Towards(e, op, ReserveStep(e, free, op, spurious).value, Rest(e, op))
  {
    hide Steady, KnownTenants, Wrap, LimitOf, AfterAdding, CommitRest, TopUpRest, Opened, AfterLock, ReleaseRest;
    KnownStay(e, op.tenant);
    if op.rs.RLoadBudget? || op.rs.RDebit? {
      DebitTowards(e, free, op, spurious);
      return;
    }
    if op.rs.RUndo? {
      ReserveExact(e, op);
    }
    assert forall o: Outcome :: [] + o.issued == o.issued && [] + o.settled == o.settled;
  }

  lemma ReserveTowards(e: Engine, free: Locks, op: Op, spurious: bool)
    requires Steady(e, op) && op.Reserve? && SameTenants(e) && KnownTenants(e) && ReserveStep(e, free, op, spurious).Some?
    ensures Towards(e, op, ReserveStep(e, free, op, spurious).value, Rest(e, op))
  {
    hide Towards, ReserveStep, Rest, EngineOk, PurseOf, Room;
    if Early(op) {
      EarlyReserveTowards(e, free, op, spurious);
    } else {
      LateReserveTowards(e, free, op, spurious);
    }
  }

  lemma EarlyCommitTowards(e: Engine, free: Locks, op: Op, spurious: bool)
    requires SameTenants(e) && KnownTenants(e) && OpOk(e, op) && op.Commit? && Uncommitted(op)
    requires CommitStep(e, free, op, spurious).Some?
    ensures Towards(e, op, CommitStep(e, free, op, spurious).value, Rest(e, op))
  {
    hide KnownTenants, Wrap, Refunded, SetCommitted;
    KnownStay(e, op.rec.tenant);
    assert forall o: Outcome :: [] + o.issued == o.issued && [] + o.settled == o.settled;
  }

  lemma StoreTowards(e: Engine, free: Locks, op: Op, spurious: bool)
    requires Steady(e, op) && SameTenants(e) && KnownTenants(e) && OpOk(e, op) && op.Commit? && op.cs.CCommit?
    requires CommitStep(e, free, op, spurious).Some?
    ensures Towards(e, op, CommitStep(e, free, op, spurious).value, Rest(e, op))
  {
    hide Steady, KnownTenants, Wrap, AfterLock, AfterOverrun, ReserveRest, TopUpRest, Opened, ReleaseRest, Refunded;
    KnownStay(e, op.rec.tenant);
    CommitExact(e, op);
    assert forall o: Outcome :: [] + o.issued == o.issued && [] + o.settled == o.settled;
  }

  lemma RefundTowards(e: Engine, free: Locks, op: Op, spurious: bool)
    requires Steady(e, op) && SameTenants(e) && KnownTenants(e) && OpOk(e, op) && op.Commit? && op.cs.CRefund?
    requires CommitStep(e, free, op, spurious).Some?
    ensures Towards(e, op, CommitStep(e, free, op, spurious).value, Rest(e, op))
  {
    hide Steady, KnownTenants, Wrap, AfterLock, AfterOverrun, ReserveRest, TopUpRest, Opened, ReleaseRest, Unreserved;
    KnownStay(e, op.rec.tenant);
    CommitExact(e, op);
    assert forall o: Outcome :: [] + o.issued == o.issued && [] + o.settled == o.settled;
  }

  lemma LateCommitTowards(e: Engine, free: Locks, op: Op, spurious: bool)
    requires Steady(e, op) && SameTenants(e) && KnownTenants(e) && OpOk(e, op) && op.Commit? && !Uncommitted(op)
    requires CommitStep(e, free, op, spurious).Some?
    ensures Towards(e, op, CommitStep(e, free, op, spurious).value, Rest(e, op))
  {
    hide Steady, KnownTenants, Wrap, AfterLock, AfterOverrun, ReserveRest, TopUpRest, Opened, ReleaseRest;
    KnownStay(e, op.rec.tenant);
    CommitExact(e, op);
    if op.cs.CCommit? {
      StoreTowards(e, free, op, spurious);
      return;
    }
    if op.cs.CRefund? {
      RefundTowards(e, free, op, spurious);
      return;
    }
    assert forall o: Outcome :: [] + o.issued == o.issued && [] + o.settled == o.settled;
  }

  lemma CommitTowards(e: Engine, free: Locks, op: Op, spurious: bool)
    requires Steady(e, op) && op.Commit? && SameTenants(e) && KnownTenants(e) && CommitStep(e, free, op, spurious).Some?
    ensures Towards(e, op, CommitStep(e, free, op, spurious).value, Rest(e, op))
  {
    hide Towards, CommitStep, Rest, EngineOk, PurseOf, Room;
    if Uncommitted(op) {
      EarlyCommitTowards(e, free, op, spurious);
    } else {
      LateCommitTowards(e, free, op, spurious);
    }
  }

  lemma ReleaseTowards(e: Engine, free: Locks, op: Op)
    requires Steady(e, op) && op.Release? && SameTenants(e) && KnownTenants(e) && ReleaseStep(e, free, op).Some?
    ensures Towards(e, op, ReleaseStep(e, free, op).value, Rest(e, op))
  {
    hide EngineOk, KnownTenants, Wrap, ReserveRest, CommitRest, TopUpRest, Opened, AfterLock;
    WrapAll();
    KnownStay(e, op.rec.tenant);
  }

  lemma CreditTowards(e: Engine, free: Locks, op: Op, spurious: bool)
    requires Steady(e, op) && op.TopUp? && (op.ts.TLoad? || op.ts.TCredit?) && SameTenants(e) && KnownTenants(e)
    requires TopUpStep(e, free, op, spurious).Some?
    ensures Towards(e, op, TopUpStep(e, free, op, spurious).value, Rest(e, op))
  {
    hide EngineOk, KnownTenants, Wrap, CommitRest, ReserveRest, Opened, AfterLock, ReleaseRest;
    if op.tenant in e.remaining {
      KnownStay(e, op.tenant);
    }
  }

  lemma TopUpTowards(e: Engine, free: Locks, op: Op, spurious: bool)
    requires Steady(e, op) && op.TopUp? && SameTenants(e) && KnownTenants(e)
    requires TopUpStep(e, free, op, spurious).Some?
    ensures Towards(e, op, TopUpStep(e, free, op, spurious).value, Rest(e, op))
  {
    hide EngineOk, KnownTenants, Wrap, CommitRest, ReserveRest, Opened, AfterLock, ReleaseRest;
    if op.ts.TLoad? || op.ts.TCredit? {
      CreditTowards(e, free, op, spurious);
      return;
    }
    if op.tenant in e.remaining {
      KnownStay(e, op.tenant);
    }
  }

  lemma OthersTowards(e: Engine, free: Locks, op: Op)
    requires Steady(e, op) && SameTenants(e) && KnownTenants(e)
    requires op.CommitStart? || op.ReleaseStart? || op.Ensure?
    requires OpStep(e, free, op, false).Some?
    ensures Towards(e, op, OpStep(e, free, op, false).value, Rest(e, op))
  {
    hide EngineOk, Wrap;
  }

  /** Writing amounts of a known tenant leaves every record's tenant known. */
  lemma KnownCopy(e: Engine, f: Engine)
    requires KnownTenants(e) && f.remaining.Keys == e.remaining.Keys && f.reservations == e.reservations
    ensures KnownTenants(f)
  {
  }

  lemma KnownStay(e: Engine, t: Tenant)
    requires SameTenants(e) && KnownTenants(e) && t in e.remaining
    ensures forall v {:trigger SetRemaining(e, t, v)} ::
      SameTenants(SetRemaining(e, t, v)) && KnownTenants(SetRemaining(e, t, v))
    ensures forall v {:trigger SetTotal(e, t, v)} :: SameTenants(SetTotal(e, t, v)) && KnownTenants(SetTotal(e, t, v))
    ensures forall v {:trigger SetCommitted(e, t, v)} ::
      SameTenants(SetCommitted(e, t, v)) && KnownTenants(SetCommitted(e, t, v))
    ensures KnownTenants(Bump(e))
  {
    hide KnownTenants;
    forall v
      ensures SameTenants(SetRemaining(e, t, v)) && KnownTenants(SetRemaining(e, t, v))
      ensures SameTenants(SetTotal(e, t, v)) && KnownTenants(SetTotal(e, t, v))
      ensures SameTenants(SetCommitted(e, t, v)) && KnownTenants(SetCommitted(e, t, v))
    {
      assert SetRemaining(e, t, v).remaining.Keys == e.remaining.Keys;
      assert SetTotal(e, t, v).totals.Keys == e.totals.Keys;
      assert SetCommitted(e, t, v).committed.Keys == e.committed.Keys;
      KnownCopy(e, SetRemaining(e, t, v));
      KnownCopy(e, SetTotal(e, t, v));
      KnownCopy(e, SetCommitted(e, t, v));
    }
    KnownCopy(e, Bump(e));
  }

  lemma OpTowards(e: Engine, free: Locks, op: Op, spurious: bool)
    requires Steady(e, op) && SameTenants(e) && KnownTenants(e) && OpOk(e, op) && OpStep(e, free, op, spurious).Some?
    ensures Towards(e, op, OpStep(e, free, op, spurious).value, Rest(e, op))
  {
    hide Towards, Rest, Steady, OpOk, ReserveStep, CommitStep, ReleaseStep, TopUpStep;
    match op
    case Reserve(_, _, _) => ReserveTowards(e, free, op, spurious);
    case Commit(_, _, _, _) => CommitTowards(e, free, op, spurious);
    case Release(_, _, _) => ReleaseTowards(e, free, op);
    case TopUp(_, _, _) => TopUpTowards(e, free, op, spurious);
    case _ => OthersTowards(e, free, op);
  }

  lemma InFlightSteady(s: State, k: nat)
    requires Inv(s) && k in s.ops
    ensures Steady(s.e, s.ops[k]) && SameTenants(s.e) && KnownTenants(s.e) && OpOk(s.e, s.ops[k])
    ensures TenantOf(s.ops[k]).Some? ==> TenantOf(s.ops[k]).value in s.e.remaining
  {
    hide Accounts, RecordOk, Apart, EngineOk, Room;
    EngineIsOk(s);
    assert OpOk(s.e, s.ops[k]);
    if TenantOf(s.ops[k]).Some? {
      StepRoom(s, k, TenantOf(s.ops[k]).value);
    }
    SteadyParts(s.e, s.ops[k]);
  }

  // ----- A call that runs alone -----

  /** Steps of thread `k` only; any of them may fail for no reason. */
  predicate ActsOf(events: seq<Event>, k: nat) {
    forall i :: 0 <= i < |events| ==> events[i].Act? && events[i].k == k
  }

  function Left(s: State, k: nat, o: Outcome): State {
    State(o.e, s.ops - {k}, s.issued + o.issued, s.settled + o.settled)
  }

  /** Once the call has returned, what it left is what was to come of it. */
  lemma {:induction false} AloneLeaves(s: State, k: nat, events: seq<Event>)
    requires Inv(s) && k in s.ops && ActsOf(events, k) && Run(s, events).Some? && k !in Run(s, events).value.ops
    requires SameTenants(s.e) && KnownTenants(s.e)
    requires TenantOf(s.ops[k]).Some? ==> TenantOf(s.ops[k]).value in s.e.remaining
    ensures Run(s, events).value == Left(s, k, Rest(s.e, s.ops[k]))
    decreases |events|
  {
    hide Inv, OpStep, FreeLocks, Rest, KnownTenants, SameTenants;
    assert events != [];
    var x := OpStep(s.e, FreeLocks(s.ops), s.ops[k], events[0].spurious).value;
    var s' := Apply(s, k, x);
    assert Next(s, events[0]) == Some(s');
    InFlightSteady(s, k);
    OpTowards(s.e, FreeLocks(s.ops), s.ops[k], events[0].spurious);
    NextKeeps(s, events[0]);
    if x.next.None? {
      assert k !in s'.ops;
      GoneStays(s', k, events[1..]);
    } else {
      AloneLeaves(s', k, events[1..]);
      assert s'.ops - {k} == s.ops - {k};
      var o := Rest(x.e, x.next.value);
      assert s.issued + x.issued + o.issued == s.issued + (x.issued + o.issued);
      assert s.settled + x.settled + o.settled == s.settled + (x.settled + o.settled);
    }
  }

  /** A thread without a call takes no step. */
  lemma GoneStays(s: State, k: nat, events: seq<Event>)
    requires k !in s.ops && ActsOf(events, k) && Run(s, events).Some?
    ensures events == [] && Run(s, events).value == s
  {
  }

  // ----- The two agree on a call that has just begun -----

  ghost predicate PositiveCaps(e: Engine) {
    forall t :: t in e.limits ==> 0 < e.limits[t]
  }

  lemma SamePut(m: map<Tenant, int>, t: Tenant)
    requires t in m
    ensures m[t := m[t] + 0] == m
  {
  }

  lemma LoweredAgain(e: Engine, t: Tenant, cost: int)
    requires SameTenants(e) && t in e.remaining
    ensures TotalLowered(SetTotal(e, t, e.totals[t] + cost), t, cost) == Untouched(e)
  {
    assert e.totals[t := e.totals[t] + cost][t := e.totals[t]] == e.totals;
  }

  lemma HeldMeans(e: Engine, t: Tenant, cost: int)
    requires SameTenants(e) && t in e.remaining && cost <= e.remaining[t]
    requires WithinCap(e, t, cost) && e.next_id < ALLOCATOR_MASK
    ensures AfterAllocation(SetTotal(e, t, e.totals[t] + cost), t, cost) == Reserved(e, t, cost)
  {
    SamePut(e.committed, t);
    SamePut(e.initial, t);
  }

  lemma MadeMeans(e: Engine, t: Tenant, cost: int)
    requires SameTenants(e) && t in e.remaining && WithinCap(e, t, cost)
    ensures AfterAllocation(SetTotal(e, t, e.totals[t] + cost), t, cost) == Reserved(e, t, cost)
  {
    hide WithinCap, TotalLowered, Moved;
    if e.next_id >= ALLOCATOR_MASK {
      LoweredAgain(e, t, cost);
    } else if e.remaining[t] < cost {
      LoweredAgain(Bump(e), t, cost);
    } else {
      HeldMeans(e, t, cost);
    }
  }

  lemma ReserveMeans(e: Engine, op: Op)
    requires SameTenants(e) && KnownTenants(e) && PositiveCaps(e) && op.Reserve? && op.rs.RLookup? && 0 < op.cost
    ensures Rest(e, op) == Meaning(e, op)
  {
    hide AfterAllocation, KnownTenants;
    var t, cost := op.tenant, op.cost;
    if t in e.remaining {
      assert WithinCap(e, t, cost) <==> !Refuses(LimitOf(e, t), e.totals[t], cost);
      if WithinCap(e, t, cost) {
        MadeMeans(e, t, cost);
      }
    }
  }

  lemma RefusedMeans(e: Engine, id: nat, actual: int)
    requires SameTenants(e) && KnownTenants(e) && id in e.reservations && 0 <= actual
    requires e.reservations[id].tenant in e.remaining && 0 <= e.remaining[e.reservations[id].tenant]
    requires !Committable(e, e.reservations[id], actual)
    ensures AfterLock(DropRecord(e, id), id, e.reservations[id], actual) == Committed(e, id, actual)
  {
    hide KnownTenants, Refunded, Moved;
    assert (e.reservations - {id})[id := e.reservations[id]] == e.reservations;
  }

  lemma OverrunMeans(e: Engine, id: nat, actual: int)
    requires SameTenants(e) && KnownTenants(e) && id in e.reservations && 0 <= actual
    requires e.reservations[id].tenant in e.remaining && Committable(e, e.reservations[id], actual)
    requires e.reservations[id].amount < actual
    ensures AfterLock(DropRecord(e, id), id, e.reservations[id], actual) == Committed(e, id, actual)
  {
    hide KnownTenants;
    var rec := e.reservations[id];
    SamePut(e.initial, rec.tenant);
  }

  lemma SettledMeans(e: Engine, id: nat, actual: int)
    requires SameTenants(e) && KnownTenants(e) && id in e.reservations && 0 <= actual
    requires e.reservations[id].tenant in e.remaining && Committable(e, e.reservations[id], actual)
    ensures AfterLock(DropRecord(e, id), id, e.reservations[id], actual) == Committed(e, id, actual)
  {
    hide KnownTenants;
    var rec := e.reservations[id];
    if rec.amount < actual {
      OverrunMeans(e, id, actual);
      return;
    }
    SamePut(e.initial, rec.tenant);
    SamePut(e.remaining, rec.tenant);
  }

  lemma CommitMeans(e: Engine, op: Op)
    requires SameTenants(e) && KnownTenants(e) && op.CommitStart? && 0 <= op.actual
    requires op.id in e.reservations ==> 0 < e.reservations[op.id].amount
    requires op.id in e.reservations ==> 0 <= e.remaining[e.reservations[op.id].tenant]
    ensures Rest(e, op) == Meaning(e, op)
  {
    if op.id in e.reservations {
      hide AfterLock, Committed, Committable;
      if Committable(e, e.reservations[op.id], op.actual) {
        SettledMeans(e, op.id, op.actual);
      } else {
        RefusedMeans(e, op.id, op.actual);
      }
    }
  }

  lemma ReleaseMeans(e: Engine, op: Op)
    requires SameTenants(e) && KnownTenants(e) && op.ReleaseStart?
    ensures Rest(e, op) == Meaning(e, op)
  {
    if op.id in e.reservations {
      var t := e.reservations[op.id].tenant;
      SamePut(e.initial, t);
      SamePut(e.committed, t);
    }
  }

  lemma TopUpMeans(e: Engine, op: Op)
    requires SameTenants(e) && KnownTenants(e) && op.TopUp? && op.ts.TLookup?
    ensures Rest(e, op) == Meaning(e, op)
  {
    if op.tenant in e.remaining {
      SamePut(e.totals, op.tenant);
      SamePut(e.committed, op.tenant);
    }
  }

  lemma RestMeans(s: State, op: Op)
    requires Inv(s) && Admitted(op) && SameTenants(s.e) && KnownTenants(s.e)
    ensures Rest(s.e, op) == Meaning(s.e, op)
  {
    hide Rest, Meaning, KnownTenants, SameTenants;
    match op
    case Reserve(_, _, _) => ReserveMeans(s.e, op);
    case CommitStart(_, _) =>
      RecordSigns(s, op.id);
      CommitMeans(s.e, op);
    case ReleaseStart(_) => ReleaseMeans(s.e, op);
    case TopUp(_, _, _) => TopUpMeans(s.e, op);
    case Ensure(_, _, _) => EnsureMeans(s.e, op);
  }

  lemma EnsureMeans(e: Engine, op: Op)
    requires SameTenants(e) && KnownTenants(e) && op.Ensure?
    ensures Rest(e, op) == Meaning(e, op)
  {
  }

  lemma RecordSigns(s: State, id: nat)
    requires Inv(s)
    ensures id in s.e.reservations ==>
      var rec := s.e.reservations[id];
      0 < rec.amount && rec.tenant in s.e.remaining && 0 <= s.e.remaining[rec.tenant]
  {
    if id in s.e.reservations {
      assert RecordOk(s.e, id, s.e.reservations[id]);
      assert Account(s, s.e.reservations[id].tenant);
    }
  }

  /**
   * In every state the invariant allows, a call that begins and runs to its end without another call
   * moving in between leaves exactly what it is for: whatever its compare-and-swaps went through.
   */
  lemma CallMeans(s: State, k: nat, op: Op, acts: seq<Event>)
    requires Inv(s) && k !in s.ops && Admitted(op) && ActsOf(acts, k)
    requires Run(s, [Begin(k, op)] + acts).Some? && k !in Run(s, [Begin(k, op)] + acts).value.ops
    ensures SameTenants(s.e) && KnownTenants(s.e)
    ensures var o := Meaning(s.e, op);
      Run(s, [Begin(k, op)] + acts).value == State(o.e, s.ops, s.issued + o.issued, s.settled + o.settled)
  {
    hide Inv, Run, Rest, Meaning, Admitted, KnownTenants, SameTenants;
    var s1 := s.(ops := s.ops[k := op]);
    assert Next(s, Begin(k, op)) == Some(s1);
    RunStep(s, [Begin(k, op)] + acts);
    assert ([Begin(k, op)] + acts)[1..] == acts;
    NextKeeps(s, Begin(k, op));
    InFlightSteady(s1, k);
    AloneLeaves(s1, k, acts);
    RestMeans(s, op);
    assert s1.ops - {k} == s.ops;
  }

  /** On an idle engine every call does run to its end. */
  lemma CallReturns(s: State, k: nat, op: Op) returns (acts: seq<Event>)
    requires Inv(s) && s.ops == map[] && Admitted(op)
    ensures ActsOf(acts, k) && SameTenants(s.e) && KnownTenants(s.e)
    ensures var o := Meaning(s.e, op);
      Run(s, [Begin(k, op)] + acts) == Some(State(o.e, map[], s.issued + o.issued, s.settled + o.settled))
  {
    hide Inv, Run, Meaning, Admitted, KnownTenants, SameTenants, Grants;
    var s1 := s.(ops := s.ops[k := op]);
    assert Next(s, Begin(k, op)) == Some(s1);
    NextKeeps(s, Begin(k, op));
    assert Leads(s1, k) by {
      AloneLeads(s1, k);
    }
    acts := LeaderFinishes(s1, k);
    RunStep(s, [Begin(k, op)] + acts);
    assert ([Begin(k, op)] + acts)[1..] == acts;
    assert s1.ops - {k} == map[];
    CallMeans(s, k, op, acts);
  }

  lemma AloneLeads(s: State, k: nat)
    requires s.ops.Keys == {k}
    ensures Leads(s, k)
  {
    assert s.ops - {k} == map[];
  }
}
