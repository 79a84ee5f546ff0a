/**
 * The budget engine as a concurrent protocol. Every call that takes the shared side of the
 * checkpoint gate is a thread of atomic steps: a lock acquisition, an atomic load, one attempt of a
 * compare-and-swap, a fetch-and-add, or a map update under a lock. Calls that take the exclusive side
 * run only when no such thread is in flight.
 */
module BudgetProtocol {
  import opened Wrappers

  type Tenant = string

  const RECOVERY_TAG: nat := 0x8000_0000_0000_0000
  const ALLOCATOR_MASK: nat := 0x7FFF_FFFF_FFFF_FFFF

  datatype Record = Record(tenant: Tenant, amount: int)

  datatype Engine = Engine(
    remaining: map<Tenant, int>,
    initial: map<Tenant, int>,
    committed: map<Tenant, int>,
    totals: map<Tenant, int>,
    limits: map<Tenant, int>,
    reservations: map<nat, Record>,
    next_id: nat,
    snapshot_version: nat)

  /** The stages of `try_reserve`, with the local variables each still needs. */
  datatype ReserveStage =
    | RLookup | RLimit | RLoadTotal(max: int) | RAddTotal(max: int, current: int)
    | RAllocate | RLoadBudget(id: nat) | RDebit(id: nat, current: int) | RInsert(id: nat) | RUndo

  /** The stages of `commit` once it has removed the record. */
  datatype CommitStage =
    | CLookup | CLock | CLoad(new_committed: int) | CDebit(new_committed: int, current: int)
    | CCommit(new_committed: int) | CRefund | CUnreserve | CFail

  /** The stages of `release` once it has removed the record. */
  datatype ReleaseStage = LLookup | LUnreserve | LCredit

  datatype TopUpStage =
    | TLookup | TInitial | TLoad(new_initial: int) | TCredit(new_initial: int, current: int) | TStore(new_initial: int)

  /** The stages of `try_ensure_tenant`, each named after the lock it waits for; it holds those before it. */
  datatype EnsureStage = EBudgets | EInitials | ECommitted | ETotals

  /** A call in flight. */
  datatype Op =
    | Reserve(tenant: Tenant, cost: int, rs: ReserveStage)
    | CommitStart(id: nat, actual: int)
    | Commit(id: nat, actual: int, rec: Record, cs: CommitStage)
    | ReleaseStart(id: nat)
    | Release(id: nat, rec: Record, ls: ReleaseStage)
    | TopUp(tenant: Tenant, amount: int, ts: TopUpStage)
    | Ensure(tenant: Tenant, budget: int, es: EnsureStage)

  datatype State = State(
    e: Engine,
    /** The calls in flight, by thread. */
    ops: map<nat, Op>,
    /** Every reservation id handed out by the allocator, oldest first. */
    issued: seq<nat>,
    /** Every reservation id committed or released, oldest first. */
    settled: seq<nat>)

  const EmptyEngine := Engine(map[], map[], map[], map[], map[], map[], 1, 0)

  const Initial := State(EmptyEngine, map[], [], [])

  /** Two's-complement wrap-around of `fetch_add` and `fetch_sub` on an `AtomicI64`. */
  function Wrap(x: int): int {
    (x - I64_MIN) % 0x1_0000_0000_0000_0000 + I64_MIN
  }

  function LimitOf(e: Engine, t: Tenant): int {
    if t in e.limits then e.limits[t] else 0
  }

  // ----- Locks: held from the step that takes them to the step that ends the guard -----

  predicate HoldsReservations(op: Op) {
    op.Commit? || op.Release?
  }

  predicate HoldsCommitted(op: Op) {
    || (op.Commit? && (op.cs.CLoad? || op.cs.CDebit? || op.cs.CCommit?))
    || (op.Ensure? && op.es.ETotals?)
  }

  predicate HoldsInitials(op: Op) {
    || (op.TopUp? && (op.ts.TLoad? || op.ts.TCredit? || op.ts.TStore?))
    || (op.Ensure? && (op.es.ECommitted? || op.es.ETotals?))
  }

  predicate HoldsBudgets(op: Op) {
    op.Ensure? && !op.es.EBudgets?
  }

  /**
   * Which of the locks that outlive one step are free. The locks on the totals and the limits do not:
   * no call waits for another lock while it holds one of them.
   */
  datatype Locks = Locks(reservations: bool, committed: bool, initials: bool, budgets: bool)

  ghost function FreeLocks(ops: map<nat, Op>): Locks {
    Locks(
      forall k :: k in ops ==> !HoldsReservations(ops[k]),
      forall k :: k in ops ==> !HoldsCommitted(ops[k]),
      forall k :: k in ops ==> !HoldsInitials(ops[k]),
      forall k :: k in ops ==> !HoldsBudgets(ops[k]))
  }

  // ----- The writes a step may make -----

  function SetRemaining(e: Engine, t: Tenant, v: int): Engine {
    e.(remaining := e.remaining[t := v])
  }

  function SetTotal(e: Engine, t: Tenant, v: int): Engine {
    e.(totals := e.totals[t := v])
  }

  function SetCommitted(e: Engine, t: Tenant, v: int): Engine {
    e.(committed := e.committed[t := v])
  }

  function SetInitial(e: Engine, t: Tenant, v: int): Engine {
    e.(initial := e.initial[t := v])
  }

  function PutRecord(e: Engine, id: nat, rec: Record): Engine {
    e.(reservations := e.reservations[id := rec])
  }

  function DropRecord(e: Engine, id: nat): Engine {
    e.(reservations := e.reservations - {id})
  }

  function Bump(e: Engine): Engine {
    e.(next_id := e.next_id + 1)
  }

  /** What `try_ensure_tenant` does under all four of its locks. */
  function Ensured(e: Engine, t: Tenant, budget: int): Engine {
    if t in e.remaining then e
    else e.(remaining := e.remaining[t := budget], initial := e.initial[t := budget],
            committed := e.committed[t := 0], totals := e.totals[t := 0])
  }

  // ----- Steps -----

  /** What one step does: the engine after it, the call's next stage unless it returned, and the log. */
  datatype Effect = Effect(e: Engine, next: Option<Op>, issued: seq<nat>, settled: seq<nat>)

  function Quiet(e: Engine, next: Op): Option<Effect> {
    Some(Effect(e, Some(next), [], []))
  }

  function Finish(e: Engine): Option<Effect> {
    Some(Effect(e, None, [], []))
  }

  /** A step of `try_reserve`. `None` when the step has to wait for a lock. */
  function ReserveStep(e: Engine, free: Locks, op: Op, spurious: bool): Option<Effect>
    requires op.Reserve?
  {
    var t, cost := op.tenant, op.cost;
    match op.rs
    case RLookup =>
      if !free.budgets then None
      else if t in e.remaining && t in e.totals then Quiet(e, op.(rs := RLimit)) else Finish(e)
    case RLimit =>
      Quiet(e, op.(rs := RLoadTotal(LimitOf(e, t))))
    case RLoadTotal(max) =>
      if t !in e.totals then None else Quiet(e, op.(rs := RAddTotal(max, e.totals[t])))
    case RAddTotal(max, current) =>
      if t !in e.totals then None
      else if current + cost > I64_MAX then Finish(e)
      else if max > 0 && current + cost > max then Finish(e)
      else if e.totals[t] == current && !spurious then
        Quiet(SetTotal(e, t, current + cost), op.(rs := RAllocate))
      else Quiet(e, op.(rs := RAddTotal(max, e.totals[t])))
    case RAllocate =>
      if e.next_id < ALLOCATOR_MASK then
        Some(Effect(Bump(e), Some(op.(rs := RLoadBudget(e.next_id))), [e.next_id], []))
      else Quiet(e, op.(rs := RUndo))
    case RLoadBudget(id) =>
      if t !in e.remaining then None else Quiet(e, op.(rs := RDebit(id, e.remaining[t])))
    case RDebit(id, current) =>
      if t !in e.remaining then None
      else if current < cost then Quiet(e, op.(rs := RUndo))
      else if e.remaining[t] == current && !spurious then
        Quiet(SetRemaining(e, t, current - cost), op.(rs := RInsert(id)))
      else Quiet(e, op.(rs := RDebit(id, e.remaining[t])))
    case RInsert(id) =>
      if !free.reservations then None
      else Finish(PutRecord(e, id, Record(t, cost)))
    case RUndo =>
      if t !in e.totals then None
      else Finish(SetTotal(e, t, Wrap(e.totals[t] - cost)))
  }

  /** A step of `commit`. */
  function CommitStep(e: Engine, free: Locks, op: Op, spurious: bool): Option<Effect>
    requires op.Commit?
  {
    var id, actual, rec := op.id, op.actual, op.rec;
    var t, delta := rec.tenant, actual - rec.amount;
    match op.cs
    case CLookup =>
      if !free.budgets then None
      else Quiet(e, op.(cs := if t in e.remaining then CLock else CFail))
    case CLock =>
      if !free.committed then None
      else
        var new_committed := (if t in e.committed then e.committed[t] else 0) + actual;
        Quiet(e, op.(cs := if new_committed > I64_MAX then CFail
                           else if delta > 0 then CLoad(new_committed)
                           else CCommit(new_committed)))
    case CLoad(new_committed) =>
      if t !in e.remaining then None else Quiet(e, op.(cs := CDebit(new_committed, e.remaining[t])))
    case CDebit(new_committed, current) =>
      if t !in e.remaining then None
      else if current < delta then Quiet(e, op.(cs := CFail))
      else if e.remaining[t] == current && !spurious then
        Quiet(SetRemaining(e, t, current - delta), op.(cs := CCommit(new_committed)))
      else Quiet(e, op.(cs := CDebit(new_committed, e.remaining[t])))
    case CCommit(new_committed) =>
      Quiet(SetCommitted(e, t, new_committed), op.(cs := CRefund))
    case CRefund =>
      if t !in e.remaining then None
      else if delta < 0 then
        Quiet(SetRemaining(e, t, Wrap(e.remaining[t] - delta)), op.(cs := CUnreserve))
      else Quiet(e, op.(cs := CUnreserve))
    case CUnreserve =>
      var e' := if t in e.totals then SetTotal(e, t, Wrap(e.totals[t] - rec.amount)) else e;
      Some(Effect(e', None, [], [id]))
    case CFail =>
      Finish(PutRecord(e, id, rec))
  }

  /** A step of `release`. */
  function ReleaseStep(e: Engine, free: Locks, op: Op): Option<Effect>
    requires op.Release?
  {
    var id, rec, t := op.id, op.rec, op.rec.tenant;
    match op.ls
    case LLookup =>
      if !free.budgets then None
      else if t in e.remaining then Quiet(e, op.(ls := LUnreserve))
      else Finish(PutRecord(e, id, rec))
    case LUnreserve =>
      var e' := if t in e.totals then SetTotal(e, t, Wrap(e.totals[t] - rec.amount)) else e;
      Quiet(e', op.(ls := LCredit))
    case LCredit =>
      if t !in e.remaining then None
      else Some(Effect(SetRemaining(e, t, Wrap(e.remaining[t] + rec.amount)), None, [], [id]))
  }

  /** The first step of `commit` and `release`: the record is removed under its lock. */
  function RemoveStep(e: Engine, free: Locks, op: Op): Option<Effect>
    requires op.CommitStart? || op.ReleaseStart?
  {
    if !free.reservations then None
    else if op.id !in e.reservations then Finish(e)
    else
      var rec := e.reservations[op.id];
      Quiet(DropRecord(e, op.id),
            match op
            case CommitStart(id, actual) => Commit(id, actual, rec, CLookup)
            case ReleaseStart(id) => Release(id, rec, LLookup))
  }

  /** A step of `top_up_tenant`. */
  function TopUpStep(e: Engine, free: Locks, op: Op, spurious: bool): Option<Effect>
    requires op.TopUp?
  {
    var t, amount := op.tenant, op.amount;
    match op.ts
    case TLookup =>
      if !free.budgets then None
      else if t in e.remaining then Quiet(e, op.(ts := TInitial)) else Finish(e)
    case TInitial =>
      if !free.initials then None
      else if t !in e.initial || e.initial[t] + amount > I64_MAX then Finish(e)
      else Quiet(e, op.(ts := TLoad(e.initial[t] + amount)))
    case TLoad(new_initial) =>
      if t !in e.remaining then None else Quiet(e, op.(ts := TCredit(new_initial, e.remaining[t])))
    case TCredit(new_initial, current) =>
      if t !in e.remaining then None
      else if current + amount > I64_MAX then Finish(e)
      else if e.remaining[t] == current && !spurious then
        Quiet(SetRemaining(e, t, current + amount), op.(ts := TStore(new_initial)))
      else Quiet(e, op.(ts := TCredit(new_initial, e.remaining[t])))
    case TStore(new_initial) =>
      Finish(SetInitial(e, t, new_initial))
  }

  /** A step of `try_ensure_tenant`: one lock after the other, and under all of them the new tenant. */
  function EnsureStep(e: Engine, free: Locks, op: Op): Option<Effect>
    requires op.Ensure?
  {
    match op.es
    case EBudgets => if !free.budgets then None else Quiet(e, op.(es := EInitials))
    case EInitials => if !free.initials then None else Quiet(e, op.(es := ECommitted))
    case ECommitted => if !free.committed then None else Quiet(e, op.(es := ETotals))
    case ETotals => Finish(Ensured(e, op.tenant, op.budget))
  }

  function OpStep(e: Engine, free: Locks, op: Op, spurious: bool): Option<Effect> {
    match op
    case Reserve(_, _, _) => ReserveStep(e, free, op, spurious)
    case CommitStart(_, _) => RemoveStep(e, free, op)
    case Commit(_, _, _, _) => CommitStep(e, free, op, spurious)
    case ReleaseStart(_) => RemoveStep(e, free, op)
    case Release(_, _, _) => ReleaseStep(e, free, op)
    case TopUp(_, _, _) => TopUpStep(e, free, op, spurious)
    case Ensure(_, _, _) => EnsureStep(e, free, op)
  }

  function Apply(s: State, k: nat, x: Effect): State {
    State(x.e, if x.next.Some? then s.ops[k := x.next.value] else s.ops - {k},
          s.issued + x.issued, s.settled + x.settled)
  }

  // ----- Events -----

  datatype TenantLedger = TenantLedger(tenant: Tenant, initial: int, remaining: int, reserved: int, committed: int)

  datatype BudgetSnapshot = BudgetSnapshot(
    version: nat, tenants: seq<TenantLedger>, active_reservations: nat, wal_high_watermark: Option<nat>)

  datatype Event =
    /** A call passes its argument checks and takes the shared gate. */
    | Begin(k: nat, op: Op)
    /** Thread `k` takes its next step; `spurious` makes a weak compare-and-swap fail anyway. */
    | Act(k: nat, spurious: bool)
    /** A call of `try_ensure_tenant` that finds all its locks free. */
    | EnsureTenant(tenant: Tenant, budget: int)
    | SetCap(tenant: Tenant, max: int)
    | TakeSnapshot
    | Restore(snap: BudgetSnapshot)

  /** The first step of a call whose arguments are accepted. */
  predicate Admitted(op: Op) {
    match op
    case Reserve(_, cost, rs) => rs.RLookup? && 0 < cost <= I64_MAX
    case CommitStart(_, actual) => 0 <= actual <= I64_MAX
    case ReleaseStart(_) => true
    case TopUp(_, amount, ts) => ts.TLookup? && 0 < amount <= I64_MAX
    case Ensure(_, budget, es) => es.EBudgets? && 0 <= budget <= I64_MAX
    case _ => false
  }

  /** `try_set_max_reserved_microcents`. */
  function Capped(e: Engine, t: Tenant, max: int): Engine {
    e.(limits := if max == 0 then e.limits - {t} else e.limits[t := max])
  }

  /** The allocator fence a snapshot version carries. */
  function Fence(version: nat): nat {
    version % RECOVERY_TAG
  }

  /** The rows of a snapshot as a map of one column; a later row of the same tenant wins. */
  function Column(rows: seq<TenantLedger>, f: TenantLedger -> int): map<Tenant, int> {
    if rows == [] then map[]
    else Column(rows[..|rows| - 1], f)[rows[|rows| - 1].tenant := f(rows[|rows| - 1])]
  }

  /** What `restore_from_snapshot` leaves once validation has passed. */
  function Restored(snap: BudgetSnapshot): Engine {
    Engine(
      Column(snap.tenants, (r: TenantLedger) => r.remaining),
      Column(snap.tenants, (r: TenantLedger) => r.initial),
      Column(snap.tenants, (r: TenantLedger) => r.committed),
      Column(snap.tenants, (r: TenantLedger) => r.reserved),
      map[], map[], Fence(snap.version), snap.version)
  }

  predicate DistinctTenants(rows: seq<TenantLedger>) {
    forall i, j :: 0 <= i < j < |rows| ==> rows[i].tenant != rows[j].tenant
  }

  /** A row `validate_snapshot_ledger` and the conservation check accept. */
  predicate GoodRow(r: TenantLedger) {
    && r.reserved == 0 && 0 <= r.remaining && 0 <= r.initial && 0 <= r.committed
    && r.remaining + r.committed == r.initial <= I64_MAX
  }

  /** What `validate_snapshot_for_restore` demands. */
  predicate Restorable(snap: BudgetSnapshot) {
    && RECOVERY_TAG < snap.version <= U64_MAX
    && snap.active_reservations == 0
    && DistinctTenants(snap.tenants)
    && forall i :: 0 <= i < |snap.tenants| ==> GoodRow(snap.tenants[i])
  }

  /** One atomic event of the engine, or `None` when it cannot happen now. */
  ghost function Next(s: State, ev: Event): Option<State> {
    match ev
    case Begin(k, op) =>
      if k in s.ops || !Admitted(op) then None else Some(s.(ops := s.ops[k := op]))
    case Act(k, spurious) =>
      if k !in s.ops then None
      else
        var x := OpStep(s.e, FreeLocks(s.ops), s.ops[k], spurious);
        if x.None? then None else Some(Apply(s, k, x.value))
    case EnsureTenant(t, budget) =>
      if !(0 <= budget <= I64_MAX) || !FreeLocks(s.ops).budgets || !FreeLocks(s.ops).initials
         || !FreeLocks(s.ops).committed then None
      else Some(s.(e := Ensured(s.e, t, budget)))
    case SetCap(t, max) =>
      if s.ops != map[] || !(0 <= max <= I64_MAX) then None
      else Some(s.(e := Capped(s.e, t, max)))
    case TakeSnapshot =>
      if s.ops != map[] || s.e.next_id >= ALLOCATOR_MASK then None
      else Some(s.(e := s.e.(next_id := s.e.next_id + 1, snapshot_version := RECOVERY_TAG + s.e.next_id + 1)))
    case Restore(snap) =>
      if s.ops != map[] || !Restorable(snap) then None
      else Some(s.(e := Restored(snap)))
  }

  /** A whole interleaving. */
  ghost function Run(s: State, events: seq<Event>): Option<State>
    decreases |events|
  {
    if events == [] then Some(s)
    else match Next(s, events[0])
      case None => None
      case Some(s') => Run(s', events[1..])
  }
}
