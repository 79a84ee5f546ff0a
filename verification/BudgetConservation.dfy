/** Conservation, bounds and caps of the budget protocol, in every interleaving. */
module BudgetConservation {
  import opened Wrappers
  import opened Sums
  import opened BudgetProtocol

  // ----- What a call in flight holds -----

  function Held(t: Tenant): Record -> int {
    (r: Record) => if r.tenant == t then r.amount else 0
  }

  function Max(a: int, b: int): int {
    if a < b then b else a
  }

  /** Money of tenant `t` taken out of its balance or records and not yet put anywhere else. */
  function FundsOf(op: Op, t: Tenant): int {
    match op
    case Reserve(u, cost, rs) => if u == t && rs.RInsert? then cost else 0
    case Commit(_, actual, rec, cs) =>
      if rec.tenant != t || cs.CUnreserve? then 0
      else if cs.CCommit? then Max(actual, rec.amount)
      else if cs.CRefund? then Max(0, rec.amount - actual)
      else rec.amount
    case Release(_, rec, _) => Held(t)(rec)
    case _ => 0
  }

  /** The part of the reserved total of `t` that no record stands behind. */
  function HoldOf(op: Op, t: Tenant): int {
    match op
    case Reserve(u, cost, rs) =>
      if u == t && (rs.RAllocate? || rs.RLoadBudget? || rs.RDebit? || rs.RInsert? || rs.RUndo?) then cost else 0
    case Commit(_, _, rec, _) => Held(t)(rec)
    case Release(_, rec, ls) => if ls.LCredit? then 0 else Held(t)(rec)
    case _ => 0
  }

  /** A top-up already in the balance but not yet in the initial amount. */
  function CreditOf(op: Op, t: Tenant): int {
    if op.TopUp? && op.tenant == t && op.ts.TStore? then op.amount else 0
  }

  function Funds(t: Tenant): Op -> int {
    (op: Op) => FundsOf(op, t)
  }

  function Hold(t: Tenant): Op -> int {
    (op: Op) => HoldOf(op, t)
  }

  function Credit(t: Tenant): Op -> int {
    (op: Op) => CreditOf(op, t)
  }

  // ----- The invariant -----

  /** The tenant a call has already looked up, if any. */
  function TenantOf(op: Op): Option<Tenant> {
    match op
    case Reserve(t, _, rs) => if rs.RLookup? then None else Some(t)
    case Commit(_, _, rec, _) => Some(rec.tenant)
    case Release(_, rec, _) => Some(rec.tenant)
    case TopUp(t, _, ts) => if ts.TLookup? then None else Some(t)
    case _ => None
  }

  /** The reservation id a call owns: allocated or removed by it, and in no record. */
  function IdOf(op: Op): Option<nat> {
    match op
    case Reserve(_, _, rs) => if rs.RLoadBudget? || rs.RDebit? || rs.RInsert? then Some(rs.id) else None
    case Commit(id, _, _, _) => Some(id)
    case Release(id, _, _) => Some(id)
    case _ => None
  }

  /** What holds of the local variables of a call. */
  predicate OpOk(e: Engine, op: Op) {
    && (TenantOf(op).Some? ==> TenantOf(op).value in e.remaining)
    && (IdOf(op).Some? ==> IdOf(op).value < e.next_id && IdOf(op).value !in e.reservations)
    && match op
       case Reserve(t, cost, rs) =>
         && 0 < cost
         && (rs.RLoadTotal? || rs.RAddTotal? ==> rs.max == LimitOf(e, t))
         && (rs.RAddTotal? ==> 0 <= rs.current)
       case CommitStart(_, actual) => 0 <= actual
       case Commit(_, actual, rec, cs) =>
         && 0 < rec.amount && 0 <= actual
         && (cs.CLoad? || cs.CDebit? ==> rec.amount < actual)
         && (HoldsCommitted(op) ==>
               rec.tenant in e.committed && cs.new_committed == e.committed[rec.tenant] + actual <= I64_MAX)
       case ReleaseStart(_) => true
       case Release(_, rec, _) => 0 < rec.amount
       case TopUp(t, amount, ts) =>
         && 0 < amount
         && (HoldsInitials(op) ==> t in e.initial && ts.new_initial == e.initial[t] + amount <= I64_MAX)
       case Ensure(_, budget, _) => 0 <= budget <= I64_MAX
  }

  predicate SameTenants(e: Engine) {
    e.totals.Keys == e.remaining.Keys && e.initial.Keys == e.remaining.Keys && e.committed.Keys == e.remaining.Keys
  }

  ghost function Balance(s: State, t: Tenant): int
    requires SameTenants(s.e) && t in s.e.remaining
  {
    s.e.remaining[t] + Sum(s.e.reservations, Held(t)) + Sum(s.ops, Funds(t)) + s.e.committed[t]
      - s.e.initial[t] - Sum(s.ops, Credit(t))
  }

  ghost function Unbacked(s: State, t: Tenant): int
    requires SameTenants(s.e) && t in s.e.remaining
  {
    s.e.totals[t] - Sum(s.e.reservations, Held(t)) - Sum(s.ops, Hold(t))
  }

  /** The account of one tenant, in the middle of anything. */
  ghost predicate Account(s: State, t: Tenant)
    requires SameTenants(s.e) && t in s.e.remaining
  {
    && 0 <= s.e.remaining[t] && 0 <= s.e.committed[t]
    && Balance(s, t) == 0 && Unbacked(s, t) == 0
    && s.e.totals[t] <= I64_MAX
    && s.e.initial[t] + Sum(s.ops, Credit(t)) <= I64_MAX
  }

  predicate RecordOk(e: Engine, id: nat, r: Record) {
    id < e.next_id && 0 < r.amount && r.tenant in e.remaining
  }

  ghost predicate Accounts(s: State) {
    && SameTenants(s.e)
    && forall t :: t in s.e.remaining ==> Account(s, t)
  }

  ghost predicate Shape(s: State) {
    && SameTenants(s.e)
    && 0 < s.e.next_id <= ALLOCATOR_MASK
    && (forall id :: id in s.e.reservations ==> RecordOk(s.e, id, s.e.reservations[id]))
    && (forall k :: k in s.ops ==> OpOk(s.e, s.ops[k]))
    && (forall t :: t in s.e.limits ==> 0 < s.e.limits[t])
    && (forall j, k :: j in s.ops && k in s.ops && j != k ==> Apart(s.ops[j], s.ops[k]))
  }

  /** Two calls in flight own different ids and never hold the same lock. */
  predicate Apart(a: Op, b: Op) {
    && (IdOf(a).Some? && IdOf(b).Some? ==> IdOf(a).value != IdOf(b).value)
    && !(HoldsReservations(a) && HoldsReservations(b))
    && !(HoldsCommitted(a) && HoldsCommitted(b))
    && !(HoldsInitials(a) && HoldsInitials(b))
    && !(HoldsBudgets(a) && HoldsBudgets(b))
  }

  ghost predicate Inv(s: State) {
    Shape(s) && Accounts(s)
  }

  // ----- Sums across one step -----

  function Part<V>(m: map<nat, V>, k: nat, f: V -> int): int {
    if k in m then f(m[k]) else 0
  }

  lemma SumChange<V>(m: map<nat, V>, m': map<nat, V>, k: nat, f: V -> int)
    requires m - {k} == m' - {k}
    ensures Sum(m', f) - Part(m', k, f) == Sum(m, f) - Part(m, k, f)
  {
    if k in m {
      SumDrop(m, k, f);
    } else {
      assert m - {k} == m;
    }
    if k in m' {
      SumDrop(m', k, f);
    } else {
      assert m' - {k} == m';
    }
  }

  lemma SumAtLeast<V>(m: map<nat, V>, k: nat, f: V -> int)
    requires k in m && forall j :: j in m ==> f(m[j]) >= 0
    ensures Sum(m, f) >= f(m[k])
  {
    SumDrop(m, k, f);
    SumNonNegative(m - {k}, f);
  }

  lemma OpSigns(e: Engine, op: Op, t: Tenant)
    requires OpOk(e, op)
    ensures 0 <= FundsOf(op, t) && 0 <= HoldOf(op, t) && 0 <= CreditOf(op, t)
  {
  }

  /** Every sum of the invariant is non-negative, so no part exceeds its whole. */
  lemma Signs(s: State, t: Tenant)
    requires Shape(s)
    ensures 0 <= Sum(s.e.reservations, Held(t)) && 0 <= Sum(s.ops, Funds(t))
    ensures 0 <= Sum(s.ops, Hold(t)) && 0 <= Sum(s.ops, Credit(t))
    ensures forall k :: k in s.ops ==>
      FundsOf(s.ops[k], t) <= Sum(s.ops, Funds(t)) && HoldOf(s.ops[k], t) <= Sum(s.ops, Hold(t))
  {
    forall k | k in s.ops
      ensures Funds(t)(s.ops[k]) >= 0 && Hold(t)(s.ops[k]) >= 0 && Credit(t)(s.ops[k]) >= 0
    {
      OpSigns(s.e, s.ops[k], t);
    }
    forall id | id in s.e.reservations
      ensures Held(t)(s.e.reservations[id]) >= 0
    {
      assert RecordOk(s.e, id, s.e.reservations[id]);
    }
    SumNonNegative(s.e.reservations, Held(t));
    SumNonNegative(s.ops, Funds(t));
    SumNonNegative(s.ops, Hold(t));
    SumNonNegative(s.ops, Credit(t));
    forall k | k in s.ops
      ensures FundsOf(s.ops[k], t) <= Sum(s.ops, Funds(t)) && HoldOf(s.ops[k], t) <= Sum(s.ops, Hold(t))
    {
      SumAtLeast(s.ops, k, Funds(t));
      SumAtLeast(s.ops, k, Hold(t));
    }
  }

  /** No fetch-and-add or fetch-and-sub a call in flight may still make can wrap. */
  lemma NoWrap(s: State, k: nat, t: Tenant)
    requires Inv(s) && k in s.ops && t in s.e.remaining
    ensures s.e.remaining[t] + FundsOf(s.ops[k], t) <= I64_MAX
    ensures 0 <= s.e.totals[t] - HoldOf(s.ops[k], t)
    ensures 0 <= s.e.totals[t]
  {
    Signs(s, t);
    assert Account(s, t);
  }

  // ----- Shape is kept -----

  lemma FrameOp(e: Engine, e': Engine, op: Op)
    requires OpOk(e, op)
    requires e.remaining.Keys <= e'.remaining.Keys && e.next_id <= e'.next_id
    requires e'.limits == e.limits
    requires IdOf(op).Some? ==> IdOf(op).value !in e'.reservations
    requires HoldsCommitted(op) ==> e'.committed == e.committed
    requires HoldsInitials(op) ==> e'.initial == e.initial
    ensures OpOk(e', op)
  {
  }

  /** What a step of `op` may do to the shared engine and still keep everyone else's facts. */
  ghost predicate Polite(e: Engine, e': Engine, op: Op) {
    && SameTenants(e') && e'.remaining.Keys == e.remaining.Keys
    && e.next_id <= e'.next_id <= ALLOCATOR_MASK && e'.limits == e.limits
    && (e'.committed == e.committed || HoldsCommitted(op))
    && (e'.initial == e.initial || HoldsInitials(op))
    && forall id :: id in e'.reservations ==>
         || (id in e.reservations && e'.reservations[id] == e.reservations[id])
         || (IdOf(op) == Some(id) && TenantOf(op) == Some(e'.reservations[id].tenant) && 0 < e'.reservations[id].amount)
  }

  /** Where the id and the locks of the next stage of a call may come from. */
  predicate Entitled(e: Engine, free: Locks, op: Op, op': Op) {
    && (IdOf(op').Some? ==> || IdOf(op') == IdOf(op) || IdOf(op').value >= e.next_id
                            || IdOf(op').value in e.reservations)
    && (HoldsReservations(op') ==> HoldsReservations(op) || free.reservations)
    && (HoldsCommitted(op') ==> HoldsCommitted(op) || free.committed)
    && (HoldsInitials(op') ==> HoldsInitials(op) || free.initials)
    && (HoldsBudgets(op') ==> HoldsBudgets(op) || free.budgets)
  }

  /** An engine whose records are well-formed, whose next id is new and whose totals are not negative. */
  ghost predicate EngineOk(e: Engine) {
    && SameTenants(e) && 0 < e.next_id <= ALLOCATOR_MASK && e.next_id !in e.reservations
    && (forall t :: t in e.totals ==> 0 <= e.totals[t])
    && (forall id :: id in e.reservations ==> RecordOk(e, id, e.reservations[id]))
  }

  /** A step keeps to its own: the stage it leads to is well-formed and entitled to what it holds. */
  ghost predicate StepOk(e: Engine, free: Locks, op: Op, x: Effect) {
    Polite(e, x.e, op) && LocalOk(e, free, op, x)
  }

  ghost predicate LocalOk(e: Engine, free: Locks, op: Op, x: Effect) {
    x.next.Some? ==> OpOk(x.e, x.next.value) && Entitled(e, free, op, x.next.value)
  }

  // Each kind of write, once for all steps that make it.

  lemma WriteRemaining(e: Engine, t: Tenant, op: Op)
    requires SameTenants(e) && e.next_id <= ALLOCATOR_MASK && t in e.remaining
    ensures forall v {:trigger SetRemaining(e, t, v)} :: Polite(e, SetRemaining(e, t, v), op)
    ensures forall v, o {:trigger OpOk(SetRemaining(e, t, v), o)} :: OpOk(SetRemaining(e, t, v), o) <==> OpOk(e, o)
  {
    assert forall v {:trigger SetRemaining(e, t, v)} :: SetRemaining(e, t, v).remaining.Keys == e.remaining.Keys;
  }

  lemma WriteTotal(e: Engine, t: Tenant, op: Op)
    requires SameTenants(e) && e.next_id <= ALLOCATOR_MASK && t in e.remaining
    ensures forall v {:trigger SetTotal(e, t, v)} :: Polite(e, SetTotal(e, t, v), op)
    ensures forall v, o {:trigger OpOk(SetTotal(e, t, v), o)} :: OpOk(SetTotal(e, t, v), o) <==> OpOk(e, o)
  {
    assert forall v {:trigger SetTotal(e, t, v)} :: SetTotal(e, t, v).totals.Keys == e.totals.Keys;
  }

  lemma WriteNothing(e: Engine, op: Op)
    requires SameTenants(e) && e.next_id <= ALLOCATOR_MASK
    ensures Polite(e, e, op)
  {
  }

  lemma WriteRecord(e: Engine, op: Op, id: nat, rec: Record)
    requires SameTenants(e) && e.next_id <= ALLOCATOR_MASK
    requires IdOf(op) == Some(id) && TenantOf(op) == Some(rec.tenant) && 0 < rec.amount
    ensures Polite(e, PutRecord(e, id, rec), op)
  {
  }

  lemma WriteNext(e: Engine, op: Op)
    requires SameTenants(e) && OpOk(e, op) && op.Reserve? && op.rs.RAllocate? && e.next_id !in e.reservations
    ensures e.next_id < ALLOCATOR_MASK ==>
      Polite(e, Bump(e), op) && OpOk(Bump(e), op.(rs := RLoadBudget(e.next_id)))
  {
  }

  lemma WriteCommitted(e: Engine, op: Op)
    requires SameTenants(e) && e.next_id <= ALLOCATOR_MASK && op.Commit? && op.rec.tenant in e.remaining
    ensures op.cs.CCommit? ==> Polite(e, SetCommitted(e, op.rec.tenant, op.cs.new_committed), op)
    ensures op.cs.CCommit? && OpOk(e, op) ==>
      OpOk(SetCommitted(e, op.rec.tenant, op.cs.new_committed), op.(cs := CRefund))
  {
    if op.cs.CCommit? {
      assert SetCommitted(e, op.rec.tenant, op.cs.new_committed).committed.Keys == e.committed.Keys;
    }
  }

  lemma WriteInitial(e: Engine, op: Op)
    requires SameTenants(e) && e.next_id <= ALLOCATOR_MASK && OpOk(e, op) && op.TopUp?
    ensures op.ts.TStore? ==> Polite(e, SetInitial(e, op.tenant, op.ts.new_initial), op)
  {
    if op.ts.TStore? {
      assert SetInitial(e, op.tenant, op.ts.new_initial).initial.Keys == e.initial.Keys;
    }
  }

  /** The stages of a reservation before it holds anything. */
  predicate Early(op: Op)
    requires op.Reserve?
  {
    op.rs.RLookup? || op.rs.RLimit? || op.rs.RLoadTotal? || op.rs.RAddTotal?
  }

  lemma EarlyReserveOk(e: Engine, free: Locks, op: Op, spurious: bool)
    requires EngineOk(e) && OpOk(e, op) && op.Reserve? && Early(op) && ReserveStep(e, free, op, spurious).Some?
    ensures StepOk(e, free, op, ReserveStep(e, free, op, spurious).value)
  {
    hide Polite, RecordOk, SetRemaining, SetTotal, SetCommitted, SetInitial, PutRecord, DropRecord, Bump;
    WriteNothing(e, op);
    if op.rs.RAddTotal? {
      WriteTotal(e, op.tenant, op);
    }
  }

  lemma LateReserveOk(e: Engine, free: Locks, op: Op, spurious: bool)
    requires EngineOk(e) && OpOk(e, op) && op.Reserve? && !Early(op) && ReserveStep(e, free, op, spurious).Some?
    ensures StepOk(e, free, op, ReserveStep(e, free, op, spurious).value)
  {
    hide Polite, RecordOk, LimitOf, SetRemaining, SetTotal, SetCommitted, SetInitial, PutRecord, DropRecord, Bump;
    WriteNothing(e, op);
    match op.rs {
      case RAllocate => WriteNext(e, op);
      case RDebit(_, _) => WriteRemaining(e, op.tenant, op);
      case RInsert(id) => WriteRecord(e, op, id, Record(op.tenant, op.cost));
      case RUndo => WriteTotal(e, op.tenant, op);
      case _ =>
    }
  }

  lemma ReserveOk(e: Engine, free: Locks, op: Op, spurious: bool)
    requires EngineOk(e) && OpOk(e, op) && op.Reserve? && ReserveStep(e, free, op, spurious).Some?
    ensures StepOk(e, free, op, ReserveStep(e, free, op, spurious).value)
  {
    hide *;
    if Early(op) {
      EarlyReserveOk(e, free, op, spurious);
    } else {
      LateReserveOk(e, free, op, spurious);
    }
  }

  lemma CommitOk(e: Engine, free: Locks, op: Op, spurious: bool)
    requires EngineOk(e) && OpOk(e, op) && op.Commit? && CommitStep(e, free, op, spurious).Some?
    ensures StepOk(e, free, op, CommitStep(e, free, op, spurious).value)
  {
    hide Polite, RecordOk, LimitOf, SetRemaining, SetTotal, SetCommitted, SetInitial, PutRecord, DropRecord;
    WriteNothing(e, op);
    match op.cs {
      case CDebit(_, _) => WriteRemaining(e, op.rec.tenant, op);
      case CCommit(_) => WriteCommitted(e, op);
      case CRefund => WriteRemaining(e, op.rec.tenant, op);
      case CUnreserve => WriteTotal(e, op.rec.tenant, op);
      case CFail => WriteRecord(e, op, op.id, op.rec);
      case _ =>
    }
  }

  lemma ReleaseOk(e: Engine, free: Locks, op: Op)
    requires EngineOk(e) && OpOk(e, op) && op.Release? && ReleaseStep(e, free, op).Some?
    ensures StepOk(e, free, op, ReleaseStep(e, free, op).value)
  {
    hide Polite, RecordOk, SetRemaining, SetTotal, SetCommitted, SetInitial, PutRecord, DropRecord;
    WriteNothing(e, op);
    WriteRemaining(e, op.rec.tenant, op);
    WriteTotal(e, op.rec.tenant, op);
    WriteRecord(e, op, op.id, op.rec);
  }

  lemma TopUpOk(e: Engine, free: Locks, op: Op, spurious: bool)
    requires EngineOk(e) && OpOk(e, op) && op.TopUp? && TopUpStep(e, free, op, spurious).Some?
    ensures StepOk(e, free, op, TopUpStep(e, free, op, spurious).value)
  {
    hide Polite, RecordOk, SetRemaining, SetTotal, SetCommitted, SetInitial, PutRecord, DropRecord;
    WriteNothing(e, op);
    if !op.ts.TLookup? {
      WriteRemaining(e, op.tenant, op);
    }
    WriteInitial(e, op);
  }

  lemma RemoveOk(e: Engine, free: Locks, op: Op)
    requires EngineOk(e) && OpOk(e, op) && (op.CommitStart? || op.ReleaseStart?) && RemoveStep(e, free, op).Some?
    ensures StepOk(e, free, op, RemoveStep(e, free, op).value)
  {
    if op.id in e.reservations {
      assert RecordOk(e, op.id, e.reservations[op.id]);
    }
  }

  /** The one step that adds a tenant. */
  predicate Creates(op: Op) {
    op.Ensure? && op.es.ETotals?
  }

  lemma EnsureOk(e: Engine, free: Locks, op: Op)
    requires EngineOk(e) && OpOk(e, op) && op.Ensure? && !Creates(op) && EnsureStep(e, free, op).Some?
    ensures StepOk(e, free, op, EnsureStep(e, free, op).value)
  {
    hide RecordOk;
  }

  lemma OpStepOk(e: Engine, free: Locks, op: Op, spurious: bool)
    requires EngineOk(e) && OpOk(e, op) && OpStep(e, free, op, spurious).Some? && !Creates(op)
    ensures StepOk(e, free, op, OpStep(e, free, op, spurious).value)
  {
    hide EngineOk, OpOk, StepOk, ReserveStep, CommitStep, ReleaseStep, RemoveStep, TopUpStep, EnsureStep;
    match op
    case Reserve(_, _, _) => ReserveOk(e, free, op, spurious);
    case CommitStart(_, _) => RemoveOk(e, free, op);
    case Commit(_, _, _, _) => CommitOk(e, free, op, spurious);
    case ReleaseStart(_) => RemoveOk(e, free, op);
    case Release(_, _, _) => ReleaseOk(e, free, op);
    case TopUp(_, _, _) => TopUpOk(e, free, op, spurious);
    case Ensure(_, _, _) => EnsureOk(e, free, op);
  }

  /** The shape of the whole state survives a step that keeps to its own. */
  lemma StepShape(s: State, k: nat, x: Effect)
    requires Shape(s) && k in s.ops && StepOk(s.e, FreeLocks(s.ops), s.ops[k], x)
    ensures Shape(Apply(s, k, x))
  {
    hide OpOk, RecordOk, Apart, Entitled;
    var s' := Apply(s, k, x);
    RecordsKept(s.e, s'.e, s.ops[k]);
    forall j | j in s'.ops
      ensures OpOk(s'.e, s'.ops[j])
    {
      if j != k {
        FrameOther(s, k, x, j);
      }
    }
    forall i, j | i in s'.ops && j in s'.ops && i != j
      ensures Apart(s'.ops[i], s'.ops[j])
    {
      if i == k {
        StaysApart(s, k, s'.ops[k], j);
      } else if j == k {
        StaysApart(s, k, s'.ops[k], i);
      }
    }
  }

  lemma StaysApart(s: State, k: nat, op': Op, j: nat)
    requires Shape(s) && k in s.ops && j in s.ops && j != k && Entitled(s.e, FreeLocks(s.ops), s.ops[k], op')
    ensures Apart(s.ops[j], op') && Apart(op', s.ops[j])
  {
    assert OpOk(s.e, s.ops[j]);
    assert Apart(s.ops[j], s.ops[k]);
  }

  lemma FrameOther(s: State, k: nat, x: Effect, j: nat)
    requires Shape(s) && k in s.ops && j in s.ops && j != k && Polite(s.e, x.e, s.ops[k])
    ensures OpOk(x.e, s.ops[j])
  {
    hide OpOk, RecordOk;
    assert OpOk(s.e, s.ops[j]);
    assert Apart(s.ops[k], s.ops[j]);
    OwnIdUnrecorded(s.e, s.ops[j]);
    FrameOp(s.e, x.e, s.ops[j]);
  }

  lemma OwnIdUnrecorded(e: Engine, op: Op)
    requires OpOk(e, op)
    ensures IdOf(op).Some? ==> IdOf(op).value !in e.reservations
  {
  }

  /** Records stay well-formed when the only new one is a call's own. */
  lemma RecordsKept(e: Engine, e': Engine, op: Op)
    requires OpOk(e, op) && Polite(e, e', op)
    requires forall id :: id in e.reservations ==> RecordOk(e, id, e.reservations[id])
    ensures forall id :: id in e'.reservations ==> RecordOk(e', id, e'.reservations[id])
  {
    forall id | id in e'.reservations
      ensures RecordOk(e', id, e'.reservations[id])
    {
      assert id in e.reservations ==> RecordOk(e, id, e.reservations[id]);
    }
  }
}
