/** The accounts of the budget protocol are kept by every event, hence by every run. */
module BudgetRuns {
  import opened Wrappers
  import opened Sums
  import opened BudgetProtocol
  import opened BudgetConservation

  // ----- One step moves money, it does not make any -----

  ghost function Recorded(e: Engine, t: Tenant): int {
    Sum(e.reservations, Held(t))
  }

  /** The amounts an engine keeps for one tenant, its recorded holds among them. */
  datatype Purse = Purse(remaining: int, total: int, committed: int, initial: int, recorded: int)

  ghost function PurseOf(e: Engine, t: Tenant): Purse
    requires SameTenants(e) && t in e.remaining
  {
    Purse(e.remaining[t], e.totals[t], e.committed[t], e.initial[t], Recorded(e, t))
  }

  function NextFunds(x: Effect, t: Tenant): int {
    if x.next.Some? then FundsOf(x.next.value, t) else 0
  }

  function NextHold(x: Effect, t: Tenant): int {
    if x.next.Some? then HoldOf(x.next.value, t) else 0
  }

  function NextCredit(x: Effect, t: Tenant): int {
    if x.next.Some? then CreditOf(x.next.value, t) else 0
  }

  /** What the amounts of `t` allow `op` to do without wrapping. */
  predicate Room(p: Purse, op: Op, t: Tenant) {
    && 0 <= p.remaining && p.remaining + FundsOf(op, t) <= I64_MAX
    && 0 <= p.total - HoldOf(op, t) && p.total <= I64_MAX
    && 0 <= p.committed && p.initial <= I64_MAX
  }

  /** A step conserves the money of `t`, keeps its holds matched, and leaves every amount in range. */
  predicate Books(p: Purse, op: Op, p': Purse, x: Effect, t: Tenant) {
    && p'.remaining + p'.recorded + NextFunds(x, t) + p'.committed - p'.initial - NextCredit(x, t)
       == p.remaining + p.recorded + FundsOf(op, t) + p.committed - p.initial - CreditOf(op, t)
    && p'.total - p'.recorded - NextHold(x, t) == p.total - p.recorded - HoldOf(op, t)
    && 0 <= p'.remaining && 0 <= p'.committed && p'.total <= I64_MAX
    && (if HoldsInitials(op) then p'.initial + NextCredit(x, t) <= I64_MAX
        else p'.initial == p.initial && NextCredit(x, t) == CreditOf(op, t) == 0)
  }

  ghost predicate StepBooks(e: Engine, op: Op, x: Effect, t: Tenant)
    requires SameTenants(e) && t in e.remaining
  {
    && SameTenants(x.e) && t in x.e.remaining
    && Books(PurseOf(e, t), op, PurseOf(x.e, t), x, t)
  }

  // What each kind of write does to a purse.

  lemma PurseIs(e: Engine, t: Tenant)
    requires SameTenants(e) && t in e.remaining
    ensures t in e.totals && t in e.committed && t in e.initial
    ensures PurseOf(e, t).remaining == e.remaining[t] && PurseOf(e, t).total == e.totals[t]
    ensures PurseOf(e, t).committed == e.committed[t] && PurseOf(e, t).initial == e.initial[t]
  {
  }

  lemma PurseRemaining(e: Engine, u: Tenant, t: Tenant, v: int)
    requires SameTenants(e) && t in e.remaining && u in e.remaining
    ensures SameTenants(SetRemaining(e, u, v)) && t in SetRemaining(e, u, v).remaining
    ensures PurseOf(SetRemaining(e, u, v), t) == if u == t then PurseOf(e, t).(remaining := v) else PurseOf(e, t)
  {
    assert SetRemaining(e, u, v).remaining.Keys == e.remaining.Keys;
  }

  lemma PurseTotal(e: Engine, u: Tenant, t: Tenant, v: int)
    requires SameTenants(e) && t in e.remaining && u in e.remaining
    ensures SameTenants(SetTotal(e, u, v)) && t in SetTotal(e, u, v).remaining
    ensures PurseOf(SetTotal(e, u, v), t) == if u == t then PurseOf(e, t).(total := v) else PurseOf(e, t)
  {
    assert SetTotal(e, u, v).totals.Keys == e.totals.Keys;
  }

  lemma PurseCommitted(e: Engine, u: Tenant, t: Tenant, v: int)
    requires SameTenants(e) && t in e.remaining && u in e.remaining
    ensures SameTenants(SetCommitted(e, u, v)) && t in SetCommitted(e, u, v).remaining
    ensures PurseOf(SetCommitted(e, u, v), t) == if u == t then PurseOf(e, t).(committed := v) else PurseOf(e, t)
  {
    assert SetCommitted(e, u, v).committed.Keys == e.committed.Keys;
  }

  lemma PurseInitial(e: Engine, u: Tenant, t: Tenant, v: int)
    requires SameTenants(e) && t in e.remaining && u in e.remaining
    ensures SameTenants(SetInitial(e, u, v)) && t in SetInitial(e, u, v).remaining
    ensures PurseOf(SetInitial(e, u, v), t) == if u == t then PurseOf(e, t).(initial := v) else PurseOf(e, t)
  {
    assert SetInitial(e, u, v).initial.Keys == e.initial.Keys;
  }

  lemma PurseRecord(e: Engine, id: nat, rec: Record, t: Tenant)
    requires SameTenants(e) && t in e.remaining && id !in e.reservations
    ensures SameTenants(PutRecord(e, id, rec)) && t in PutRecord(e, id, rec).remaining
    ensures PurseOf(PutRecord(e, id, rec), t)
         == PurseOf(e, t).(recorded := PurseOf(e, t).recorded + Held(t)(rec))
  {
    SumPut(e.reservations, id, rec, Held(t));
    assert e.reservations - {id} == e.reservations;
  }

  lemma PurseBump(e: Engine, t: Tenant)
    requires SameTenants(e) && t in e.remaining
    ensures SameTenants(Bump(e)) && t in Bump(e).remaining && PurseOf(Bump(e), t) == PurseOf(e, t)
  {
  }

  lemma RecordDropped(e: Engine, id: nat, t: Tenant)
    requires id in e.reservations
    ensures Recorded(DropRecord(e, id), t) == Recorded(e, t) - Held(t)(e.reservations[id])
  {
    SumDrop(e.reservations, id, Held(t));
  }

  lemma WrapAll()
    ensures forall x {:trigger Wrap(x)} :: I64_MIN <= x <= I64_MAX ==> Wrap(x) == x
  {
  }

  lemma EarlyReserveBooks(e: Engine, free: Locks, op: Op, spurious: bool, t: Tenant)
    requires SameTenants(e) && OpOk(e, op) && op.Reserve? && Early(op) && ReserveStep(e, free, op, spurious).Some?
    requires t in e.remaining && Room(PurseOf(e, t), op, t)
    ensures StepBooks(e, op, ReserveStep(e, free, op, spurious).value, t)
  {
    hide Wrap, Recorded, PurseOf, SameTenants, LimitOf, SetRemaining, SetTotal, SetCommitted, SetInitial, PutRecord, Bump;
    WrapAll();
    PurseIs(e, t);
    if op.rs.RAddTotal? {
      PurseTotal(e, op.tenant, t, op.rs.current + op.cost);
    }
  }

  lemma LateReserveBooks(e: Engine, free: Locks, op: Op, spurious: bool, t: Tenant)
    requires SameTenants(e) && OpOk(e, op) && op.Reserve? && !Early(op) && ReserveStep(e, free, op, spurious).Some?
    requires t in e.remaining && Room(PurseOf(e, t), op, t)
    ensures StepBooks(e, op, ReserveStep(e, free, op, spurious).value, t)
  {
    hide Wrap, Recorded, PurseOf, SameTenants, LimitOf, SetRemaining, SetTotal, SetCommitted, SetInitial, PutRecord, Bump;
    WrapAll();
    PurseIs(e, t);
    match op.rs {
      case RAllocate => PurseBump(e, t);
      case RDebit(_, current) => PurseRemaining(e, op.tenant, t, current - op.cost);
      case RInsert(id) => PurseRecord(e, id, Record(op.tenant, op.cost), t);
      case RUndo =>
        PurseIs(e, op.tenant);
        PurseTotal(e, op.tenant, t, Wrap(e.totals[op.tenant] - op.cost));
      case _ =>
    }
  }

  lemma ReserveBooks(e: Engine, free: Locks, op: Op, spurious: bool, t: Tenant)
    requires SameTenants(e) && OpOk(e, op) && op.Reserve? && ReserveStep(e, free, op, spurious).Some?
    requires t in e.remaining && Room(PurseOf(e, t), op, t)
    ensures StepBooks(e, op, ReserveStep(e, free, op, spurious).value, t)
  {
    hide *;
    if Early(op) {
      EarlyReserveBooks(e, free, op, spurious, t);
    } else {
      LateReserveBooks(e, free, op, spurious, t);
    }
  }

  /** The stages of a commit before the new committed amount is stored. */
  predicate Uncommitted(op: Op)
    requires op.Commit?
  {
    op.cs.CLookup? || op.cs.CLock? || op.cs.CLoad? || op.cs.CDebit?
  }

  lemma EarlyCommitBooks(e: Engine, free: Locks, op: Op, spurious: bool, t: Tenant)
    requires SameTenants(e) && OpOk(e, op) && op.Commit? && Uncommitted(op) && CommitStep(e, free, op, spurious).Some?
    requires t in e.remaining && Room(PurseOf(e, t), op, t)
    ensures StepBooks(e, op, CommitStep(e, free, op, spurious).value, t)
  {
    hide Wrap, Recorded, PurseOf, SameTenants, LimitOf, SetRemaining, SetTotal, SetCommitted, SetInitial, PutRecord, Bump;
    WrapAll();
    PurseIs(e, t);
    if op.cs.CDebit? {
      PurseRemaining(e, op.rec.tenant, t, op.cs.current - (op.actual - op.rec.amount));
    }
  }

  lemma LateCommitBooks(e: Engine, free: Locks, op: Op, spurious: bool, t: Tenant)
    requires SameTenants(e) && OpOk(e, op) && op.Commit? && !Uncommitted(op) && CommitStep(e, free, op, spurious).Some?
    requires t in e.remaining && Room(PurseOf(e, t), op, t)
    ensures StepBooks(e, op, CommitStep(e, free, op, spurious).value, t)
  {
    hide Wrap, Recorded, PurseOf, SameTenants, LimitOf, SetRemaining, SetTotal, SetCommitted, SetInitial, PutRecord, Bump;
    WrapAll();
    PurseIs(e, t);
    var u, delta := op.rec.tenant, op.actual - op.rec.amount;
    PurseIs(e, u);
    match op.cs {
      case CCommit(new_committed) => PurseCommitted(e, u, t, new_committed);
      case CRefund => PurseRemaining(e, u, t, Wrap(e.remaining[u] - delta));
      case CUnreserve => PurseTotal(e, u, t, Wrap(e.totals[u] - op.rec.amount));
      case CFail => PurseRecord(e, op.id, op.rec, t);
      case _ =>
    }
  }

  lemma CommitBooks(e: Engine, free: Locks, op: Op, spurious: bool, t: Tenant)
    requires SameTenants(e) && OpOk(e, op) && op.Commit? && CommitStep(e, free, op, spurious).Some?
    requires t in e.remaining && Room(PurseOf(e, t), op, t)
    ensures StepBooks(e, op, CommitStep(e, free, op, spurious).value, t)
  {
    hide *;
    if Uncommitted(op) {
      EarlyCommitBooks(e, free, op, spurious, t);
    } else {
      LateCommitBooks(e, free, op, spurious, t);
    }
  }

  lemma ReleaseBooks(e: Engine, free: Locks, op: Op, t: Tenant)
    requires SameTenants(e) && OpOk(e, op) && op.Release? && ReleaseStep(e, free, op).Some?
    requires t in e.remaining && Room(PurseOf(e, t), op, t)
    ensures StepBooks(e, op, ReleaseStep(e, free, op).value, t)
  {
    hide Wrap, Recorded, PurseOf, SameTenants, LimitOf, SetRemaining, SetTotal, SetCommitted, SetInitial, PutRecord, Bump;
    WrapAll();
    PurseIs(e, t);
    var u := op.rec.tenant;
    PurseIs(e, u);
    match op.ls {
      case LLookup => PurseRecord(e, op.id, op.rec, t);
      case LUnreserve => PurseTotal(e, u, t, Wrap(e.totals[u] - op.rec.amount));
      case LCredit => PurseRemaining(e, u, t, Wrap(e.remaining[u] + op.rec.amount));
    }
  }

  lemma TopUpBooks(e: Engine, free: Locks, op: Op, spurious: bool, t: Tenant)
    requires SameTenants(e) && OpOk(e, op) && op.TopUp? && TopUpStep(e, free, op, spurious).Some?
    requires t in e.remaining && Room(PurseOf(e, t), op, t)
    ensures StepBooks(e, op, TopUpStep(e, free, op, spurious).value, t)
  {
    hide Recorded, PurseOf, SameTenants, SetRemaining, SetTotal, SetCommitted, SetInitial, PutRecord, Bump;
    PurseIs(e, t);
    match op.ts {
      case TCredit(_, current) => PurseRemaining(e, op.tenant, t, current + op.amount);
      case TStore(new_initial) => PurseInitial(e, op.tenant, t, new_initial);
      case _ =>
    }
  }

  lemma RemoveBooks(e: Engine, free: Locks, op: Op, t: Tenant)
    requires SameTenants(e) && OpOk(e, op) && (op.CommitStart? || op.ReleaseStart?) && RemoveStep(e, free, op).Some?
    requires t in e.remaining && Room(PurseOf(e, t), op, t)
    ensures StepBooks(e, op, RemoveStep(e, free, op).value, t)
  {
    hide Sum;
    if op.id in e.reservations {
      RecordDropped(e, op.id, t);
    }
  }

  lemma EnsureBooks(e: Engine, free: Locks, op: Op, t: Tenant)
    requires SameTenants(e) && OpOk(e, op) && op.Ensure? && EnsureStep(e, free, op).Some?
    requires t in e.remaining && Room(PurseOf(e, t), op, t)
    ensures StepBooks(e, op, EnsureStep(e, free, op).value, t)
  {
    hide Sum;
    var e' := EnsureStep(e, free, op).value.e;
    assert e'.reservations == e.reservations && SameTenants(e') && PurseOf(e', t) == PurseOf(e, t);
  }

  lemma OpStepBooks(e: Engine, free: Locks, op: Op, spurious: bool, t: Tenant)
    requires SameTenants(e) && OpOk(e, op) && OpStep(e, free, op, spurious).Some?
    requires t in e.remaining && Room(PurseOf(e, t), op, t)
    ensures StepBooks(e, op, OpStep(e, free, op, spurious).value, t)
  {
    hide SameTenants, OpOk, StepBooks, PurseOf, Room, ReserveStep, CommitStep, ReleaseStep, RemoveStep, TopUpStep, EnsureStep;
    match op
    case Reserve(_, _, _) => ReserveBooks(e, free, op, spurious, t);
    case CommitStart(_, _) => RemoveBooks(e, free, op, t);
    case Commit(_, _, _, _) => CommitBooks(e, free, op, spurious, t);
    case ReleaseStart(_) => RemoveBooks(e, free, op, t);
    case Release(_, _, _) => ReleaseBooks(e, free, op, t);
    case TopUp(_, _, _) => TopUpBooks(e, free, op, spurious, t);
    case Ensure(_, _, _) => EnsureBooks(e, free, op, t);
  }

  // ----- The whole state -----

  /** While one call holds the lock on the initial amounts, no other has a credit outstanding. */
  lemma OnlyCredit(s: State, k: nat, t: Tenant)
    requires Shape(s) && k in s.ops && HoldsInitials(s.ops[k])
    ensures Sum(s.ops, Credit(t)) == CreditOf(s.ops[k], t)
  {
    SumDrop(s.ops, k, Credit(t));
    forall j | j in s.ops - {k}
      ensures Credit(t)((s.ops - {k})[j]) == 0
    {
      assert Apart(s.ops[j], s.ops[k]);
    }
    SumZero(s.ops - {k}, Credit(t));
  }

  lemma StepSums(s: State, k: nat, x: Effect, t: Tenant)
    requires k in s.ops
    ensures Sum(Apply(s, k, x).ops, Funds(t)) == Sum(s.ops, Funds(t)) - FundsOf(s.ops[k], t) + NextFunds(x, t)
    ensures Sum(Apply(s, k, x).ops, Hold(t)) == Sum(s.ops, Hold(t)) - HoldOf(s.ops[k], t) + NextHold(x, t)
    ensures Sum(Apply(s, k, x).ops, Credit(t)) == Sum(s.ops, Credit(t)) - CreditOf(s.ops[k], t) + NextCredit(x, t)
  {
    hide FundsOf, HoldOf, CreditOf, Sum;
    var ops' := Apply(s, k, x).ops;
    assert s.ops - {k} == ops' - {k};
    SumChange(s.ops, ops', k, Funds(t));
    SumChange(s.ops, ops', k, Hold(t));
    SumChange(s.ops, ops', k, Credit(t));
  }

  lemma StepRoom(s: State, k: nat, t: Tenant)
    requires Inv(s) && k in s.ops && t in s.e.remaining
    ensures Room(PurseOf(s.e, t), s.ops[k], t)
  {
    NoWrap(s, k, t);
    Signs(s, t);
    assert Account(s, t);
  }

  lemma StepAccount(s: State, k: nat, x: Effect, t: Tenant)
    requires Inv(s) && k in s.ops && t in s.e.remaining && StepBooks(s.e, s.ops[k], x, t)
    ensures Account(Apply(s, k, x), t)
  {
    hide Sum, FundsOf, HoldOf, CreditOf, NextFunds, NextHold, NextCredit, Shape, SameTenants, HoldsInitials;
    assert Account(s, t);
    StepSums(s, k, x, t);
    if HoldsInitials(s.ops[k]) {
      OnlyCredit(s, k, t);
    }
  }

  /** The step that adds the tenant: the account is new, and the call ends without money of its own. */
  lemma CreateKeeps(s: State, k: nat)
    requires Inv(s) && k in s.ops && Creates(s.ops[k])
    ensures var e' := Ensured(s.e, s.ops[k].tenant, s.ops[k].budget);
      Inv(s.(e := e', ops := s.ops - {k}))
  {
    hide Inv, Ensured, Sum;
    var op := s.ops[k];
    InFlightOk(s, k);
    if op.tenant !in s.e.remaining {
      EnsureKeeps(s, op.tenant, op.budget);
      EndKeeps(s.(e := Ensured(s.e, op.tenant, op.budget)), k);
    } else {
      Unensured(s.e, op.tenant, op.budget);
      EndKeeps(s, k);
    }
  }

  lemma InFlightOk(s: State, k: nat)
    requires Inv(s) && k in s.ops
    ensures OpOk(s.e, s.ops[k])
  {
  }

  lemma Unensured(e: Engine, t: Tenant, budget: int)
    requires t in e.remaining
    ensures Ensured(e, t, budget) == e
  {
  }

  /** A call that carries no money can end. */
  lemma EndKeeps(s: State, k: nat)
    requires Inv(s) && k in s.ops && s.ops[k].Ensure?
    ensures Inv(s.(ops := s.ops - {k}))
  {
    hide Sum, OpOk, RecordOk, Apart;
    var s' := s.(ops := s.ops - {k});
    forall t | t in s'.e.remaining
      ensures Account(s', t)
    {
      assert Account(s, t);
      SumDrop(s.ops, k, Funds(t));
      SumDrop(s.ops, k, Hold(t));
      SumDrop(s.ops, k, Credit(t));
    }
  }

  lemma ActKeeps(s: State, k: nat, spurious: bool)
    requires Inv(s) && k in s.ops && OpStep(s.e, FreeLocks(s.ops), s.ops[k], spurious).Some?
    ensures Inv(Apply(s, k, OpStep(s.e, FreeLocks(s.ops), s.ops[k], spurious).value))
  {
    hide Inv, OpStep, FreeLocks, Apply, Ensured;
    if Creates(s.ops[k]) {
      CreateKeeps(s, k);
      Created(s, k, spurious);
    } else {
      StepKeepsInv(s, k, spurious);
    }
  }

  lemma Created(s: State, k: nat, spurious: bool)
    requires k in s.ops && Creates(s.ops[k])
    ensures var x := OpStep(s.e, FreeLocks(s.ops), s.ops[k], spurious);
      && x.Some?
      && Apply(s, k, x.value) == s.(e := Ensured(s.e, s.ops[k].tenant, s.ops[k].budget), ops := s.ops - {k})
  {
    hide Ensured, FreeLocks;
    assert s.issued + [] == s.issued && s.settled + [] == s.settled;
  }

  lemma StepKeepsInv(s: State, k: nat, spurious: bool)
    requires Inv(s) && k in s.ops && OpStep(s.e, FreeLocks(s.ops), s.ops[k], spurious).Some? && !Creates(s.ops[k])
    ensures Inv(Apply(s, k, OpStep(s.e, FreeLocks(s.ops), s.ops[k], spurious).value))
  {
    hide Sum, OpStep, OpOk, Account, RecordOk, Apart, FreeLocks, StepOk, StepBooks;
    var x := OpStep(s.e, FreeLocks(s.ops), s.ops[k], spurious).value;
    EngineIsOk(s);
    OpStepOk(s.e, FreeLocks(s.ops), s.ops[k], spurious);
    StepShape(s, k, x);
    SameTenantSet(s.e, FreeLocks(s.ops), s.ops[k], x);
    forall t | t in x.e.remaining
      ensures Account(Apply(s, k, x), t)
    {
      StepRoom(s, k, t);
      OpStepBooks(s.e, FreeLocks(s.ops), s.ops[k], spurious, t);
      StepAccount(s, k, x, t);
    }
  }

  lemma SameTenantSet(e: Engine, free: Locks, op: Op, x: Effect)
    requires StepOk(e, free, op, x)
    ensures x.e.remaining.Keys == e.remaining.Keys
  {
  }

  lemma EngineIsOk(s: State)
    requires Inv(s)
    ensures EngineOk(s.e)
  {
    forall t | t in s.e.totals
      ensures 0 <= s.e.totals[t]
    {
      Signs(s, t);
      assert Account(s, t);
    }
    if s.e.next_id in s.e.reservations {
      assert RecordOk(s.e, s.e.next_id, s.e.reservations[s.e.next_id]);
    }
  }

  // ----- The other events -----

  lemma AdmittedOp(e: Engine, op: Op, t: Tenant)
    requires Admitted(op)
    ensures OpOk(e, op) && FundsOf(op, t) == HoldOf(op, t) == CreditOf(op, t) == 0
    ensures forall a {:trigger Apart(a, op)} {:trigger Apart(op, a)} :: Apart(a, op) && Apart(op, a)
  {
  }

  lemma BeginAccount(s: State, k: nat, op: Op, t: Tenant)
    requires Inv(s) && k !in s.ops && Admitted(op) && t in s.e.remaining
    ensures Account(s.(ops := s.ops[k := op]), t)
  {
    hide Sum, FundsOf, HoldOf, CreditOf, Shape, Admitted;
    assert Account(s, t);
    assert s.ops - {k} == s.ops;
    AdmittedOp(s.e, op, t);
    SumPut(s.ops, k, op, Funds(t));
    SumPut(s.ops, k, op, Hold(t));
    SumPut(s.ops, k, op, Credit(t));
  }

  lemma BeginKeeps(s: State, k: nat, op: Op)
    requires Inv(s) && k !in s.ops && Admitted(op)
    ensures Inv(s.(ops := s.ops[k := op]))
  {
    hide OpOk, Apart, Account, RecordOk, Admitted;
    AdmittedOp(s.e, op, "");
    forall t | t in s.e.remaining
      ensures Account(s.(ops := s.ops[k := op]), t)
    {
      BeginAccount(s, k, op, t);
    }
  }

  /** A tenant that does not exist yet is in no record and in no call past its lookup. */
  lemma NewTenant(s: State, t: Tenant)
    requires Shape(s) && t !in s.e.remaining
    ensures Sum(s.e.reservations, Held(t)) == 0 && Sum(s.ops, Funds(t)) == 0
    ensures Sum(s.ops, Hold(t)) == 0 && Sum(s.ops, Credit(t)) == 0
  {
    forall id | id in s.e.reservations
      ensures Held(t)(s.e.reservations[id]) == 0
    {
      assert RecordOk(s.e, id, s.e.reservations[id]);
    }
    forall k | k in s.ops
      ensures Funds(t)(s.ops[k]) == 0 && Hold(t)(s.ops[k]) == 0 && Credit(t)(s.ops[k]) == 0
    {
      assert OpOk(s.e, s.ops[k]);
    }
    SumZero(s.e.reservations, Held(t));
    SumZero(s.ops, Funds(t));
    SumZero(s.ops, Hold(t));
    SumZero(s.ops, Credit(t));
  }

  lemma EnsureAccount(s: State, t: Tenant, budget: int, u: Tenant)
    requires Inv(s) && 0 <= budget <= I64_MAX && t !in s.e.remaining && (u == t || u in s.e.remaining)
    ensures SameTenants(Ensured(s.e, t, budget)) && Account(s.(e := Ensured(s.e, t, budget)), u)
  {
    hide Sum, OpOk, Shape;
    assert SameTenants(s.e);
    if u == t {
      NewTenant(s, t);
    } else {
      assert Account(s, u);
    }
  }

  lemma EnsureShape(s: State, t: Tenant, budget: int)
    requires Shape(s) && t !in s.e.remaining
    ensures Shape(s.(e := Ensured(s.e, t, budget)))
  {
    hide OpOk, Apart;
    var s' := s.(e := Ensured(s.e, t, budget));
    forall k | k in s'.ops
      ensures OpOk(s'.e, s'.ops[k])
    {
      EnsureOther(s.e, t, budget, s.ops[k]);
    }
    forall id | id in s'.e.reservations
      ensures RecordOk(s'.e, id, s'.e.reservations[id])
    {
      assert RecordOk(s.e, id, s.e.reservations[id]);
    }
  }

  lemma EnsureKeeps(s: State, t: Tenant, budget: int)
    requires Inv(s) && 0 <= budget <= I64_MAX && t !in s.e.remaining
    ensures Inv(s.(e := Ensured(s.e, t, budget)))
  {
    hide Shape, Account;
    EnsureShape(s, t, budget);
    EnsureAccount(s, t, budget, t);
    forall u | u in Ensured(s.e, t, budget).remaining
      ensures Account(s.(e := Ensured(s.e, t, budget)), u)
    {
      EnsureAccount(s, t, budget, u);
    }
  }

  lemma EnsureOther(e: Engine, t: Tenant, budget: int, op: Op)
    requires SameTenants(e) && OpOk(e, op) && t !in e.remaining
    ensures OpOk(Ensured(e, t, budget), op)
  {
  }

  lemma IdleSums(s: State, t: Tenant)
    requires s.ops == map[]
    ensures Sum(s.ops, Funds(t)) == 0 && Sum(s.ops, Hold(t)) == 0 && Sum(s.ops, Credit(t)) == 0
  {
  }

  lemma CapKeeps(s: State, t: Tenant, max: int)
    requires Inv(s) && s.ops == map[] && 0 <= max
    ensures Inv(s.(e := Capped(s.e, t, max)))
  {
    var s' := s.(e := Capped(s.e, t, max));
    forall u | u in s'.e.remaining
      ensures Account(s', u)
    {
      assert Account(s, u);
    }
    forall id | id in s'.e.reservations
      ensures RecordOk(s'.e, id, s'.e.reservations[id])
    {
      assert RecordOk(s.e, id, s.e.reservations[id]);
    }
  }

  lemma SnapshotKeeps(s: State, version: nat)
    requires Inv(s) && s.ops == map[] && s.e.next_id < ALLOCATOR_MASK
    ensures Inv(s.(e := s.e.(next_id := s.e.next_id + 1, snapshot_version := version)))
  {
    var s' := s.(e := s.e.(next_id := s.e.next_id + 1, snapshot_version := version));
    forall u | u in s'.e.remaining
      ensures Account(s', u)
    {
      assert Account(s, u);
    }
    forall id | id in s'.e.reservations
      ensures RecordOk(s'.e, id, s'.e.reservations[id])
    {
      assert RecordOk(s.e, id, s.e.reservations[id]);
    }
  }

  /** A restored column holds, for each tenant, the value of its row. */
  lemma {:induction false} ColumnOf(rows: seq<TenantLedger>, f: TenantLedger -> int, i: nat)
    requires i < |rows| && DistinctTenants(rows)
    ensures rows[i].tenant in Column(rows, f) && Column(rows, f)[rows[i].tenant] == f(rows[i])
  {
    if i < |rows| - 1 {
      ColumnOf(rows[..|rows| - 1], f, i);
    }
  }

  lemma {:induction false} ColumnKeys(rows: seq<TenantLedger>, f: TenantLedger -> int)
    ensures forall t :: t in Column(rows, f) <==> exists i :: 0 <= i < |rows| && rows[i].tenant == t
  {
    if rows != [] {
      var init := rows[..|rows| - 1];
      ColumnKeys(init, f);
      forall t
        ensures t in Column(rows, f) <==> exists i :: 0 <= i < |rows| && rows[i].tenant == t
      {
        assert t in Column(rows, f) <==> t in Column(init, f) || t == rows[|rows| - 1].tenant;
        if i :| 0 <= i < |init| && init[i].tenant == t {
          assert rows[i].tenant == t;
        }
      }
    }
  }

  /** Every row of a restorable snapshot is the account it restores. */
  lemma RestoredRow(snap: BudgetSnapshot, i: nat)
    requires Restorable(snap) && i < |snap.tenants|
    ensures var e, r := Restored(snap), snap.tenants[i];
      && r.tenant in e.remaining && r.tenant in e.initial && r.tenant in e.committed && r.tenant in e.totals
      && r == TenantLedger(r.tenant, e.initial[r.tenant], e.remaining[r.tenant], e.totals[r.tenant], e.committed[r.tenant])
  {
    ColumnOf(snap.tenants, (r: TenantLedger) => r.remaining, i);
    ColumnOf(snap.tenants, (r: TenantLedger) => r.initial, i);
    ColumnOf(snap.tenants, (r: TenantLedger) => r.committed, i);
    ColumnOf(snap.tenants, (r: TenantLedger) => r.reserved, i);
  }

  lemma RestoredTenants(snap: BudgetSnapshot)
    ensures SameTenants(Restored(snap))
    ensures forall t :: t in Restored(snap).remaining <==> exists i :: 0 <= i < |snap.tenants| && snap.tenants[i].tenant == t
  {
    ColumnKeys(snap.tenants, (r: TenantLedger) => r.remaining);
    ColumnKeys(snap.tenants, (r: TenantLedger) => r.initial);
    ColumnKeys(snap.tenants, (r: TenantLedger) => r.committed);
    ColumnKeys(snap.tenants, (r: TenantLedger) => r.reserved);
  }

  lemma RestoreKeeps(s: State, snap: BudgetSnapshot)
    requires s.ops == map[] && Restorable(snap)
    ensures Inv(s.(e := Restored(snap)))
  {
    hide Column;
    var s' := s.(e := Restored(snap));
    RestoredTenants(snap);
    forall u | u in s'.e.remaining
      ensures Account(s', u)
    {
      var i :| 0 <= i < |snap.tenants| && snap.tenants[i].tenant == u;
      RestoredRow(snap, i);
      assert GoodRow(snap.tenants[i]);
      IdleSums(s', u);
    }
  }

  /** Every event keeps the invariant. */
  lemma NextKeeps(s: State, ev: Event)
    requires Inv(s) && Next(s, ev).Some?
    ensures Inv(Next(s, ev).value)
  {
    hide Inv, OpStep, FreeLocks, Apply, Restorable, Restored, Capped, Admitted;
    match ev
    case Begin(k, op) => BeginKeeps(s, k, op);
    case Act(k, spurious) => ActKeeps(s, k, spurious);
    case EnsureTenant(t, budget) =>
      if t !in s.e.remaining {
        EnsureKeeps(s, t, budget);
      }
    case SetCap(t, max) => CapKeeps(s, t, max);
    case TakeSnapshot => SnapshotKeeps(s, RECOVERY_TAG + s.e.next_id + 1);
    case Restore(snap) => RestoreKeeps(s, snap);
  }

  lemma {:induction false} RunKeeps(s: State, events: seq<Event>)
    requires Inv(s) && Run(s, events).Some?
    ensures Inv(Run(s, events).value)
    decreases |events|
  {
    hide Inv, Next;
    if events != [] {
      NextKeeps(s, events[0]);
      RunKeeps(Next(s, events[0]).value, events[1..]);
    }
  }

  lemma InitialKept()
    ensures Inv(Initial)
  {
  }

  lemma RunStep(s: State, events: seq<Event>)
    requires events != [] && Next(s, events[0]).Some?
    ensures Run(s, events) == Run(Next(s, events[0]).value, events[1..])
  {
    hide Next;
  }

  lemma {:induction false} RunSplit(s: State, a: seq<Event>, b: seq<Event>)
    requires Run(s, a).Some?
    ensures Run(s, a + b) == Run(Run(s, a).value, b)
    decreases |a|
  {
    hide Next;
    if a == [] {
      assert a + b == b;
    } else {
      RunSplit(Next(s, a[0]).value, a[1..], b);
      assert (a + b)[1..] == a[1..] + b;
    }
  }

  lemma RunNothing(s: State, events: seq<Event>)
    requires events == []
    ensures Run(s, events) == Some(s)
  {
  }

  /** Remaining, reserved and committed money of one tenant add up to its initial amount. */
  ghost predicate Settled(e: Engine, t: Tenant)
    requires SameTenants(e) && t in e.remaining
  {
    && e.remaining[t] + e.totals[t] + e.committed[t] == e.initial[t] <= I64_MAX
    && e.totals[t] == Sum(e.reservations, Held(t))
    && 0 <= e.remaining[t] && 0 <= e.totals[t] && 0 <= e.committed[t]
  }

  /**
   * In every interleaving of every run no balance is ever negative and none overdrafts, and whenever
   * no call is in flight each tenant's money adds up and its reserved total is what its records hold.
   */
  lemma RunConserves(events: seq<Event>)
    requires Run(Initial, events).Some?
    ensures var s := Run(Initial, events).value;
      && SameTenants(s.e)
      && (forall t :: t in s.e.remaining ==> 0 <= s.e.remaining[t] <= I64_MAX && 0 <= s.e.totals[t] <= I64_MAX)
      && (s.ops == map[] ==> forall t :: t in s.e.remaining ==> Settled(s.e, t))
  {
    hide Next, Run;
    RunKeeps(Initial, events);
    var s := Run(Initial, events).value;
    forall t | t in s.e.remaining
      ensures 0 <= s.e.remaining[t] <= I64_MAX && 0 <= s.e.totals[t] <= I64_MAX
      ensures s.ops == map[] ==> Settled(s.e, t)
    {
      Signs(s, t);
      assert Account(s, t);
      if s.ops == map[] {
        IdleSums(s, t);
      }
    }
  }
}
