/** The budget protocol never gets stuck, and its arithmetic never wraps. */
module BudgetProgress {
  import opened Wrappers
  import opened BudgetProtocol
  import opened BudgetConservation
  import opened BudgetRuns

  // ----- No step wraps -----

  /** The two wrapping operations a call may still make on the counters of `t`, done without a limit. */
  ghost predicate Exact(e: Engine, op: Op, t: Tenant)
    requires t in e.remaining && t in e.totals
  {
    && Wrap(e.remaining[t] + FundsOf(op, t)) == e.remaining[t] + FundsOf(op, t)
    && Wrap(e.totals[t] - HoldOf(op, t)) == e.totals[t] - HoldOf(op, t)
  }

  lemma InRange(s: State, k: nat, t: Tenant)
    requires Inv(s) && k in s.ops && t in s.e.remaining
    ensures t in s.e.totals && 0 <= s.e.remaining[t] && s.e.totals[t] <= I64_MAX
    ensures 0 <= FundsOf(s.ops[k], t) && 0 <= HoldOf(s.ops[k], t)
  {
    hide Balance, Unbacked, FundsOf, HoldOf, CreditOf;
    assert Account(s, t);
    OpSigns(s.e, s.ops[k], t);
  }

  /** In every interleaving of every run, whatever a call in flight puts back or gives up is exact. */
  lemma RunNeverWraps(events: seq<Event>, k: nat, t: Tenant)
    requires Run(Initial, events).Some?
    ensures var s := Run(Initial, events).value;
      k in s.ops && t in s.e.remaining ==> t in s.e.totals && Exact(s.e, s.ops[k], t)
  {
    hide Next, Run, Inv, FundsOf, HoldOf, Wrap;
    InitialKept();
    RunKeeps(Initial, events);
    var s := Run(Initial, events).value;
    if k in s.ops && t in s.e.remaining {
      NoWrap(s, k, t);
      InRange(s, k, t);
      WrapAll();
    }
  }

  // ----- How much a call still has to do -----

  function Seen(m: map<Tenant, int>, t: Tenant, current: int): nat {
    if t in m && m[t] == current then 0 else 1
  }

  /** A bound on the steps of a call that runs alone; a value read too early costs it one more. */
  function Work(e: Engine, op: Op): nat {
    match op
    case Reserve(t, _, rs) =>
      (match rs
       case RLookup => 12
       case RLimit => 11
       case RLoadTotal(_) => 10
       case RAddTotal(_, current) => 8 + Seen(e.totals, t, current)
       case RAllocate => 7
       case RLoadBudget(_) => 6
       case RDebit(_, current) => 4 + Seen(e.remaining, t, current)
       case RInsert(_) => 2
       case RUndo => 1)
    case CommitStart(_, _) => 11
    case Commit(_, _, rec, cs) =>
      (match cs
       case CLookup => 10
       case CLock => 9
       case CLoad(_) => 8
       case CDebit(_, current) => 6 + Seen(e.remaining, rec.tenant, current)
       case CCommit(_) => 5
       case CRefund => 4
       case CUnreserve => 3
       case CFail => 1)
    case ReleaseStart(_) => 11
    case Release(_, _, ls) => if ls.LLookup? then 3 else if ls.LUnreserve? then 2 else 1
    case TopUp(t, _, ts) =>
      (match ts
       case TLookup => 7
       case TInitial => 6
       case TLoad(_) => 5
       case TCredit(_, current) => 3 + Seen(e.remaining, t, current)
       case TStore(_) => 1)
    case Ensure(_, _, es) => if es.EBudgets? then 4 else if es.EInitials? then 3 else if es.ECommitted? then 2 else 1
  }

  predicate AllFree(free: Locks) {
    free.reservations && free.committed && free.initials && free.budgets
  }

  /** The locks a call may still have to wait for are free. */
  predicate Grants(free: Locks, op: Op) {
    match op
    case Commit(_, _, _, cs) => cs.CLookup? || cs.CLock? ==> free.budgets && free.committed
    case Release(_, _, ls) => ls.LLookup? ==> free.budgets
    case TopUp(_, _, ts) => ts.TLookup? || ts.TInitial? ==> free.budgets && free.initials
    case Ensure(_, _, es) =>
      && (es.EBudgets? ==> AllFree(free)) && (es.EInitials? ==> free.initials && free.committed)
      && (es.ECommitted? ==> free.committed)
    case _ => AllFree(free)
  }

  /** A call that runs alone and need not wait takes a step towards its end. */
  ghost predicate Advances(e: Engine, op: Op, x: Option<Effect>) {
    x.Some? && (x.value.next.Some? ==> Work(x.value.e, x.value.next.value) < Work(e, op))
  }

  lemma ReserveAdvances(e: Engine, free: Locks, op: Op)
    requires SameTenants(e) && OpOk(e, op) && op.Reserve? && Grants(free, op)
    ensures Advances(e, op, ReserveStep(e, free, op, false))
  {
    hide Wrap, LimitOf;
  }

  lemma CommitAdvances(e: Engine, free: Locks, op: Op)
    requires SameTenants(e) && OpOk(e, op) && op.Commit? && Grants(free, op)
    ensures Advances(e, op, CommitStep(e, free, op, false))
  {
    hide Wrap, LimitOf;
  }

  lemma OthersAdvance(e: Engine, free: Locks, op: Op)
    requires SameTenants(e) && OpOk(e, op) && !op.Reserve? && !op.Commit? && Grants(free, op)
    ensures Advances(e, op, OpStep(e, free, op, false))
  {
    hide Wrap, LimitOf;
  }

  lemma OpAdvances(e: Engine, free: Locks, op: Op)
    requires SameTenants(e) && OpOk(e, op) && Grants(free, op)
    ensures Advances(e, op, OpStep(e, free, op, false))
  {
    hide SameTenants, OpOk, Advances, ReserveStep, CommitStep, ReleaseStep, TopUpStep, RemoveStep;
    match op
    case Reserve(_, _, _) => ReserveAdvances(e, free, op);
    case Commit(_, _, _, _) => CommitAdvances(e, free, op);
    case _ => OthersAdvance(e, free, op);
  }

  // ----- Some call can always step -----

  /** What the other calls leave thread `k` suffices for the rest of its call. */
  ghost predicate Leads(s: State, k: nat) {
    k in s.ops && Grants(FreeLocks(s.ops - {k}), s.ops[k])
  }

  /** A call past the last lock it waits for. */
  predicate Unstoppable(op: Op) {
    || (op.Commit? && !op.cs.CLookup? && !op.cs.CLock?)
    || (op.Release? && !op.ls.LLookup?)
    || (op.TopUp? && HoldsInitials(op))
    || (op.Ensure? && op.es.ETotals?)
  }

  /**
   * The locks are taken in one order, the reservations before the tenants' balances, those before the
   * initial and then the committed amounts, so the call that is furthest along waits for nobody.
   */
  lemma SomeoneLeads(s: State) returns (k: nat)
    requires Shape(s) && s.ops != map[]
    ensures Leads(s, k)
  {
    hide OpOk, RecordOk, SameTenants;
    if j :| j in s.ops && Unstoppable(s.ops[j]) {
      k := j;
    } else if j :| j in s.ops && HoldsBudgets(s.ops[j]) {
      k := j;
      assert forall i :: i in s.ops && i != k ==> Apart(s.ops[k], s.ops[i]);
    } else if j :| j in s.ops && HoldsReservations(s.ops[j]) {
      k := j;
    } else {
      k :| k in s.ops;
    }
  }

  /** A call holds none of the locks it may still wait for. */
  lemma LeaderIsGranted(s: State, k: nat)
    requires Leads(s, k)
    ensures Grants(FreeLocks(s.ops), s.ops[k])
  {
    var others := s.ops - {k};
    assert forall j :: j in s.ops ==> j == k || (j in others && others[j] == s.ops[j]);
  }

  lemma LeaderSteps(s: State, k: nat)
    requires Shape(s) && Leads(s, k)
    ensures Next(s, Act(k, false)).Some?
    ensures var s' := Next(s, Act(k, false)).value;
      && s'.ops - {k} == s.ops - {k}
      && (k in s'.ops ==> Leads(s', k) && Work(s'.e, s'.ops[k]) < Work(s.e, s.ops[k]))
  {
    hide OpStep, Work, Grants, FreeLocks;
    LeaderIsGranted(s, k);
    OpAdvances(s.e, FreeLocks(s.ops), s.ops[k]);
    StillGranted(s.e, FreeLocks(s.ops), s.ops[k], FreeLocks(s.ops - {k}));
    assert s.ops - {k} == Next(s, Act(k, false)).value.ops - {k};
  }

  /** Going on, a call needs no lock it did not need before. */
  lemma StillGranted(e: Engine, free: Locks, op: Op, left: Locks)
    requires Grants(left, op)
    ensures var x := OpStep(e, free, op, false); x.Some? && x.value.next.Some? ==> Grants(left, x.value.next.value)
  {
    hide Wrap, LimitOf;
  }

  /** Whatever is in flight, in every reachable state some call can take its next step. */
  lemma NeverStuck(events: seq<Event>)
    requires Run(Initial, events).Some?
    ensures var s := Run(Initial, events).value;
      s.ops != map[] ==> exists k :: k in s.ops && Next(s, Act(k, false)).Some?
  {
    hide Run, OpStep, Work, Shape, Accounts, Grants;
    var s := Run(Initial, events).value;
    InitialKept();
    RunKeeps(Initial, events);
    if s.ops != map[] {
      var k := SomeoneLeads(s);
      LeaderSteps(s, k);
    }
  }

  // ----- Every run can be completed -----

  /** Steps of calls in flight, none of which fails for no reason. */
  predicate OnlyActs(events: seq<Event>) {
    forall i :: 0 <= i < |events| ==> events[i].Act? && !events[i].spurious
  }

  lemma ActFirst(s: State, k: nat, rest: seq<Event>)
    requires Next(s, Act(k, false)).Some? && OnlyActs(rest)
    ensures OnlyActs([Act(k, false)] + rest)
    ensures Run(s, [Act(k, false)] + rest) == Run(Next(s, Act(k, false)).value, rest)
  {
    hide Next;
    assert ([Act(k, false)] + rest)[1..] == rest;
  }

  /** A leading call runs to its end within the work it has left, and the others stay where they are. */
  lemma {:induction false} LeaderFinishes(s: State, k: nat) returns (events: seq<Event>)
    requires Inv(s) && Leads(s, k)
    ensures OnlyActs(events) && |events| <= Work(s.e, s.ops[k])
    ensures forall i :: 0 <= i < |events| ==> events[i] == Act(k, false)
    ensures Run(s, events).Some? && Run(s, events).value.ops == s.ops - {k}
    decreases Work(s.e, s.ops[k])
  {
    hide Next, Run, Work, Shape, Accounts, Leads;
    LeaderInFlight(s, k);
    LeaderSteps(s, k);
    NextKeeps(s, Act(k, false));
    var s' := Next(s, Act(k, false)).value;
    if k in s'.ops {
      var rest := LeaderFinishes(s', k);
      ActFirst(s, k, rest);
      events := [Act(k, false)] + rest;
    } else {
      WorkLeft(s.e, s.ops[k]);
      ActFirst(s, k, []);
      RunNothing(s', []);
      events := [Act(k, false)] + [];
      assert s'.ops == s'.ops - {k};
    }
  }

  lemma WorkLeft(e: Engine, op: Op)
    ensures 0 < Work(e, op) <= 12
  {
  }

  lemma {:induction false} Drain(s: State) returns (events: seq<Event>)
    requires Inv(s)
    ensures OnlyActs(events) && |events| <= 12 * |s.ops|
    ensures Run(s, events).Some? && Run(s, events).value.ops == map[]
    decreases |s.ops|
  {
    hide Next, Run, Work, Inv, Leads, Shape;
    if s.ops == map[] {
      RunNothing(s, []);
      events := [];
    } else {
      assert Shape(s) by {
        InvIsShape(s);
      }
      var k := SomeoneLeads(s);
      assert k in s.ops by {
        LeaderInFlight(s, k);
      }
      var first := LeaderFinishes(s, k);
      WorkLeft(s.e, s.ops[k]);
      RunKeeps(s, first);
      var s' := Run(s, first).value;
      assert |s'.ops| < |s.ops| by {
        FewerCalls(s.ops, k);
      }
      var rest := Drain(s');
      RunSplit(s, first, rest);
      events := first + rest;
    }
  }

  lemma InvIsShape(s: State)
    requires Inv(s)
    ensures Shape(s)
  {
  }

  lemma LeaderInFlight(s: State, k: nat)
    requires Leads(s, k)
    ensures k in s.ops
  {
  }

  lemma FewerCalls(ops: map<nat, Op>, k: nat)
    requires k in ops
    ensures |ops - {k}| == |ops| - 1
  {
    assert (ops - {k})[k := ops[k]] == ops;
  }

  /**
   * From every reachable state the calls in flight can all be completed, in at most twelve steps each,
   * and the money of every tenant then adds up.
   */
  lemma RunCompletes(events: seq<Event>) returns (rest: seq<Event>)
    requires Run(Initial, events).Some?
    ensures OnlyActs(rest) && |rest| <= 12 * |Run(Initial, events).value.ops|
    ensures Run(Initial, events + rest).Some?
    ensures var s := Run(Initial, events + rest).value;
      s.ops == map[] && SameTenants(s.e) && forall t :: t in s.e.remaining ==> Settled(s.e, t)
  {
    hide Next, Run, Inv, Settled;
    var s := Run(Initial, events).value;
    InitialKept();
    RunKeeps(Initial, events);
    rest := Drain(s);
    RunSplit(Initial, events, rest);
    RunConserves(events + rest);
  }
}
