/** Capturing, validating and restoring snapshots of the budget engine. */
module BudgetRecovery {
  import opened Wrappers
  import opened Orders
  import opened BudgetProtocol
  import opened BudgetConservation
  import opened BudgetRuns
  import opened BudgetIds

  // ----- Tenant order -----

  predicate CharBefore(a: char, b: char) {
    a < b
  }

  predicate RowBefore(a: TenantLedger, b: TenantLedger) {
    Lex(a.tenant, b.tenant, CharBefore)
  }

  lemma RowsByTenant()
    ensures ByKey(RowBefore)
  {
    forall a: TenantLedger, b: TenantLedger | RowBefore(a, b)
      ensures !RowBefore(b, a)
    {
      LexTotal(a.tenant, b.tenant, CharBefore);
    }
    forall a: TenantLedger, b: TenantLedger, c: TenantLedger | !RowBefore(b, a) && !RowBefore(c, b)
      ensures !RowBefore(c, a)
    {
      LexNotTrans(a.tenant, b.tenant, c.tenant, CharBefore);
    }
  }

  // ----- Capture -----

  /** The row of one tenant, read under the locks. */
  function RowOf(e: Engine, t: Tenant): TenantLedger
    requires t in e.remaining
  {
    TenantLedger(t, if t in e.initial then e.initial[t] else 0, e.remaining[t],
                 if t in e.totals then e.totals[t] else 0, if t in e.committed then e.committed[t] else 0)
  }

  /** `rows` holds the row of every tenant in `ts`, once each. */
  ghost predicate RowsOf(e: Engine, rows: seq<TenantLedger>, ts: set<Tenant>) {
    && DistinctTenants(rows)
    && (forall i :: 0 <= i < |rows| ==> rows[i].tenant in ts && rows[i].tenant in e.remaining)
    && (forall i :: 0 <= i < |rows| ==> rows[i] == RowOf(e, rows[i].tenant))
    && (forall t :: t in ts ==> exists i :: 0 <= i < |rows| && rows[i].tenant == t)
  }

  /** `snap` is a snapshot of `e`: all its rows, in order, fenced by the next allocator position. */
  ghost predicate Captured(e: Engine, snap: BudgetSnapshot) {
    && snap.version == RECOVERY_TAG + (e.next_id + 1)
    && RowsOf(e, snap.tenants, e.remaining.Keys) && Strictly(snap.tenants, RowBefore)
    && snap.active_reservations == |e.reservations| && snap.wal_high_watermark == None
  }

  lemma RowsPush(e: Engine, rows: seq<TenantLedger>, ts: set<Tenant>, t: Tenant)
    requires RowsOf(e, rows, ts) && t !in ts && t in e.remaining
    ensures RowsOf(e, rows + [RowOf(e, t)], ts + {t})
  {
    var rows' := rows + [RowOf(e, t)];
    forall u | u in ts + {t}
      ensures exists i :: 0 <= i < |rows'| && rows'[i].tenant == u
    {
      if u == t {
        assert rows'[|rows|].tenant == t;
      } else {
        var i :| 0 <= i < |rows| && rows[i].tenant == u;
        assert rows'[i].tenant == u;
      }
    }
  }

  lemma SortedRows(e: Engine, rows: seq<TenantLedger>, out: seq<TenantLedger>, ts: set<Tenant>)
    requires RowsOf(e, rows, ts) && Ordered(out, RowBefore) && multiset(out) == multiset(rows)
    ensures RowsOf(e, out, ts) && Strictly(out, RowBefore)
  {
    hide Lex;
    RowsComparable(rows);
    SortedStrictly(rows, out, RowBefore);
    forall i, j | 0 <= i < j < |out|
      ensures out[i].tenant != out[j].tenant
    {
      LexTotal(out[i].tenant, out[i].tenant, CharBefore);
      assert RowBefore(out[i], out[j]);
    }
    forall i | 0 <= i < |out|
      ensures out[i] in rows
    {
      assert out[i] in multiset(out);
    }
    forall t | t in ts
      ensures exists i :: 0 <= i < |out| && out[i].tenant == t
    {
      var i :| 0 <= i < |rows| && rows[i].tenant == t;
      assert rows[i] in multiset(rows);
      var j :| 0 <= j < |out| && out[j] == rows[i];
    }
  }

  lemma RowsComparable(rows: seq<TenantLedger>)
    requires DistinctTenants(rows)
    ensures Comparable(rows, RowBefore)
  {
    hide Lex;
    forall i, j | 0 <= i < |rows| && 0 <= j < |rows| && i != j
      ensures RowBefore(rows[i], rows[j]) || RowBefore(rows[j], rows[i])
    {
      assert i < j ==> rows[i].tenant != rows[j].tenant;
      assert j < i ==> rows[j].tenant != rows[i].tenant;
      LexTotal(rows[i].tenant, rows[j].tenant, CharBefore);
    }
  }

  /** The rows of all tenants, collected in whatever order the map yields them. */
  method CollectRows(e: Engine) returns (rows: seq<TenantLedger>)
    ensures RowsOf(e, rows, e.remaining.Keys)
  {
    rows := [];
    var todo := e.remaining.Keys;
    assert RowsOf(e, rows, {});
    hide RowsOf;
    assert e.remaining.Keys - todo == {};
    while todo != {}
      invariant todo <= e.remaining.Keys && RowsOf(e, rows, e.remaining.Keys - todo)
      decreases |todo|
    {
      var t :| t in todo;
      RowsPush(e, rows, e.remaining.Keys - todo, t);
      assert e.remaining.Keys - todo + {t} == e.remaining.Keys - (todo - {t});
      rows := rows + [RowOf(e, t)];
      todo := todo - {t};
    }
    assert e.remaining.Keys - todo == e.remaining.Keys;
  }

  /** `try_snapshot`: every row in tenant order and a fence no earlier id reaches, or exhaustion. */
  method TrySnapshot(e: Engine) returns (r: Option<BudgetSnapshot>, e': Engine)
    ensures r.None? <==> e.next_id >= ALLOCATOR_MASK
    ensures r.None? ==> e' == e
    ensures r.Some? ==> Captured(e, r.value) && Fence(r.value.version) == e'.next_id
    ensures r.Some? ==> e' == e.(next_id := e.next_id + 1, snapshot_version := r.value.version)
  {
    hide RowsOf, Strictly, Ordered, Sorted, ByKey, RowBefore;
    var rows := CollectRows(e);
    RowsByTenant();
    var sorted := SortBy(rows, RowBefore);
    SortedRows(e, rows, sorted, e.remaining.Keys);
    if e.next_id >= ALLOCATOR_MASK {
      return None, e;
    }
    var version := RECOVERY_TAG + (e.next_id + 1);
    e' := e.(next_id := e.next_id + 1, snapshot_version := version);
    r := Some(BudgetSnapshot(version, sorted, |e.reservations|, None));
  }

  /** The order in which the tenants are visited does not show in the snapshot. */
  lemma CaptureUnique(e: Engine, a: BudgetSnapshot, b: BudgetSnapshot)
    requires Captured(e, a) && Captured(e, b)
    ensures a == b
  {
    forall r
      ensures r in a.tenants <==> r in b.tenants
    {
      CapturedRows(e, a, r);
      CapturedRows(e, b, r);
    }
    RowsByTenant();
    StrictUnique(a.tenants, b.tenants, RowBefore);
  }

  lemma CapturedRows(e: Engine, snap: BudgetSnapshot, r: TenantLedger)
    requires Captured(e, snap)
    ensures r in snap.tenants <==> r.tenant in e.remaining && r == RowOf(e, r.tenant)
  {
    if r.tenant in e.remaining && r == RowOf(e, r.tenant) {
      var i :| 0 <= i < |snap.tenants| && snap.tenants[i].tenant == r.tenant;
    }
  }

  // ----- Validation -----

  datatype Imbalance = Violation(tenant: Tenant, delta: int) | AggregateOverflow

  datatype RestoreError =
    | NotRecoveryAware(version: nat)
    | ActiveReservations(count: nat)
    | DuplicateTenant(tenant: Tenant)
    | GhostReservation(tenant: Tenant, reserved: int)
    | NegativeRemaining(tenant: Tenant, value: int)
    | NegativeInitial(tenant: Tenant, value: int)
    | NegativeCommitted(tenant: Tenant, value: int)
    | ConservationViolation(status: Imbalance)

  predicate IsI64(x: int) {
    I64_MIN <= x <= I64_MAX
  }

  /** The fields of a snapshot row are 64-bit signed integers. */
  predicate Representable(rows: seq<TenantLedger>) {
    forall i :: 0 <= i < |rows| ==>
      IsI64(rows[i].initial) && IsI64(rows[i].remaining) && IsI64(rows[i].reserved) && IsI64(rows[i].committed)
  }

  /** What is wrong with the balance of one row; the first two additions and the difference are checked. */
  function ImbalanceOf(r: TenantLedger): Option<Imbalance> {
    var sum := r.remaining + r.reserved + r.committed;
    if !IsI64(r.remaining + r.reserved) || !IsI64(sum) then Some(AggregateOverflow)
    else if sum != r.initial then
      if IsI64(sum - r.initial) then Some(Violation(r.tenant, sum - r.initial)) else Some(AggregateOverflow)
    else if r.remaining < 0 then Some(Violation(r.tenant, r.remaining))
    else None
  }

  /** What is wrong with row `i` on its own or against the rows before it. */
  function RowError(rows: seq<TenantLedger>, i: nat): Option<RestoreError>
    requires i < |rows|
  {
    var r := rows[i];
    if exists j :: 0 <= j < i && rows[j].tenant == r.tenant then Some(DuplicateTenant(r.tenant))
    else if r.reserved != 0 then Some(GhostReservation(r.tenant, r.reserved))
    else if r.remaining < 0 then Some(NegativeRemaining(r.tenant, r.remaining))
    else if r.initial < 0 then Some(NegativeInitial(r.tenant, r.initial))
    else if r.committed < 0 then Some(NegativeCommitted(r.tenant, r.committed))
    else None
  }

  /** Row `i` is the first with a fault. */
  predicate FirstError(rows: seq<TenantLedger>, i: int) {
    && 0 <= i < |rows| && RowError(rows, i).Some?
    && forall j :: 0 <= j < i ==> RowError(rows, j).None?
  }

  /** Row `i` is the first that does not balance. */
  predicate FirstImbalance(rows: seq<TenantLedger>, i: int) {
    0 <= i < |rows| && ImbalanceOf(rows[i]).Some? && forall j :: 0 <= j < i ==> ImbalanceOf(rows[j]).None?
  }

  /**
   * What is reported of a snapshot: its version before its reservations, those before the first faulty
   * row, and the first imbalance only when no row is faulty.
   */
  ghost predicate Reports(snap: BudgetSnapshot, e: RestoreError) {
    if snap.version <= RECOVERY_TAG then e == NotRecoveryAware(snap.version)
    else if snap.active_reservations > 0 then e == ActiveReservations(snap.active_reservations)
    else
      || (exists i :: FirstError(snap.tenants, i) && RowError(snap.tenants, i) == Some(e))
      || ((forall i :: 0 <= i < |snap.tenants| ==> RowError(snap.tenants, i).None?)
          && exists i :: FirstImbalance(snap.tenants, i) && e == ConservationViolation(ImbalanceOf(snap.tenants[i]).value))
  }

  /** `conservation_status_for_snapshot`: the imbalance of the first row that has one. */
  method ConservationStatus(rows: seq<TenantLedger>) returns (status: Option<Imbalance>)
    ensures status.None? <==> forall i :: 0 <= i < |rows| ==> ImbalanceOf(rows[i]).None?
    ensures status.Some? ==> exists i :: FirstImbalance(rows, i) && ImbalanceOf(rows[i]) == status
  {
    for i := 0 to |rows|
      invariant forall j :: 0 <= j < i ==> ImbalanceOf(rows[j]).None?
    {
      if ImbalanceOf(rows[i]).Some? {
        assert FirstImbalance(rows, i);
        return ImbalanceOf(rows[i]);
      }
    }
    return None;
  }

  /** `validate_snapshot_for_restore`: it passes exactly the restorable snapshots, and reports the first fault. */
  method Validate(snap: BudgetSnapshot) returns (r: Outcome<RestoreError>)
    requires snap.version <= U64_MAX && Representable(snap.tenants)
    ensures r.Pass? <==> Restorable(snap)
    ensures r.Fail? ==> Reports(snap, r.error)
  {
    hide RowError, ImbalanceOf, GoodRow;
    if snap.version / RECOVERY_TAG == 0 || snap.version % RECOVERY_TAG == 0 {
      return Fail(NotRecoveryAware(snap.version));
    }
    if snap.active_reservations > 0 {
      return Fail(ActiveReservations(snap.active_reservations));
    }
    var fault := CheckRows(snap.tenants);
    if fault.Some? {
      FaultyRows(snap.tenants);
      return Fail(fault.value);
    }
    var status := ConservationStatus(snap.tenants);
    RowsAreGood(snap.tenants);
    r := if status.None? then Pass else Fail(ConservationViolation(status.value));
  }

  /** The loop over the rows: the first fault a row has on its own or against the rows before it. */
  method CheckRows(rows: seq<TenantLedger>) returns (fault: Option<RestoreError>)
    ensures fault.None? <==> forall i :: 0 <= i < |rows| ==> RowError(rows, i).None?
    ensures fault.Some? ==> exists i :: FirstError(rows, i) && RowError(rows, i) == fault
  {
    var seen: set<Tenant> := {};
    for i := 0 to |rows|
      invariant forall t :: t in seen <==> exists j :: 0 <= j < i && rows[j].tenant == t
      invariant forall j :: 0 <= j < i ==> RowError(rows, j).None?
    {
      var r := rows[i];
      assert RowError(rows, i).Some? ==> FirstError(rows, i);
      if r.tenant in seen {
        return Some(DuplicateTenant(r.tenant));
      }
      seen := seen + {r.tenant};
      if r.reserved != 0 {
        return Some(GhostReservation(r.tenant, r.reserved));
      }
      if r.remaining < 0 {
        return Some(NegativeRemaining(r.tenant, r.remaining));
      }
      if r.initial < 0 {
        return Some(NegativeInitial(r.tenant, r.initial));
      }
      if r.committed < 0 {
        return Some(NegativeCommitted(r.tenant, r.committed));
      }
    }
    return None;
  }

  /** Distinct good rows have no fault. */
  lemma FaultyRows(rows: seq<TenantLedger>)
    ensures DistinctTenants(rows) && (forall i :: 0 <= i < |rows| ==> GoodRow(rows[i])) ==>
      forall i :: 0 <= i < |rows| ==> RowError(rows, i).None?
  {
  }

  /** Rows without a fault of their own are good exactly when they balance. */
  lemma RowsAreGood(rows: seq<TenantLedger>)
    requires Representable(rows) && forall i :: 0 <= i < |rows| ==> RowError(rows, i).None?
    ensures DistinctTenants(rows)
    ensures forall i :: 0 <= i < |rows| ==> (GoodRow(rows[i]) <==> ImbalanceOf(rows[i]).None?)
  {
    forall i, j | 0 <= i < j < |rows|
      ensures rows[i].tenant != rows[j].tenant
    {
      assert RowError(rows, j).None?;
    }
    forall i | 0 <= i < |rows|
      ensures GoodRow(rows[i]) <==> ImbalanceOf(rows[i]).None?
    {
      assert RowError(rows, i).None?;
    }
  }

  // ----- Restore -----

  /** `restore_from_snapshot`: the engine is rebuilt row by row, or left alone with the first fault. */
  method RestoreFromSnapshot(snap: BudgetSnapshot) returns (r: Result<Engine, RestoreError>)
    requires snap.version <= U64_MAX && Representable(snap.tenants)
    ensures r.Ok? <==> Restorable(snap)
    ensures r.Ok? ==> r.value == Restored(snap)
    ensures r.Err? ==> Reports(snap, r.error)
  {
    hide Reports;
    var valid := Validate(snap);
    if valid.Fail? {
      return Err(valid.error);
    }
    var e := Engine(map[], map[], map[], map[], map[], map[], Fence(snap.version), snap.version);
    for i := 0 to |snap.tenants|
      invariant e == Restored(snap.(tenants := snap.tenants[..i]))
    {
      var row := snap.tenants[i];
      assert snap.tenants[..i + 1][..i] == snap.tenants[..i];
      e := e.(remaining := e.remaining[row.tenant := row.remaining],
              initial := e.initial[row.tenant := row.initial],
              committed := e.committed[row.tenant := row.committed],
              totals := e.totals[row.tenant := row.reserved]);
    }
    assert snap.tenants[..|snap.tenants|] == snap.tenants;
    return Ok(e);
  }

  /** Every snapshot of an idle engine without open reservations can be restored. */
  lemma CapturedRestorable(s: State, snap: BudgetSnapshot)
    requires Inv(s) && s.ops == map[] && s.e.reservations == map[] && s.e.next_id < ALLOCATOR_MASK
    requires Captured(s.e, snap)
    ensures Restorable(snap)
  {
    forall i | 0 <= i < |snap.tenants|
      ensures GoodRow(snap.tenants[i])
    {
      assert Account(s, snap.tenants[i].tenant);
      IdleSums(s, snap.tenants[i].tenant);
    }
  }

  /** What snapshot and restore leave of an engine: its ledger, without caps, and a later allocator. */
  function Reopened(e: Engine): Engine {
    e.(limits := map[], reservations := map[], next_id := e.next_id + 1,
       snapshot_version := RECOVERY_TAG + (e.next_id + 1))
  }

  lemma LedgerReproduced(s: State, snap: BudgetSnapshot)
    requires SameTenants(s.e) && Captured(s.e, snap) && Restorable(snap)
    ensures Restored(snap) == Reopened(s.e) && Restored(snap).next_id == Fence(snap.version)
  {
    var e := Restored(snap);
    assert e.next_id == Fence(snap.version) == s.e.next_id + 1 && snap.version == RECOVERY_TAG + (s.e.next_id + 1);
    hide Captured, Restorable, Restored, RowOf, Fence, SameTenants;
    TenantsReproduced(s.e, snap);
    forall t | t in e.remaining
      ensures t in s.e.remaining && RowOf(e, t) == RowOf(s.e, t)
    {
      RowReproduced(s.e, snap, t);
    }
    SameLedger(e, s.e);
    RestoredBare(snap);
  }

  /** Engines with the same rows have the same four columns. */
  lemma SameLedger(a: Engine, b: Engine)
    requires SameTenants(a) && SameTenants(b) && a.remaining.Keys == b.remaining.Keys
    requires forall t :: t in a.remaining ==> t in b.remaining && RowOf(a, t) == RowOf(b, t)
    ensures a.remaining == b.remaining && a.initial == b.initial && a.committed == b.committed && a.totals == b.totals
  {
    hide RowOf;
    forall t | t in a.remaining
      ensures a.remaining[t] == b.remaining[t] && a.initial[t] == b.initial[t]
      ensures a.committed[t] == b.committed[t] && a.totals[t] == b.totals[t]
    {
      SameRow(a, b, t);
    }
  }

  lemma SameRow(a: Engine, b: Engine, t: Tenant)
    requires SameTenants(a) && SameTenants(b) && t in a.remaining && t in b.remaining && RowOf(a, t) == RowOf(b, t)
    ensures a.remaining[t] == b.remaining[t] && a.initial[t] == b.initial[t]
    ensures a.committed[t] == b.committed[t] && a.totals[t] == b.totals[t]
  {
  }

  lemma RestoredBare(snap: BudgetSnapshot)
    ensures Restored(snap).limits == map[] && Restored(snap).reservations == map[]
    ensures Restored(snap).snapshot_version == snap.version
  {
  }

  lemma TenantsReproduced(e: Engine, snap: BudgetSnapshot)
    requires Captured(e, snap)
    ensures SameTenants(Restored(snap)) && Restored(snap).remaining.Keys == e.remaining.Keys
  {
    hide Column;
    RestoredTenants(snap);
    forall t
      ensures t in Restored(snap).remaining <==> t in e.remaining
    {
    }
  }

  lemma RowReproduced(e: Engine, snap: BudgetSnapshot, t: Tenant)
    requires Captured(e, snap) && Restorable(snap) && t in Restored(snap).remaining
    ensures t in e.remaining && RowOf(Restored(snap), t) == RowOf(e, t)
  {
    hide Column;
    RestoredTenants(snap);
    var i :| 0 <= i < |snap.tenants| && snap.tenants[i].tenant == t;
    RestoredRow(snap, i);
  }

  /**
   * Restoring a snapshot of an idle engine without open reservations reproduces every balance, and
   * its allocator starts above every id issued before.
   */
  lemma RestoreReproduces(s: State, snap: BudgetSnapshot)
    requires Inv(s) && Ids(s) && s.ops == map[] && s.e.reservations == map[] && s.e.next_id < ALLOCATOR_MASK
    requires Captured(s.e, snap)
    ensures Restorable(snap) && Restored(snap) == Reopened(s.e)
    ensures forall id :: id in s.issued ==> id < Restored(snap).next_id
    ensures NeverReissues(s, snap)
  {
    hide Accounts, OpOk, RecordOk, Apart, Captured, Restorable, Restored, NeverReissues;
    CapturedRestorable(s, snap);
    LedgerReproduced(s, snap);
    RestoreSafety(s, snap);
  }

  // ----- A stale snapshot -----

  const OneTenant := Engine(map["" := 1], map["" := 1], map["" := 0], map["" := 0], map[], map[], 1, 0)

  const EarlySnapshot := BudgetSnapshot(RECOVERY_TAG + 2, [TenantLedger("", 1, 1, 0, 0)], 0, None)

  const AfterEarlySnapshot := State(OneTenant.(next_id := 2, snapshot_version := RECOVERY_TAG + 2), map[], [], [])

  lemma OneRow(e: Engine, snap: BudgetSnapshot, t: Tenant)
    requires e.remaining.Keys == {t} && snap.tenants == [RowOf(e, t)] && GoodRow(snap.tenants[0])
    requires e.reservations == map[] && snap.active_reservations == 0 && snap.wal_high_watermark == None
    requires snap.version == RECOVERY_TAG + (e.next_id + 1) <= U64_MAX
    ensures Captured(e, snap) && Restorable(snap)
  {
    assert snap.tenants[0].tenant == t;
  }

  lemma RowIs(e: Engine, a: int, b: int)
    requires e.remaining == map["" := a] && e.initial == map["" := a] && e.totals == map["" := b] && e.committed == map["" := b]
    ensures RowOf(e, "") == TenantLedger("", a, a, b, b)
  {
  }

  lemma EarlySnapshotCaptured()
    ensures Captured(OneTenant, EarlySnapshot) && Restorable(EarlySnapshot)
  {
    hide Captured, Restorable, RowOf, GoodRow;
    var e, snap := OneTenant, EarlySnapshot;
    assert e.remaining.Keys == {""};
    assert RowOf(e, "") == TenantLedger("", 1, 1, 0, 0) by {
      RowIs(e, 1, 0);
    }
    OneRow(e, snap, "");
  }

  lemma EarlySnapshotTaken()
    ensures Run(Initial, [EnsureTenant("", 1)]) == Some(State(OneTenant, map[], [], []))
    ensures Run(Initial, [EnsureTenant("", 1), TakeSnapshot]) == Some(AfterEarlySnapshot)
  {
    var s1 := State(OneTenant, map[], [], []);
    assert Next(Initial, EnsureTenant("", 1)) == Some(s1);
    assert Next(s1, TakeSnapshot) == Some(AfterEarlySnapshot);
    hide Next;
    RunStep(Initial, [EnsureTenant("", 1)]);
    RunStep(Initial, [EnsureTenant("", 1), TakeSnapshot]);
    RunStep(s1, [TakeSnapshot]);
    RunNothing(s1, [EnsureTenant("", 1)][1..]);
    RunNothing(AfterEarlySnapshot, [TakeSnapshot][1..]);
  }

  /**
   * The engine's own latest snapshot is not always safe to restore: here one reservation follows it,
   * and restoring it hands the same id out again.
   */
  lemma StaleSnapshotReissues()
    ensures Run(Initial, [EnsureTenant("", 1)]).Some? && Captured(Run(Initial, [EnsureTenant("", 1)]).value.e, EarlySnapshot)
    ensures Run(Initial, [EnsureTenant("", 1), TakeSnapshot] + OneReservation(1)).Some?
    ensures Restorable(EarlySnapshot)
    ensures !NeverReissues(Run(Initial, [EnsureTenant("", 1), TakeSnapshot] + OneReservation(1)).value, EarlySnapshot)
  {
    hide Next, Run, NeverReissues, Captured, Restorable, Inv, Ids;
    InitialOk();
    EarlySnapshotCaptured();
    EarlySnapshotTaken();
    var events := [EnsureTenant("", 1), TakeSnapshot];
    ReservedOnce(AfterEarlySnapshot, 1);
    var s := Run(AfterEarlySnapshot, OneReservation(1)).value;
    RunSplit(Initial, events, OneReservation(1));
    events := events + OneReservation(1);
    RunKeeps(Initial, events);
    NoRestoresGuarded(Initial, events);
    RunIds(Initial, events);
    RestoreSafety(s, EarlySnapshot);
    assert 2 in s.issued;
  }

}
