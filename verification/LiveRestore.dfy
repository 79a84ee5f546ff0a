/** Restoring a running engine beside its checkpoints: exactly which snapshots put the committed one at risk. */
module LiveRestore {
  import opened Wrappers
  import opened Orders
  import opened BudgetProtocol
  import opened BudgetConservation
  import opened BudgetRuns
  import opened BudgetIds
  import opened BudgetRecovery
  import opened Ledger
  import opened Wal
  import opened Checkpoints

  // ----- Runs of the store -----

  lemma {:induction false} StoreSplit(d: Digest, st: Store, a: seq<StoreEvent>, b: seq<StoreEvent>)
    requires RunStore(d, st, a).Some?
    ensures RunStore(d, st, a + b) == RunStore(d, RunStore(d, st, a).value, b)
    decreases |a|
  {
    hide Step;
    if a == [] {
      assert a + b == b;
    } else {
      StoreSplit(d, Step(d, st, a[0]).value, a[1..], b);
      assert (a + b)[1..] == a[1..] + b;
    }
  }

  lemma StoreOne(d: Digest, st: Store, ev: StoreEvent)
    requires Step(d, st, ev).Some?
    ensures RunStore(d, st, [ev]) == Step(d, st, ev)
  {
    hide Step;
    assert [ev][1..] == [];
    assert RunStore(d, Step(d, st, ev).value, []) == Step(d, st, ev);
  }

  function Works(events: seq<Event>): (out: seq<StoreEvent>)
    ensures |out| == |events| && forall i :: 0 <= i < |out| ==> out[i] == Work(events[i])
  {
    if events == [] then [] else [Work(events[0])] + Works(events[1..])
  }

  /** The engine's own run, beside a directory that stays as it is. */
  lemma {:induction false} WorksRun(d: Digest, st: Store, events: seq<Event>)
    requires Run(st.s, events).Some?
    ensures RunStore(d, st, Works(events)) == Some(st.(s := Run(st.s, events).value))
    decreases |events|
  {
    hide Next;
    if events != [] {
      var st' := st.(s := Next(st.s, events[0]).value);
      assert Step(d, st, Work(events[0])) == Some(st');
      WorksRun(d, st', events[1..]);
      assert Works(events)[1..] == Works(events[1..]);
    }
  }

  /** No restore of the running engine. */
  predicate NoLiveRestores(events: seq<StoreEvent>) {
    forall i :: 0 <= i < |events| ==> !(events[i].Work? && events[i].ev.Restore?)
  }

  lemma {:induction false} NoLiveRestoresKeep(d: Digest, st: Store, events: seq<StoreEvent>)
    requires NoLiveRestores(events)
    ensures AllKeepFence(d, st, events)
    decreases |events|
  {
    hide Step;
    if events != [] && Step(d, st, events[0]).Some? {
      NoLiveRestoresKeep(d, Step(d, st, events[0]).value, events[1..]);
    }
  }

  // ----- A snapshot can always be taken -----

  lemma {:induction false} RowsExist(e: Engine, ts: set<Tenant>) returns (rows: seq<TenantLedger>)
    requires ts <= e.remaining.Keys
    ensures RowsOf(e, rows, ts)
    decreases |ts|
  {
    if ts == {} {
      rows := [];
    } else {
      var t :| t in ts;
      rows := RowsExist(e, ts - {t});
      RowsPush(e, rows, ts - {t}, t);
      rows := rows + [RowOf(e, t)];
      assert ts - {t} + {t} == ts;
    }
  }

  lemma CaptureExists(e: Engine) returns (snap: BudgetSnapshot)
    ensures Captured(e, snap)
  {
    hide RowsOf, Strictly, Ordered, Sorted, ByKey, RowBefore;
    var rows := RowsExist(e, e.remaining.Keys);
    RowsByTenant();
    SortedOrdered(rows, RowBefore);
    SortedRows(e, rows, Sorted(rows, RowBefore), e.remaining.Keys);
    snap := BudgetSnapshot(RECOVERY_TAG + (e.next_id + 1), Sorted(rows, RowBefore), |e.reservations|, None);
  }

  // ----- A fence below the committed one -----

  /** No other ledger has the digest of this one. */
  ghost predicate Unmatched(d: Digest, snap: BudgetSnapshot) {
    forall other :: d(other) == d(snap) ==> multiset(other.tenants) == multiset(snap.tenants)
  }

  /** A tenant that neither the engine nor the rows know. */
  lemma FreshTenant(known: set<Tenant>) returns (t: Tenant)
    ensures t !in known
  {
    t := LongerThan(known);
  }

  lemma {:induction false} LongerThan(known: set<Tenant>) returns (t: Tenant)
    ensures forall u :: u in known ==> |u| < |t|
    decreases |known|
  {
    if known == {} {
      t := "";
    } else {
      var u :| u in known;
      var v := LongerThan(known - {u});
      t := v + u + "x";
    }
  }

  /** An idle engine without reservations, one tenant more and the allocator just below a fence. */
  ghost predicate Climbed(s: State, t: Tenant, fence: nat) {
    && Inv(s) && s.ops == map[] && s.e.reservations == map[] && t in s.e.remaining && s.e.next_id + 1 == fence
  }

  /** A restored engine can be brought there whenever its fence is lower. */
  lemma Climb(s: State, snap: BudgetSnapshot, t: Tenant, fence: nat) returns (events: seq<Event>)
    requires s.ops == map[] && Restorable(snap) && Fence(snap.version) < fence <= ALLOCATOR_MASK
    ensures NoRestores(events) && Run(s.(e := Restored(snap)), events).Some?
    ensures Climbed(Run(s.(e := Restored(snap)), events).value, t, fence)
  {
    hide Run, Next, Inv, Restorable;
    var s0 := s.(e := Restored(snap));
    RestoreKeeps(s, snap);
    RestoredBare(snap);
    RestoredAt(snap);
    var s1 := s0.(e := Ensured(s0.e, t, 0));
    EnsureRuns(s0, t);
    NextKeeps(s0, EnsureTenant(t, 0));
    EnsuredBare(s0.e, t);
    var climb := Snapshots(s1, fence - 1 - s1.e.next_id);
    RunKeeps(s1, climb);
    RunStep(s0, [EnsureTenant(t, 0)]);
    RunNothing(s1, [EnsureTenant(t, 0)][1..]);
    RunSplit(s0, [EnsureTenant(t, 0)], climb);
    events := [EnsureTenant(t, 0)] + climb;
  }

  lemma RestoredAt(snap: BudgetSnapshot)
    ensures Restored(snap).next_id == Fence(snap.version)
  {
  }

  lemma EnsureRuns(s: State, t: Tenant)
    requires s.ops == map[]
    ensures Next(s, EnsureTenant(t, 0)) == Some(s.(e := Ensured(s.e, t, 0)))
  {
  }

  lemma EnsuredBare(e: Engine, t: Tenant)
    ensures var e' := Ensured(e, t, 0);
      e'.reservations == e.reservations && e'.next_id == e.next_id && t in e'.remaining
  {
  }

  /** The next generation of such an engine, under the name of the committed one. */
  lemma SameName(d: Digest, s: State, g: Generation, t: Tenant) returns (other: Generation)
    requires Proper(d, g) && Climbed(s, t, Fence(g.snapshot.version)) && s.e.next_id < ALLOCATOR_MASK
    ensures other.manifest == ManifestOf(d, other.snapshot, other.anchor) && other.anchor == g.anchor
    ensures other.snapshot.wal_high_watermark == Some(g.anchor.sequence) && Restorable(other.snapshot)
    ensures Captured(s.e, other.snapshot.(wal_high_watermark := None))
    ensures other.snapshot.version == g.snapshot.version
    ensures exists r :: r in other.snapshot.tenants && r.tenant == t
  {
    hide Inv, Restorable, RowsOf, Strictly;
    var snap := CaptureExists(s.e);
    CapturedRestorable(s, snap);
    WatermarkIrrelevant(snap, Some(g.anchor.sequence));
    CapturedRows(s.e, snap, RowOf(s.e, t));
    var marked := snap.(wal_high_watermark := Some(g.anchor.sequence));
    other := Generation(ManifestOf(d, marked, g.anchor), marked, g.anchor);
    VersionOfFence(g.snapshot);
    CapturedHeader(s.e, snap);
    assert RowOf(s.e, t) in marked.tenants && RowOf(s.e, t).tenant == t;
    assert snap == marked.(wal_high_watermark := None);
  }

  lemma VersionOfFence(snap: BudgetSnapshot)
    requires Restorable(snap)
    ensures snap.version == RECOVERY_TAG + Fence(snap.version) && 0 < Fence(snap.version) <= ALLOCATOR_MASK
  {
  }

  /** Its first write replaces the committed snapshot, and the directory no longer loads. */
  lemma Overwritten(d: Digest, st: Store, g: Generation, other: Generation)
    requires LoadsBack(d, st.files, g) && st.committed == Some(g) && Unmatched(d, g.snapshot)
    requires other.manifest == ManifestOf(d, other.snapshot, other.anchor) && other.anchor == g.anchor
    requires other.snapshot.version == g.snapshot.version
    requires other.snapshot.wal_high_watermark == Some(g.anchor.sequence)
    requires multiset(other.snapshot.tenants) != multiset(g.snapshot.tenants)
    ensures Load(d, WriteFile(st.files, other, 0)) == Err(SnapshotMismatch)
  {
    hide Restorable;
    assert d(other.snapshot) != d(g.snapshot);
  }

  /**
   * If the running engine is restored from a snapshot whose fence is below the committed one, it can
   * come to write another generation under the same names and stop after the first write.
   */
  lemma LowRestoreLoses(d: Digest, st: Store, snap: BudgetSnapshot) returns (events: seq<StoreEvent>)
    requires Safe(d, st) && st.phase.Resting? && st.committed.Some? && st.s.ops == map[] && Restorable(snap)
    requires Unmatched(d, st.committed.value.snapshot)
    requires Fence(snap.version) < Fence(st.committed.value.snapshot.version)
    ensures NoLiveRestores(events) && RunStore(d, st.(s := st.s.(e := Restored(snap))), events).Some?
    ensures var st' := RunStore(d, st.(s := st.s.(e := Restored(snap))), events).value;
      st'.committed == st.committed && Load(d, st'.files) == Err(SnapshotMismatch)
  {
    hide Restorable, Captured, Run, Next, LoadsBack, RunStore, Inv, Unmatched, Load, WriteFile;
    var g := st.committed.value;
    var st0 := st.(s := st.s.(e := Restored(snap)));
    ProperVersion(d, st.files, g);
    var t := FreshTenant(set r | r in g.snapshot.tenants :: r.tenant);
    var climb := Climb(st.s, snap, t, Fence(g.snapshot.version));
    WorksRun(d, st0, climb);
    var st1 := st0.(s := Run(st0.s, climb).value);
    var other := SameName(d, st1.s, g, t);
    TenantsDiffer(other.snapshot.tenants, g.snapshot.tenants, t);
    var st2 := CaptureStep(d, st1, other);
    StoreOne(d, st1, Capture(other));
    var st3 := st2.(files := WriteFile(st2.files, other, 0), phase := Writing(other, 1));
    assert Step(d, st2, WriteNext) == Some(st3);
    StoreOne(d, st2, WriteNext);
    StoreSplit(d, st0, Works(climb), [Capture(other)]);
    StoreSplit(d, st0, Works(climb) + [Capture(other)], [WriteNext]);
    Overwritten(d, st2, g, other);
    events := Works(climb) + [Capture(other)] + [WriteNext];
  }

  lemma ProperVersion(d: Digest, files: Files, g: Generation)
    requires LoadsBack(d, files, g)
    ensures Proper(d, g) && 0 < Fence(g.snapshot.version) <= ALLOCATOR_MASK
  {
    hide Restorable;
    VersionOfFence(g.snapshot);
  }

  lemma TenantsDiffer(a: seq<TenantLedger>, b: seq<TenantLedger>, t: Tenant)
    requires (exists r :: r in a && r.tenant == t) && t !in set r | r in b :: r.tenant
    ensures multiset(a) != multiset(b)
  {
    var r :| r in a && r.tenant == t;
    assert r in multiset(a) && r !in b;
  }

  lemma CaptureStep(d: Digest, st: Store, g: Generation) returns (st': Store)
    requires st.phase.Resting? && st.s.ops == map[] && st.s.e.next_id < ALLOCATOR_MASK
    requires Captured(st.s.e, g.snapshot.(wal_high_watermark := None)) && Restorable(g.snapshot)
    requires g.snapshot.wal_high_watermark == Some(g.anchor.sequence) && g.anchor.schema_version == ANCHOR_SCHEMA
    requires g.manifest == ManifestOf(d, g.snapshot, g.anchor)
    ensures Step(d, st, Capture(g)) == Some(st') && st' == st.(s := st'.s, phase := Writing(g, 0))
  {
    hide Captured, Restorable;
    st' := st.(s := Next(st.s, TakeSnapshot).value, phase := Writing(g, 0));
  }

  /** Wherever a run that restores nothing else stops, the last committed generation loads. */
  ghost predicate NeverLoses(d: Digest, st: Store) {
    forall events :: NoLiveRestores(events) && RunStore(d, st, events).Some? ==> Loads(d, RunStore(d, st, events).value)
  }

  /**
   * Restoring the running engine between checkpoints never costs the committed generation if and only
   * if the fence of the snapshot is not below that of the generation.
   */
  lemma RestoreKeepsCommitted(d: Digest, st: Store, snap: BudgetSnapshot)
    requires Safe(d, st) && st.phase.Resting? && st.committed.Some? && st.s.ops == map[] && Restorable(snap)
    requires Unmatched(d, st.committed.value.snapshot)
    ensures NeverLoses(d, st.(s := st.s.(e := Restored(snap))))
       <==> Fence(st.committed.value.snapshot.version) <= Fence(snap.version)
  {
    hide Restorable, RunStore, LoadsBack, Unmatched;
    var st' := st.(s := st.s.(e := Restored(snap)));
    if Fence(st.committed.value.snapshot.version) <= Fence(snap.version) {
      RestoredAt(snap);
      assert Safe(d, st');
      forall events | NoLiveRestores(events) && RunStore(d, st', events).Some?
        ensures Loads(d, RunStore(d, st', events).value)
      {
        NoLiveRestoresKeep(d, st', events);
        RunKeepsSafe(d, st', events);
        SafeLoads(d, RunStore(d, st', events).value);
      }
    } else {
      var events := LowRestoreLoses(d, st, snap);
      assert !Loads(d, RunStore(d, st', events).value);
    }
  }

  // ----- An instance -----

  const SomeAnchor := Anchor(ANCHOR_SCHEMA, 0, GENESIS, false)

  const LaterSnapshot := BudgetSnapshot(RECOVERY_TAG + 3, [TenantLedger("", 1, 1, 0, 0)], 0, Some(0))

  function LaterGeneration(d: Digest): Generation {
    Generation(ManifestOf(d, LaterSnapshot, SomeAnchor), LaterSnapshot, SomeAnchor)
  }

  /** One tenant, one snapshot, and then one complete checkpoint. */
  function OneCheckpoint(d: Digest): seq<StoreEvent> {
    Works([EnsureTenant("", 1), TakeSnapshot]) + [Capture(LaterGeneration(d)), WriteNext, WriteNext, WriteNext]
  }

  lemma PlainRow()
    ensures GoodRow(TenantLedger("", 1, 1, 0, 0))
  {
  }

  lemma LaterCaptured()
    ensures Captured(AfterEarlySnapshot.e, LaterSnapshot.(wal_high_watermark := None)) && Restorable(LaterSnapshot)
  {
    hide Captured, Restorable, RowOf, GoodRow;
    var e, snap := AfterEarlySnapshot.e, LaterSnapshot.(wal_high_watermark := None);
    assert e.remaining.Keys == {""};
    assert RowOf(e, "") == TenantLedger("", 1, 1, 0, 0) by {
      RowIs(e, 1, 0);
    }
    PlainRow();
    OneRow(e, snap, "");
    WatermarkIrrelevant(snap, Some(0));
    assert snap.(wal_high_watermark := Some(0)) == LaterSnapshot;
  }

  lemma OneCheckpointRuns(d: Digest)
    ensures RunStore(d, EmptyStore, OneCheckpoint(d)).Some?
    ensures var st := RunStore(d, EmptyStore, OneCheckpoint(d)).value;
      Safe(d, st) && st.phase.Resting? && st.committed == Some(LaterGeneration(d)) && st.s.ops == map[]
  {
    hide Captured, Restorable, Next, Run, RunStore, Safe, WriteFile;
    var g, first := LaterGeneration(d), [EnsureTenant("", 1), TakeSnapshot];
    EarlySnapshotTaken();
    WorksRun(d, EmptyStore, first);
    var st1 := EmptyStore.(s := AfterEarlySnapshot);
    LaterCaptured();
    var st2 := CaptureStep(d, st1, g);
    assert st2.s.ops == map[] by {
      SnapshotIdle(st1.s);
    }
    StoreOne(d, st1, Capture(g));
    var st3 := st2.(files := WriteFile(st2.files, g, 0), phase := Writing(g, 1));
    var st4 := st3.(files := WriteFile(st3.files, g, 1), phase := Writing(g, 2));
    var st5 := st4.(files := WriteFile(st4.files, g, 2), phase := Resting, committed := Some(g));
    assert Step(d, st2, WriteNext) == Some(st3) && Step(d, st3, WriteNext) == Some(st4) && Step(d, st4, WriteNext) == Some(st5);
    StoreOne(d, st2, WriteNext);
    StoreOne(d, st3, WriteNext);
    StoreOne(d, st4, WriteNext);
    var a := Works(first);
    StoreSplit(d, EmptyStore, a, [Capture(g)]);
    StoreSplit(d, EmptyStore, a + [Capture(g)], [WriteNext]);
    StoreSplit(d, EmptyStore, a + [Capture(g)] + [WriteNext], [WriteNext]);
    StoreSplit(d, EmptyStore, a + [Capture(g)] + [WriteNext] + [WriteNext], [WriteNext]);
    assert OneCheckpoint(d) == a + [Capture(g)] + [WriteNext] + [WriteNext] + [WriteNext];
    assert NoLiveRestores(OneCheckpoint(d));
    NoLiveRestoresKeep(d, EmptyStore, OneCheckpoint(d));
    assert Safe(d, EmptyStore) by {
      EmptyIsSafe(d);
    }
    RunKeepsSafe(d, EmptyStore, OneCheckpoint(d));
  }

  lemma SnapshotIdle(s: State)
    requires s.ops == map[] && Next(s, TakeSnapshot).Some?
    ensures Next(s, TakeSnapshot).value.ops == map[]
  {
  }

  lemma EmptyIsSafe(d: Digest)
    ensures Safe(d, EmptyStore)
  {
  }

  /** After it, restoring the engine's own first snapshot puts the committed generation at risk. */
  lemma StaleRestoreLoses(d: Digest)
    requires Unmatched(d, LaterSnapshot)
    ensures RunStore(d, EmptyStore, OneCheckpoint(d)).Some? && Restorable(EarlySnapshot)
    ensures var st := RunStore(d, EmptyStore, OneCheckpoint(d)).value;
      !NeverLoses(d, st.(s := st.s.(e := Restored(EarlySnapshot))))
  {
    hide RunStore, NeverLoses, Safe, Restorable, Captured, Unmatched;
    OneCheckpointRuns(d);
    EarlySnapshotCaptured();
    assert Fence(EarlySnapshot.version) == 2 && Fence(LaterSnapshot.version) == 3;
    RestoreKeepsCommitted(d, RunStore(d, EmptyStore, OneCheckpoint(d)).value, EarlySnapshot);
  }
}
