/**
 * Coordinated checkpoints: a snapshot file and a write-ahead-log anchor file named after their
 * generation, then the manifest that commits them, each replaced atomically. The process may stop
 * after any of these writes and start again from what the directory holds.
 */
module Checkpoints {
  import opened Wrappers
  import opened BudgetProtocol
  import opened BudgetConservation
  import opened BudgetRuns
  import opened BudgetIds
  import opened BudgetRecovery
  import opened Ledger
  import opened Wal

  const MANIFEST_SCHEMA := "calybris.checkpoint-manifest.v1"

  /** File names carry the snapshot version and the log sequence they were made for. */
  datatype FileName = SnapshotFile(version: nat, sequence: nat) | AnchorFile(version: nat, sequence: nat) | ManifestFile

  datatype Manifest = Manifest(
    schema_version: string, snapshot_file: FileName, wal_anchor_file: FileName, snapshot_version: nat,
    ledger_digest: string, wal_sequence: nat, wal_hash: string, wal_keyed: bool)

  datatype Content =
    | SnapshotContent(snapshot: BudgetSnapshot)
    | AnchorContent(anchor: Anchor)
    | ManifestContent(manifest: Manifest)

  type Files = map<FileName, Content>

  datatype Generation = Generation(manifest: Manifest, snapshot: BudgetSnapshot, anchor: Anchor)

  /** The ledger digest of a snapshot. */
  type Digest = BudgetSnapshot -> string

  datatype LoadError =
    | MissingManifest | UnknownManifestSchema | MissingSnapshot | MissingAnchor | SnapshotMismatch | NotRestorable
    | HeadMismatch

  function ManifestOf(d: Digest, snap: BudgetSnapshot, anchor: Anchor): Manifest {
    Manifest(MANIFEST_SCHEMA, SnapshotFile(snap.version, anchor.sequence), AnchorFile(snap.version, anchor.sequence),
             snap.version, d(snap), anchor.sequence, anchor.last_hash, anchor.keyed)
  }

  /** A snapshot with its watermark, the anchor it was taken under, and their manifest. */
  ghost predicate Proper(d: Digest, g: Generation) {
    && g.manifest == ManifestOf(d, g.snapshot, g.anchor) && Restorable(g.snapshot)
    && g.snapshot.wal_high_watermark == Some(g.anchor.sequence) && g.anchor.schema_version == ANCHOR_SCHEMA
  }

  /** `load_coordinated_checkpoint`. */
  function Load(d: Digest, files: Files): Result<Generation, LoadError> {
    if ManifestFile !in files || !files[ManifestFile].ManifestContent? then Err(MissingManifest)
    else
      var m := files[ManifestFile].manifest;
      if m.schema_version != MANIFEST_SCHEMA then Err(UnknownManifestSchema)
      else if m.snapshot_file !in files || !files[m.snapshot_file].SnapshotContent? then Err(MissingSnapshot)
      else if m.wal_anchor_file !in files || !files[m.wal_anchor_file].AnchorContent? then Err(MissingAnchor)
      else
        var snap, anchor := files[m.snapshot_file].snapshot, files[m.wal_anchor_file].anchor;
        if snap.version != m.snapshot_version || snap.wal_high_watermark != Some(m.wal_sequence)
           || d(snap) != m.ledger_digest then Err(SnapshotMismatch)
        else if !Restorable(snap) then Err(NotRestorable)
        else if anchor.schema_version != ANCHOR_SCHEMA || anchor.keyed != m.wal_keyed
             || anchor.sequence != m.wal_sequence || anchor.last_hash != m.wal_hash then Err(HeadMismatch)
        else Ok(Generation(m, snap, anchor))
  }

  /** Write number `k` of a checkpoint. */
  function WriteFile(files: Files, g: Generation, k: nat): Files {
    if k == 0 then files[g.manifest.snapshot_file := SnapshotContent(g.snapshot)]
    else if k == 1 then files[g.manifest.wal_anchor_file := AnchorContent(g.anchor)]
    else files[ManifestFile := ManifestContent(g.manifest)]
  }

  /** The directory after the first `k` writes of a checkpoint. */
  function AfterWrites(files: Files, g: Generation, k: nat): Files {
    if k == 0 then files else WriteFile(AfterWrites(files, g, k - 1), g, k - 1)
  }

  // ----- Runs with crashes -----

  datatype Phase = Resting | Writing(g: Generation, done: nat)

  /** The directory, the running engine, the checkpoint under way and the last one whose manifest was replaced. */
  datatype Store = Store(files: Files, s: State, phase: Phase, committed: Option<Generation>)

  const EmptyStore := Store(map[], Initial, Resting, None)

  datatype StoreEvent =
    /** The engine goes on, checkpoint or not; it may also be restored from any snapshot it accepts. */
    | Work(ev: Event)
    /** A checkpoint captures the engine next to a log head, and is refused unless it could be restored. */
    | Capture(g: Generation)
    | WriteNext
    /** A write fails: the checkpoint ends and the engine goes on. */
    | Abandon
    /** The process stops, and starts again from the directory. */
    | CrashAndRestart

  ghost function Step(d: Digest, st: Store, ev: StoreEvent): Option<Store> {
    match ev
    case Work(e) =>
      if Next(st.s, e).None? then None else Some(st.(s := Next(st.s, e).value))
    case Capture(g) =>
      if !st.phase.Resting? || Next(st.s, TakeSnapshot).None? || !Captured(st.s.e, g.snapshot.(wal_high_watermark := None))
         || g.snapshot.wal_high_watermark != Some(g.anchor.sequence) || g.anchor.schema_version != ANCHOR_SCHEMA
         || g.manifest != ManifestOf(d, g.snapshot, g.anchor) then None
      else Some(st.(s := Next(st.s, TakeSnapshot).value, phase := if Restorable(g.snapshot) then Writing(g, 0) else Resting))
    case WriteNext =>
      if st.phase.Resting? then None
      else
        var g, k := st.phase.g, st.phase.done;
        Some(Store(WriteFile(st.files, g, k), st.s, if k < 2 then Writing(g, k + 1) else Resting,
                   if k < 2 then st.committed else Some(g)))
    case Abandon =>
      if st.phase.Resting? then None else Some(st.(phase := Resting))
    case CrashAndRestart =>
      var found := Load(d, st.files);
      if found.Ok? then
        Some(st.(s := State(Restored(found.value.snapshot), map[], st.s.issued, st.s.settled), phase := Resting))
      else if found.error.MissingManifest? then Some(st.(s := Initial.(issued := st.s.issued, settled := st.s.settled), phase := Resting))
      else None
  }

  /**
   * A restore of the running engine does not go back behind the fence of the committed generation, nor
   * of one that is being written.
   */
  ghost predicate KeepsFence(st: Store, ev: StoreEvent) {
    ev.Work? && ev.ev.Restore? ==>
      && (st.committed.Some? ==> Fence(st.committed.value.snapshot.version) <= Fence(ev.ev.snap.version))
      && (st.phase.Writing? ==> Fence(st.phase.g.snapshot.version) <= Fence(ev.ev.snap.version))
  }

  ghost predicate AllKeepFence(d: Digest, st: Store, events: seq<StoreEvent>)
    decreases |events|
  {
    events != [] && Step(d, st, events[0]).Some? ==>
      KeepsFence(st, events[0]) && AllKeepFence(d, Step(d, st, events[0]).value, events[1..])
  }

  ghost function RunStore(d: Digest, st: Store, events: seq<StoreEvent>): Option<Store>
    decreases |events|
  {
    if events == [] then Some(st)
    else match Step(d, st, events[0])
      case None => None
      case Some(st') => RunStore(d, st', events[1..])
  }

  /** What the directory, the engine and the checkpoint under way always satisfy. */
  ghost predicate Safe(d: Digest, st: Store) {
    && (st.committed.None? ==> ManifestFile !in st.files)
    && (st.committed.Some? ==> LoadsBack(d, st.files, st.committed.value) && Fence(st.committed.value.snapshot.version) <= st.s.e.next_id)
    && (st.phase.Writing? ==>
          && Proper(d, st.phase.g) && st.phase.done <= 2
          && Fence(st.phase.g.snapshot.version) <= st.s.e.next_id
          && (st.committed.Some? ==> Fence(st.committed.value.snapshot.version) < Fence(st.phase.g.snapshot.version))
          && (0 < st.phase.done ==> Holds(st.files, st.phase.g.manifest.snapshot_file, SnapshotContent(st.phase.g.snapshot)))
          && (1 < st.phase.done ==> Holds(st.files, st.phase.g.manifest.wal_anchor_file, AnchorContent(st.phase.g.anchor))))
  }

  predicate Holds(files: Files, name: FileName, c: Content) {
    name in files && files[name] == c
  }

  /** The three files of a proper generation are in the directory. */
  ghost predicate LoadsBack(d: Digest, files: Files, g: Generation) {
    && Proper(d, g) && Holds(files, ManifestFile, ManifestContent(g.manifest))
    && Holds(files, g.manifest.snapshot_file, SnapshotContent(g.snapshot))
    && Holds(files, g.manifest.wal_anchor_file, AnchorContent(g.anchor))
  }

  lemma LoadReturns(d: Digest, files: Files, g: Generation)
    requires LoadsBack(d, files, g)
    ensures Load(d, files) == Ok(g)
  {
    hide Restorable;
  }

  /** No event but a restore lowers the allocator. */
  lemma AllocatorGrows(s: State, ev: Event)
    requires Next(s, ev).Some? && !ev.Restore?
    ensures s.e.next_id <= Next(s, ev).value.e.next_id
  {
    hide OpStep, FreeLocks, Admitted;
    if ev.Act? {
      OpIds(s.e, FreeLocks(s.ops), s.ops[ev.k], ev.spurious);
    }
  }

  lemma CaptureKeeps(d: Digest, st: Store, g: Generation)
    requires Safe(d, st) && Step(d, st, Capture(g)).Some?
    ensures Safe(d, Step(d, st, Capture(g)).value)
  {
    hide Restorable, LoadsBack, Captured;
    CapturedVersion(st.s.e, g.snapshot.(wal_high_watermark := None));
  }

  lemma CapturedVersion(e: Engine, snap: BudgetSnapshot)
    requires Captured(e, snap) && e.next_id < ALLOCATOR_MASK
    ensures Fence(snap.version) == e.next_id + 1
  {
  }

  /** A later generation is written under names of its own. */
  lemma WriteKeeps(d: Digest, st: Store)
    requires Safe(d, st) && st.phase.Writing?
    ensures Safe(d, Step(d, st, WriteNext).value)
  {
    hide Restorable;
  }

  lemma RestartKeeps(d: Digest, st: Store)
    requires Safe(d, st)
    ensures Step(d, st, CrashAndRestart).Some? && Safe(d, Step(d, st, CrashAndRestart).value)
  {
    hide Restorable, LoadsBack, Column;
    if st.committed.Some? {
      LoadReturns(d, st.files, st.committed.value);
    } else {
      assert Load(d, st.files) == Err(MissingManifest);
    }
  }

  lemma RestoredFence(s: State, ev: Event)
    requires ev.Restore? && Next(s, ev).Some?
    ensures Next(s, ev).value.e.next_id == Fence(ev.snap.version)
  {
  }

  lemma StepKeeps(d: Digest, st: Store, ev: StoreEvent)
    requires Safe(d, st) && Step(d, st, ev).Some? && KeepsFence(st, ev)
    ensures Safe(d, Step(d, st, ev).value)
  {
    hide Next, Restorable, LoadsBack, Captured, Load, WriteFile, Proper;
    match ev
    case Work(e) =>
      if e.Restore? {
        RestoredFence(st.s, e);
      } else {
        AllocatorGrows(st.s, e);
      }
    case Abandon =>
    case Capture(g) => CaptureKeeps(d, st, g);
    case WriteNext => WriteKeeps(d, st);
    case CrashAndRestart => RestartKeeps(d, st);
  }

  lemma {:induction false} RunKeepsSafe(d: Digest, st: Store, events: seq<StoreEvent>)
    requires Safe(d, st) && RunStore(d, st, events).Some? && AllKeepFence(d, st, events)
    ensures Safe(d, RunStore(d, st, events).value)
    decreases |events|
  {
    hide Safe, Step, KeepsFence;
    if events != [] {
      StepKeeps(d, st, events[0]);
      RunKeepsSafe(d, Step(d, st, events[0]).value, events[1..]);
    }
  }

  /**
   * Crash safety: wherever a run stops whose restores keep the fence, the directory loads as exactly
   * the last generation whose manifest was replaced, or as none if there was none; and the process can
   * always start again.
   */
  lemma CrashSafety(d: Digest, events: seq<StoreEvent>)
    requires RunStore(d, EmptyStore, events).Some? && AllKeepFence(d, EmptyStore, events)
    ensures var st := RunStore(d, EmptyStore, events).value;
      Loads(d, st) && Step(d, st, CrashAndRestart).Some?
  {
    hide Step, Loads;
    RunKeepsSafe(d, EmptyStore, events);
    var st := RunStore(d, EmptyStore, events).value;
    RestartKeeps(d, st);
    SafeLoads(d, st);
  }

  /** What loads is what was committed last. */
  ghost predicate Loads(d: Digest, st: Store) {
    Load(d, st.files) == if st.committed.Some? then Ok(st.committed.value) else Err(MissingManifest)
  }

  lemma SafeLoads(d: Digest, st: Store)
    requires Safe(d, st)
    ensures Loads(d, st)
  {
    hide Load, LoadsBack;
    if st.committed.Some? {
      LoadReturns(d, st.files, st.committed.value);
    } else {
      NoManifest(d, st.files);
    }
  }

  lemma NoManifest(d: Digest, files: Files)
    requires ManifestFile !in files
    ensures Load(d, files) == Err(MissingManifest)
  {
  }

  // ----- No mixed generation loads -----

  /** The digest of the ledger encoding under some hash. */
  function DigestOf(sha: Ledger.bytes -> string, utf8: Utf8): Digest {
    (snap: BudgetSnapshot) => sha(LedgerBytes(utf8, snap))
  }

  /**
   * Whatever files lie under a committed manifest, what loads is the committed anchor and the
   * committed ledger, up to the order of its rows.
   */
  lemma NoMixedGeneration(sha: Ledger.bytes -> string, utf8: Utf8, g: Generation, files: Files)
    requires Injective(utf8) && Proper(DigestOf(sha, utf8), g) && Persistable(g.snapshot)
    requires Holds(files, ManifestFile, ManifestContent(g.manifest)) && Load(DigestOf(sha, utf8), files).Ok?
    requires var x := Load(DigestOf(sha, utf8), files).value.snapshot;
      && Persistable(x) && Separate(utf8, x.tenants, g.snapshot.tenants)
      && (sha(LedgerBytes(utf8, x)) == sha(LedgerBytes(utf8, g.snapshot)) ==> LedgerBytes(utf8, x) == LedgerBytes(utf8, g.snapshot))
    ensures var found := Load(DigestOf(sha, utf8), files).value;
      && found.manifest == g.manifest && found.anchor == g.anchor
      && multiset(found.snapshot.tenants) == multiset(g.snapshot.tenants)
      && found.snapshot.(tenants := g.snapshot.tenants) == g.snapshot
  {
    hide Restorable, LedgerBytes, Persistable, Separate, Injective, Load, DigestOf;
    var d := DigestOf(sha, utf8);
    var found := Load(d, files).value;
    LoadChecks(d, files);
    DigestIs(sha, utf8, found.snapshot);
    DigestIs(sha, utf8, g.snapshot);
    EncodingInjective(utf8, found.snapshot, g.snapshot);
  }

  lemma DigestIs(sha: Ledger.bytes -> string, utf8: Utf8, snap: BudgetSnapshot)
    ensures DigestOf(sha, utf8)(snap) == sha(LedgerBytes(utf8, snap))
  {
  }

  /** What a successful load has checked against the manifest. */
  lemma LoadChecks(d: Digest, files: Files)
    requires Load(d, files).Ok?
    ensures var g := Load(d, files).value;
      && Holds(files, ManifestFile, ManifestContent(g.manifest)) && d(g.snapshot) == g.manifest.ledger_digest
      && g.snapshot.wal_high_watermark == Some(g.manifest.wal_sequence)
      && g.anchor == Anchor(ANCHOR_SCHEMA, g.manifest.wal_sequence, g.manifest.wal_hash, g.manifest.wal_keyed)
  {
    hide Restorable;
  }

  /** A generation loads exactly when the directory holds it and everything the manifest says of it is so. */
  lemma LoadExact(d: Digest, files: Files, g: Generation)
    ensures Load(d, files) == Ok(g) <==>
      var m := g.manifest;
      && Holds(files, ManifestFile, ManifestContent(m)) && m.schema_version == MANIFEST_SCHEMA
      && Holds(files, m.snapshot_file, SnapshotContent(g.snapshot)) && Holds(files, m.wal_anchor_file, AnchorContent(g.anchor))
      && m.snapshot_version == g.snapshot.version && m.ledger_digest == d(g.snapshot)
      && g.snapshot.wal_high_watermark == Some(m.wal_sequence) && Restorable(g.snapshot)
      && g.anchor == Anchor(ANCHOR_SCHEMA, m.wal_sequence, m.wal_hash, m.wal_keyed)
  {
    hide Restorable;
  }

  // ----- Taking a checkpoint -----

  class Directory {
    var files: Files

    constructor ()
      ensures files == map[]
    {
      files := map[];
    }
  }

  lemma CapturedRepresentable(e: Engine, snap: BudgetSnapshot)
    requires Inv(State(e, map[], [], [])) && Captured(e, snap) && e.next_id < ALLOCATOR_MASK
    ensures snap.version <= U64_MAX && Representable(snap.tenants)
  {
    var s := State(e, map[], [], []);
    forall i | 0 <= i < |snap.tenants|
      ensures IsI64(snap.tenants[i].initial) && IsI64(snap.tenants[i].remaining)
      ensures IsI64(snap.tenants[i].reserved) && IsI64(snap.tenants[i].committed)
    {
      var t := snap.tenants[i].tenant;
      assert Account(s, t);
      IdleSums(s, t);
      Signs(s, t);
    }
  }

  /**
   * `checkpoint_coordinated`, stopped after `limit` writes: nothing is written unless the snapshot
   * could be restored, and then exactly the first writes of its generation are.
   */
  method CheckpointCoordinated(d: Digest, e: Engine, anchor: Anchor, dir: Directory, limit: nat)
    returns (r: Option<Generation>, e': Engine)
    requires Inv(State(e, map[], [], [])) && anchor.schema_version == ANCHOR_SCHEMA
    modifies dir
    ensures r.None? ==> dir.files == old(dir.files)
    ensures r.Some? ==>
      && Proper(d, r.value) && r.value.anchor == anchor && Captured(e, r.value.snapshot.(wal_high_watermark := None))
      && dir.files == AfterWrites(old(dir.files), r.value, if limit < 3 then limit else 3)
    ensures r.None? <==> e.next_id >= ALLOCATOR_MASK || forall snap :: Captured(e, snap) ==> !Restorable(snap)
    ensures e' == if e.next_id >= ALLOCATOR_MASK then e
                  else e.(next_id := e.next_id + 1, snapshot_version := RECOVERY_TAG + (e.next_id + 1))
  {
    hide Inv, Captured, Restorable;
    var taken, e1 := TrySnapshot(e);
    e' := e1;
    if taken.None? {
      return None, e';
    }
    CapturedRepresentable(e, taken.value);
    var snap := taken.value.(wal_high_watermark := Some(anchor.sequence));
    var valid := Validate(snap);
    WatermarkIrrelevant(taken.value, Some(anchor.sequence));
    CapturedHeader(e, taken.value);
    if valid.Fail? {
      forall other | Captured(e, other)
        ensures !Restorable(other)
      {
        CaptureUnique(e, taken.value, other);
      }
      return None, e';
    }
    var g := Generation(ManifestOf(d, snap, anchor), snap, anchor);
    var k := 0;
    while k < limit && k < 3
      invariant 0 <= k <= 3 && k <= limit && dir.files == AfterWrites(old(dir.files), g, k)
    {
      dir.files := WriteFile(dir.files, g, k);
      k := k + 1;
    }
    r := Some(g);
  }

  lemma WatermarkIrrelevant(snap: BudgetSnapshot, w: Option<nat>)
    ensures Restorable(snap.(wal_high_watermark := w)) <==> Restorable(snap)
  {
  }

  lemma CapturedHeader(e: Engine, snap: BudgetSnapshot)
    requires Captured(e, snap)
    ensures snap.wal_high_watermark == None && snap.version == RECOVERY_TAG + (e.next_id + 1)
  {
  }

  /** Completing the three writes commits the generation; stopping earlier leaves an older one committed. */
  lemma WritesCommit(d: Digest, files: Files, g: Generation, k: nat)
    requires Proper(d, g) && k <= 3
    ensures k == 3 ==> Load(d, AfterWrites(files, g, k)) == Ok(g)
    ensures k < 3 ==> forall prior :: LoadsBack(d, files, prior) && prior.snapshot.version != g.snapshot.version ==>
      Load(d, AfterWrites(files, g, k)) == Ok(prior)
  {
    hide Restorable;
    assert AfterWrites(files, g, 0) == files;
    var f1 := AfterWrites(files, g, 1);
    var f2 := AfterWrites(files, g, 2);
    assert f1 == WriteFile(files, g, 0) && f2 == WriteFile(f1, g, 1);
    if k == 3 {
      assert AfterWrites(files, g, 3) == WriteFile(f2, g, 2);
      LoadReturns(d, AfterWrites(files, g, 3), g);
    } else {
      forall prior | LoadsBack(d, files, prior) && prior.snapshot.version != g.snapshot.version
        ensures Load(d, AfterWrites(files, g, k)) == Ok(prior)
      {
        LoadReturns(d, AfterWrites(files, g, k), prior);
      }
    }
  }
}
