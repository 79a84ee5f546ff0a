# Calybris core, modelled and proved in Dafny

This project models the parts of the calybris-core crate that carry its guarantees and proves those
guarantees for every input, every run and every interleaving:

- **Merkle logs** (`Powers`, `Merkle`, `MerkleVerify`, `MerkleTree`, `StackRoot`): the recursive tree of
  sections 2.1.1 to 2.1.4 of RFC 9162, the two loop verifiers, the growing tree with its cache, and the
  two other implementations of the root and of all proofs. Hashes are a free datatype, so node hashing
  is collision-free by construction.
- **Auditing** (`CheckpointText`, `Notes`, `NoteViews`, `Quorum`, `Audit`): the canonical text of checkpoints
  and notes, the notes behind those texts, witnessed checkpoints, the auditor that follows one log, split
  views, revoked keys, and what a quorum buys.
- **Budgets** (`BudgetProtocol`, `BudgetConservation`, `BudgetRuns`, `BudgetProgress`, `BudgetIds`,
  `BudgetRecovery`, `Sums`): the engine as a state machine whose steps are single atomic operations and lock
  acquisitions of concurrent calls. Conservation, freedom from deadlock, caps and reservation ids are proved
  over all interleavings; capture, validation and restore of snapshots are proved beside it.
  `BudgetOutcomes` says what each call leaves behind when no other call moves between its steps.
- **Decisions** (`Kernel`, `KernelDecide`, `KernelPolicy`, `Counterfactual`, `Exploration`): gates, guarded
  64-bit pricing against unbounded integers, the single-pass ranking, exact boundaries of the
  counterfactual search, and exact exploration probabilities. `KernelMeaning` and `CounterfactualMeaning` say
  what the numbers and verdicts are, by inequalities, single bits and counts of models.
- **Durability** (`Wal`, `Ledger`, `Checkpoints`, `LiveRestore`): the hash-chained log and its writer, the
  ledger encoding, coordinated checkpoints under crashes, and restoring a running engine beside them.
- **Timestamps** (`OtsCodec`, `OtsTree`, `OtsParse`, `OtsReader`, `OtsShared`, `OtsUpgrade`, `OtsFiles`):
  OpenTimestamps proofs, their merging, their canonical bytes, and upgrading a proof file with a calendar's
  response. `OtsMeaning` says what operations make of a message and what a proof attests.
- **Known answers** (`KnownAnswers`): one tree, text, log, ledger and proof each, written out.

`Wrappers`, `Orders`, `Division` and `Texts` hold what several modules share. `dafny verify dfyconfig.toml` covers everything.

## Exact limits

Seven guarantees hold only under a condition. Each has an instance where it fails, and a condition that
can be checked beforehand, proved in both directions.

- *Restored engines do not reissue reservation ids.* A restored engine hands out again every id issued
  after its snapshot; only ids from before it are fenced off. `BudgetRecovery.StaleSnapshotReissues` is a
  run in which the engine's own latest snapshot does this. `BudgetIds.RestoreSafety` gives the condition:
  every id issued so far is below the snapshot's fence.
- *A standing cap is never exceeded.* A cap can be set below what is already reserved, and then it does
  not hold. `BudgetIds.LoweredCap` is a run of one reservation and one such cap. `BudgetIds.CapsHold` gives
  the condition: no event of the run sets a cap below what is reserved at that moment.
- *A writer's head is the validator's.* An append can report success and leave a file that the validator
  rejects. It may be glued to what follows the last newline: in `Wal.MissingNewline` a last entry without
  its newline, in `Wal.FormFeed` a form feed, which the validator skips and the JSON reader does not, in
  `Wal.LongBlank` white space that leaves no room for a line. Or its payload text holds a newline, as raw
  JSON may, and the entry is cut in two: `Wal.NewlineInPayload`. `Wal.Writer.Append`, `Wal.AppendInStep` and,
  over whole runs, `Wal.AppendAll` give the condition: nothing follows the last newline, or only white
  space without a form feed that leaves room for the line; no payload holds a newline; and the sequence
  stays below 2^64 - 1, the one number the writer accepts and the validator does not.
- *Recorded propensities are exact.* With a catalog that repeats an id the propensity can be too low.
  `Exploration.RepeatedIdUnderstated` is a catalog of three models whose record is off by half.
  `Exploration.RecordsAreExact` gives the condition for all draws of a request: the rate is zero, or no
  two models of the window share an id. `Exploration.NumeratorsSum` gives it for the sum over the window.
- *An upgraded proof file can be read.* Folding in a calendar's response can give a proof whose file the
  reader refuses. `OtsFiles.ResponseTooDeep` is a file of two levels and a response of 256;
  `OtsFiles.ResponseTooLarge` is a file and a response that are too large together.
  `OtsFiles.UpgradedFileReadable` gives the condition: the response, from the level of its commitment, stays
  within the depth limit, and the two sizes less what they share within the size limit.
- *A live restore keeps the committed checkpoint.* An engine restored from an older snapshot can reach the
  committed version again and overwrite the committed snapshot before it replaces the manifest.
  `LiveRestore.StaleRestoreLoses` is a run that leads there. `LiveRestore.RestoreKeepsCommitted` gives the
  condition: the fence of the restored snapshot is not below the committed one.
- *A ledger row can be told from any other.* The length field of an id is 32 bits wide.
  `Ledger.LongIdsCollide` gives two ledgers of distinct tenants with one encoding. `Ledger.RowsConfusable` gives
  the condition for two rows: neither is swallowed by the id of the other, which takes an id of more than
  2^32 bytes. `Ledger.EncodingInjective` holds whenever no two rows are.

## Model

| member | source | states |
|---|---|---|
| Powers.Split | src/merkle.rs:529-532 | The bit-trick split point is a power of two `k` with `k < n <= 2k`. |
| Powers.SplitUnique | src/merkle.rs:529-532 | It is the only power of two with that property, so it is the split RFC 9162 defines. |
| Merkle.PathLength | src/merkle.rs:143-165 | The recursive sibling path has one hash per turn of the loop verifier. |
| Merkle.PathClimbs | src/merkle.rs:143-165 | It climbs from the leaf to the root. |
| Merkle.ClimbDetermines | src/merkle.rs:143-165 | Whatever leaf and hashes climb to the root of `d` at index `m` are `d[m]` and exactly its path. |
| Merkle.PrefixRoot | src/merkle.rs:130-139 | The root of a prefix that reaches past the split keeps the left child and shortens the right one. |
| Merkle.SubProofFirst | src/merkle.rs:239-265 | The proof without the caller's flag is the proof with it, with the old root in front when the old size is a complete subtree. |
| Merkle.SubProofClimbs | src/merkle.rs:239-265 | The generated consistency hashes climb to both the old root and the new root. |
| Merkle.ClimbDeterminesSubProof | src/merkle.rs:239-265 | Hashes that climb to the new root are exactly the generated ones. |
| MerkleVerify.NextLevel | src/merkle.rs:195-235 | The index loop of both verifiers consumes exactly one turn of the path per hash, skipping the levels without a sibling. |
| MerkleVerify.VerifyInclusion | src/merkle.rs:195-235 | The loop verifier returns the verdict defined by climbing the whole path, errors included. |
| MerkleVerify.InclusionExact | src/merkle.rs:195-235 | Against the head of `d` it accepts exactly the leaf at that index with the generated proof, and nothing else. |
| MerkleVerify.InclusionRefused | src/merkle.rs:195-235 | What it refuses against the head of `d` is named: an index out of range, then a proof of another length than the generated one, then a wrong root. |
| MerkleVerify.VerifyConsistency | src/merkle.rs:268-328 | The loop verifier returns the verdict defined by climbing to both roots, errors included. |
| MerkleVerify.ConsistencyExact | src/merkle.rs:268-328 | Against the head of `d` it accepts exactly the head of a prefix of `d` with the generated proof. |
| MerkleVerify.ConsistencyRefused | src/merkle.rs:268-328 | What it refuses is named in the same way: impossible sizes, a proof of the wrong length, a wrong root. |
| MerkleVerify.OlderHeadUnique | src/merkle.rs:268-328 | Two older heads accepted against one head are equal or one is the head of a prefix of the other's leaves. |
| GrowingTree.LevelIsSubtree | src/merkle.rs:340-343 | Entry `i` of level `k` is the root of leaves `i*2^k` to `(i+1)*2^k`. |
| GrowingTree.SubtreeIsCached | src/merkle.rs:459-466 | Every complete aligned subtree is in the cache. |
| GrowingTree.MerkleTree.constructor | src/merkle.rs:397-399 | A new tree has no leaves. |
| GrowingTree.MerkleTree.Push | src/merkle.rs:412-427 | Pushing appends one leaf and keeps every level the pairing of the one below. |
| GrowingTree.MerkleTree.Subtree | src/merkle.rs:459-466 | The cached root of a range is the recursive root of those leaves. |
| GrowingTree.MerkleTree.Head | src/merkle.rs:441-454 | The head for every size is the recursive head of that prefix, and larger sizes are refused. |
| GrowingTree.MerkleTree.InclusionProofAt | src/merkle.rs:470-483 | The proof for every index and size is the recursive one of that prefix, with the same errors. |
| GrowingTree.MerkleTree.AppendPath | src/merkle.rs:485-497 | Appends exactly the recursive path of the range. |
| GrowingTree.MerkleTree.ConsistencyProofAt | src/merkle.rs:501-508 | The proof between any two sizes is the recursive one of that prefix, with the same errors. |
| GrowingTree.MerkleTree.AppendSubProof | src/merkle.rs:510-525 | Appends exactly the recursive consistency hashes of the range. |
| GrowingTree.AllInclusionProofs | src/merkle.rs:171-192 | The proofs built in one pass are the proofs built one at a time. |
| GrowingTree.RootAndProofs | src/merkle.rs:172-190 | The one-pass recursion returns the root and the path of every leaf. |
| StackRoot.StackRootOf | scripts/verify_bundle.py:166-181 | The stack of sized subtrees gives the recursive root of every leaf list. |
| StackRoot.Carry | scripts/verify_bundle.py:171-176 | Pushing a leaf keeps the stack a list of complete subtrees of falling sizes covering all leaves. |
| StackRoot.Collapse | scripts/verify_bundle.py:177-181 | Folding the stack from the top gives the root of everything it holds. |
| CheckpointText.Body | src/checkpoint.rs:163-175 | The body is one line each for origin, size and root, then the extensions. |
| CheckpointText.SizeCanonical | src/checkpoint.rs:203-209 | A size is read from its own digits and from nothing else. |
| CheckpointText.CheckpointCanonical | src/checkpoint.rs:163-231 | A text parses as a checkpoint exactly when the checkpoint is well-formed and the text is its body. |
| CheckpointText.LineCanonical | src/checkpoint.rs:247-277 | A line parses as a signature exactly when the signature is well-formed and the line is its own. |
| CheckpointText.CollectSignatures | src/checkpoint.rs:320-333 | The loop over the signature lines, with its limit, its first error and its duplicate keys. |
| CheckpointText.SignaturesCanonical | src/checkpoint.rs:320-333 | Lines parse as signatures exactly when they are the lines of few enough well-formed signatures of distinct keys. |
| CheckpointText.Render | src/checkpoint.rs:375-382 | A note is its text, an empty line and the signature lines. |
| CheckpointText.NoteCanonical | src/checkpoint.rs:291-382 | A text parses as a note exactly when the note is well-formed, the text is its rendering, and it fits the size limit. |
| CheckpointText.AddSignature | src/checkpoint.rs:358-371 | A second line of a key is refused, then a line beyond the limit; otherwise the line is added, and a well-formed note stays one exactly then. |
| NoteViews.ViewTextExact | src/checkpoint.rs:163-231 | The view of a text that the auditor works on is the view of no other text, so a signature over one is a signature over the other. |
| NoteViews.ViewNoteExact | src/checkpoint.rs:291-382 | Two note texts that parse have the same view exactly when they are the same text. |
| Notes.VerifiesExactly | src/checkpoint.rs:398-419 | A note verifies under a key exactly when the first line of that name and key hash is the signature of that key over this text; it reports a missing line or a bad signature otherwise. |
| Notes.CosignedExactly | src/checkpoint.rs:426-462 | A witness cosigned at a time exactly when its first line is its signature over that time and this text. |
| Notes.ExchangedText | src/checkpoint.rs:406-444 | With its text exchanged a note that verified, or that a witness cosigned, is refused as badly signed under the same key. |
| Notes.ExchangedKey | src/checkpoint.rs:406-444 | Lines signed by one key do not verify, and date nothing, under another key that answers to the same name and hash. |
| NoteViews.ThreeLines | src/checkpoint.rs:447-462 | The three lines a cosigned message needs are those of the text; every checkpoint body has them. |
| NoteViews.OnlySignatureOf | src/checkpoint.rs:398-403 | In a note that parses, the signature found for a key is on the only line of that key. |
| Quorum.NewPolicy | src/audit.rs:117-146 | A policy is accepted exactly when its threshold is positive and reachable and its witnesses are cosignature keys that differ; otherwise the first of these that fails is reported. |
| Quorum.QuorumMeaning | src/audit.rs:240-273 | A checkpoint passes exactly when the log signed it and at least the threshold of distinct policy witnesses validly signed it in time. |
| Quorum.CosignaturesAre | src/audit.rs:162-172 | The cosignatures of a note are those of the listed witnesses that signed its text, each with the time it signed. |
| Quorum.QuorumOfText | src/audit.rs:240-273 | A note accepted for one text is refused for its log signature with any other text, and no witness of the first counts for the second. |
| Quorum.WitnessesDiffer | src/audit.rs:117-146 | A policy is valid exactly when its threshold is within reach and its witnesses are cosigners of distinct keys and of distinct names and hashes. |
| Quorum.QuorumRefusal | src/audit.rs:240-273 | Short of the threshold, the earliest cosignature dated too late to count is reported, or the number that count if there is none. |
| Quorum.QuorumTimes | src/audit.rs:193-207 | For every time: `seen_by` is at most it exactly when a threshold of counted times are, and `fresh_as_of` is at least it exactly when a threshold are. |
| Quorum.Pigeonhole | src/audit.rs:117-146 | Two sets of witnesses that together outnumber the policy share one. |
| Quorum.QuorumsMeet | src/audit.rs:240-273 | When twice the threshold exceeds the witnesses, two passing checkpoints share a validly signing witness. |
| Audit.RootInjective | src/merkle.rs:130-139 | A leaf list is determined by its size and root. |
| Audit.SizesGrow | src/audit.rs:573-594 | In every run of accepted heads sizes never shrink. |
| Audit.RunIsPrefixes | src/audit.rs:573-594 | If a head of a run is the head of `d`, every earlier non-empty head is the head of a prefix of `d`. |
| Audit.RecordsStay | src/audit.rs:634-647 | Every record accepted against any head of the run is that record of the newest leaf list. |
| Audit.SplitViewIsProof | src/audit.rs:286-295 | Evidence that verifies cannot come from one history: no leaf list has both heads as prefixes. |
| Audit.SplitViewExact | src/audit.rs:286-295 | Evidence verifies exactly when both notes do and they are checkpoints of one origin and size with different roots. |
| Audit.Auditor.constructor | src/audit.rs:523-548 | A new auditor has accepted nothing. |
| Audit.Auditor.Check | src/audit.rs:555-569 | What passes is exactly a quorum's checkpoint of this origin that a threshold of counted witnesses signed within the allowed age; otherwise the first check that fails is reported. |
| Audit.SkewAllowed | src/audit.rs:555-569 | A cosignature counts exactly when it is dated no more than the allowed skew ahead of the clock, and the sum saturates. |
| Audit.Auditor.Advance | src/audit.rs:573-594 | A head is accepted exactly when it passes and extends the last one; a smaller one is reported as shrinking, any other as inconsistent, and the accepted heads stay a run. |
| Audit.Auditor.Compare | src/audit.rs:602-630 | The verdict or objection for every note: a fork comes with evidence that verifies, agreement means the two heads extend one another, and an honest log is never accused. |
| Audit.Auditor.VerifyRecord | src/audit.rs:634-647 | A record is accepted exactly when it is proven in the newest head; otherwise the Merkle error is reported. |
| Audit.RunGrows | src/audit.rs:573-594 | Extending the newest head keeps the heads a run. |
| Audit.ComparedHeads | src/audit.rs:602-630 | Agreement between a smaller and a larger head puts them in one history, and heads of one history agree when given its proof. |
| Audit.QuorumSafety | src/audit.rs:240-273 | If witnesses that signed both checkpoints follow one history each, two passing heads are prefixes of one another. |
| Audit.RunOrders | src/audit.rs:573-594 | The leaf lists behind the heads of a run are ordered by prefix. |
| Audit.EarliestEvidence | src/audit.rs:406-425 | The earliest qualifying evidence predates a moment exactly when some piece of evidence does. |
| Audit.AcceptsExactly | src/audit.rs:429-495 | A revoked key's signature is accepted exactly when some evidence dates it before the revocation (and the limit). |
| Audit.EarliestAre | src/audit.rs:406-425 | The earliest clock time and the lowest block height among the evidence that covers the signature, and nothing exactly when there is no such evidence. |
| Audit.RefusedBecause | src/audit.rs:462-495 | Why a revoked key is refused: no evidence, none of the signature, a clock at or after the revocation, a block above the limit, or a block with no limit to hold it against. |
| BudgetConservation.NoWrap | src/budget.rs:878-1124 | No fetch-and-add or fetch-and-sub a call in flight may still make can wrap. |
| BudgetConservation.ReserveOk | src/budget.rs:878-989 | Every atomic step of `try_reserve` keeps its locals true and disturbs nothing another call relies on. |
| BudgetConservation.CommitOk | src/budget.rs:1000-1081 | The same for `commit`, its retries and its failure path. |
| BudgetConservation.ReleaseOk | src/budget.rs:1084-1124 | The same for `release`. |
| BudgetConservation.RemoveOk | src/budget.rs:1000-1124 | The same for removing the record under its lock. |
| BudgetConservation.TopUpOk | src/budget.rs:691-738 | The same for `top_up_tenant`. |
| BudgetConservation.StepShape | src/budget.rs:878-1124 | Calls in flight own different ids and never hold the same lock, whatever step is taken. |
| BudgetRuns.ReserveBooks | src/budget.rs:878-989 | Every step of `try_reserve` conserves each tenant's money and keeps its holds matched, its undo included. |
| BudgetRuns.CommitBooks | src/budget.rs:1000-1081 | The same for `commit`, overruns and refunds included. |
| BudgetOutcomes.CallMeans | src/budget.rs:643-1124 | A call that no other call interrupts, begun in any reachable state and however often its compare-and-swaps fail for no reason, leaves exactly what it is for: a reservation within cap and balance moves its cost from the balance to the reserved total under one new id; a commit that fits removes the record and its hold and books the actual cost; a release gives the hold back; a top-up raises balance and initial amount; and a refusal changes nothing, or spends one id. |
| BudgetOutcomes.CallReturns | src/budget.rs:643-1124 | On an idle engine every call has such a run to its end. |
| BudgetOutcomes.AloneLeaves | src/budget.rs:643-1124 | From any stage of a call, the steps still to come leave what that stage announces. |
| BudgetOutcomes.ReserveTowards | src/budget.rs:878-989 | Each step of a reservation keeps what the call will have done. |
| BudgetOutcomes.CommitTowards | src/budget.rs:1000-1081 | Each step of a commit does. |
| BudgetOutcomes.ReleaseTowards | src/budget.rs:1084-1124 | Each step of a release does. |
| BudgetOutcomes.TopUpTowards | src/budget.rs:691-738 | Each step of a top-up does. |
| BudgetOutcomes.ReserveMeans | src/budget.rs:878-989 | A reservation as a whole: refused for an unknown tenant, a cap, an overflow or a spent allocator without a trace, refused for its balance with one id spent, or made. |
| BudgetOutcomes.CommitMeans | src/budget.rs:1000-1081 | A commit as a whole: it happens exactly when the id is held, the committed amount does not overflow and the balance covers what was not set aside. |
| BudgetOutcomes.ReleaseMeans | src/budget.rs:1084-1124 | A release as a whole: it happens exactly when the id is held. |
| BudgetOutcomes.TopUpMeans | src/budget.rs:691-738 | A top-up as a whole: it happens exactly when the tenant is known and neither amount overflows. |
| BudgetRuns.ReleaseBooks | src/budget.rs:1084-1124 | The same for `release`. |
| BudgetRuns.RemoveBooks | src/budget.rs:1000-1124 | The same for removing the record. |
| BudgetRuns.TopUpBooks | src/budget.rs:691-738 | The same for `top_up_tenant`. |
| BudgetRuns.StepAccount | src/budget.rs:878-1124 | A conserving step keeps the account of every tenant of the whole concurrent state. |
| BudgetRuns.ActKeeps | src/budget.rs:105-162 | Any step of any call in flight keeps the whole invariant. |
| BudgetRuns.EnsureKeeps | src/budget.rs:643-685 | Creating a tenant keeps it, with other calls in flight. |
| BudgetRuns.CreateKeeps | src/budget.rs:658-684 | So does the step of a call that creates one under all its locks, taken one by one. |
| BudgetRuns.CapKeeps | src/budget.rs:463-489 | Changing a cap keeps it. |
| BudgetRuns.SnapshotKeeps | src/budget.rs:796-852 | Taking a snapshot keeps it. |
| BudgetRuns.RestoredRow | src/budget.rs:591-600 | Every row of a restorable snapshot is the account it restores. |
| BudgetRuns.RestoreKeeps | src/budget.rs:548-608 | Restoring establishes it. |
| BudgetRuns.NextKeeps | src/budget.rs:437-1124 | Every event keeps it. |
| BudgetRuns.RunConserves | src/budget.rs:878-1124 | In every interleaving no balance or total is negative or out of range, and whenever no call is in flight remaining + reserved + committed equals initial and reserved is the sum of the open records. |
| BudgetProgress.RunNeverWraps | src/budget.rs:878-1124 | In every interleaving, whatever a call in flight adds back to a balance or takes off a total is exact. |
| BudgetProgress.SomeoneLeads | src/budget.rs:643-685 | The locks are taken in one order, those that `try_ensure_tenant` holds while it waits for the next included, so some call in flight finds all it may still need. |
| BudgetProgress.LeaderFinishes | src/budget.rs:878-1124 | A call to which the others leave the locks it may still need can run to its end in a bounded number of steps, retries included, while the others stay where they are. |
| BudgetProgress.NeverStuck | src/budget.rs:643-1124 | In every reachable state with calls in flight some call can take its next step: there is no deadlock, tenants being created included. |
| BudgetProgress.RunCompletes | src/budget.rs:878-1124 | From every reachable state the calls in flight can be completed in at most twelve steps each, and then every tenant's money adds up. |
| BudgetIds.OpCap | src/budget.rs:143-162 | A step raises the reserved total of a capped tenant only up to its cap. |
| BudgetIds.NextCap | src/budget.rs:463-489 | A cap that holds is broken by setting a cap below what is reserved, and by nothing else. |
| BudgetIds.CapsHold | src/budget.rs:143-162 | A run stays within a tenant's caps in all its states exactly when no cap is set below what is already reserved. |
| BudgetIds.LoweredCap | src/budget.rs:463-489 | A concrete run: a cap of 1 set with 2 reserved is accepted and does not hold. |
| BudgetIds.OpIds | src/budget.rs:944-959 | A step issues at most the allocator's id, records only an id it owns, and settles only an id it owns. |
| BudgetIds.SettledIsDead | src/budget.rs:1000-1124 | A settled id has no record and no call that owns it. |
| BudgetIds.NextIds | src/budget.rs:944-959 | Ids keep growing below the allocator and are settled at most once. |
| BudgetIds.IdsOnce | src/budget.rs:944-959 | Over every run whose restores are guarded, ids are issued in increasing order and settled at most once. |
| BudgetIds.FenceTooLow | src/budget.rs:548-608 | Below an issued id, a fence leads to that id being issued again. |
| BudgetIds.RestoreSafety | src/budget.rs:548-608 | A restore never leads to a reissued id exactly when the fence is above every id issued so far. |
| BudgetRecovery.CollectRows | src/budget.rs:819-831 | Every tenant's row is collected once, in whatever order the map yields them. |
| BudgetRecovery.TrySnapshot | src/budget.rs:796-852 | All rows in tenant order, fenced by the next allocator position, or exhaustion with nothing changed. |
| BudgetRecovery.CaptureUnique | src/budget.rs:819-832 | The order in which tenants are visited does not show. |
| BudgetRecovery.ConservationStatus | src/budget.rs:226-252 | Balanced exactly when every row is; otherwise the imbalance of the first row that has one. |
| BudgetRecovery.Validate | src/budget.rs:349-411 | It passes exactly the restorable snapshots, and reports the version, the open reservations, the first faulty row or the first imbalance, in this order. |
| BudgetRecovery.RestoreFromSnapshot | src/budget.rs:548-608 | It succeeds exactly on restorable snapshots and rebuilds every ledger from the rows; otherwise it reports what validation does. |
| BudgetRecovery.CapturedRestorable | src/budget.rs:796-852 | Every snapshot of an idle engine without open reservations passes validation. |
| BudgetRecovery.RestoreReproduces | src/budget.rs:548-608 | Restoring it reproduces every balance, and its allocator starts above every earlier id. |
| BudgetRecovery.StaleSnapshotReissues | src/budget.rs:548-608 | A concrete run: restoring the engine's latest snapshot after one more reservation reissues its id. |
| Kernel.FirstGateExact | src/kernel.rs:422-452 | A gate is reported exactly when it fails and no gate before it in the stated order does; none exactly when none fails. |
| Kernel.ChargeIsCeiling | src/kernel.rs:1213-1223 | A charge is the exact price rounded up to the next microunit. |
| Kernel.CostFits | src/kernel.rs:1157-1211 | When the guard on the maximal prices passes, the wrapping cost of every model is its exact cost. |
| Kernel.QualityFits | src/kernel.rs:490-540 | The same for the quality term. |
| Kernel.LatencyFits | src/kernel.rs:541-545 | The same for the latency term. |
| Kernel.GuardsSuffice | src/kernel.rs:490-558 | For every model of the catalog the guarded 64-bit verdict is the verdict over unbounded integers. |
| KernelDecide.BetterIsLexicographic | src/kernel.rs:1244-1254 | One candidate is better exactly when its key (utility down, cost up, quality down, id up) comes first lexicographically. |
| KernelDecide.BestIsBest | src/kernel.rs:1244-1254 | The reference ranking picks the maximum, the earlier entry on a complete tie, and none exactly if none is eligible. |
| KernelDecide.RankStep | src/kernel.rs:1101-1113 | One step of keeping the best two agrees with ranking the longer prefix from scratch. |
| KernelDecide.Rank | src/kernel.rs:1101-1113 | After the update best and second are the reference ranking's best two of one model more. |
| KernelDecide.Scan | src/kernel.rs:1067-1114 | After the loop best, second, eligible count and histogram are those of the whole catalog, saturated or wrapped in 16 bits. |
| KernelDecide.Prescribe | src/kernel.rs:1059-1154 | The decision is the reference decision over unbounded integers, field by field, for every catalog of any size. |
| KernelMeaning.CapabilityBit | src/kernel.rs:422-452 | One required capability lacks exactly when its bit is off. |
| KernelMeaning.CapabilityBits | src/kernel.rs:422-452 | Several lack exactly when one of them does; nothing lacks when nothing is required. |
| KernelMeaning.ProviderBit | src/kernel.rs:422-452 | A provider is excluded exactly when the bit of its number is off, and the full mask excludes none. |
| KernelMeaning.RegionBit | src/kernel.rs:422-452 | A model is outside one region exactly when it lacks its bit. |
| KernelMeaning.RegionBits | src/kernel.rs:422-452 | It is outside several exactly when it is outside each; asking for none excludes no model. |
| KernelMeaning.VerdictMeans | src/kernel.rs:490-558 | With each of the four terms the only integer between its two bounds, a model past the gates is over budget exactly when its price is, and its utility is quality less risk, price and latency, brought into 64 bits; it is eligible exactly when that is positive. |
| KernelMeaning.DecisionWeighs | src/kernel.rs:1059-1154 | The cost and the utility of a decision that selects a model are those numbers of that model. |
| KernelMeaning.DecisionEchoes | src/kernel.rs:1127-1197 | A decision repeats the request number and both epochs, a rejection names no model and no amount, and the reason names the requested model exactly when it is the one selected. |
| KernelMeaning.HardLimits | src/kernel.rs:1059-1066 | A request is refused before any model is looked at exactly when its risk reaches the hard limit, or its confidence is below the minimum, and for its risk first. |
| KernelMeaning.DecisionCounts | src/kernel.rs:1059-1154 | The counts of a decision are the number of models and the number of those ranked. |
| KernelMeaning.HistogramMeans | src/kernel.rs:646-661 | Each rejection counter is the number of models whose first failing gate is its own, or that pass all gates and cost too much; the last counts the rest. |
| KernelMeaning.DominantMeans | src/kernel.rs:1256-1273 | The reported cause is the most frequent one and, of several, the one of highest precedence. |
| KernelDecide.LastMax | src/kernel.rs:1256-1273 | The dominant cause has the highest count. |
| KernelDecide.LastMaxIsLast | src/kernel.rs:1256-1273 | Every cause listed after it has a lower count, so the last one wins a tie. |
| KernelDecide.CountsCover | src/kernel.rs:646-661 | Up to 65,535 models, histogram and eligible count add up to the models looked at. |
| KernelPolicy.SelectsMaximum | src/kernel.rs:1059-1154 | With distinct ids the selected model beats every other eligible one, the counterfactual beats all the rest, and the reported cost and utility are theirs. |
| KernelPolicy.RefusesWhenNoneIsEligible | src/kernel.rs:1115-1126 | Without an eligible model the request is refused for a cause whose counter no other exceeds, and, up to 65,535 models, that no other outnumbers. |
| KernelPolicy.NothingUncounted | src/kernel.rs:882-890 | Up to 65,535 models, rejections plus eligible equal the catalog size. |
| KernelPolicy.Explain | src/kernel.rs:902-959 | Every candidate's verdict is the one that was counted or ranked, with the two numbers behind it; none when the request is refused outright. |
| KernelPolicy.ComparedShowsWhy | src/kernel.rs:622-644 | The two numbers reported for a rejected candidate show by themselves that its gate, or the budget, fails it. |
| KernelPolicy.UtilityForModel | src/kernel.rs:1000-1057 | A utility is returned exactly for a model that is ranked, and it is the ranking utility. |
| KernelPolicy.MaxOf | src/kernel.rs:684-703 | The stored maxima are attained upper bounds. |
| KernelPolicy.NewUnchecked | src/kernel.rs:675-717 | Every model of the catalog is within the maxima the guards read. |
| KernelPolicy.Validate | src/kernel.rs:725-786 | It passes exactly catalogs in range with distinct ids and something enabled; otherwise it reports the settings, the first faulty model, or that nothing is enabled, in this order. |
| KernelPolicy.TryNewTrusted | src/kernel.rs:826-862 | It accepts exactly the trusted catalogs and keeps the same models in order of id; otherwise it reports the first fault in the stated order, that of the sorted catalog last. |
| KernelPolicy.OrderIrrelevant | src/kernel.rs:826-862 | Permuting the models given gives the same policy. |
| KernelPolicy.TrustIgnoresOrder | src/kernel.rs:826-862 | Permuting the models does not change whether they are accepted. |
| Counterfactuals.JudgeMonotone | src/kernel.rs:422-452 | Improving a candidate keeps it eligible, with no lower utility and no higher cost. |
| Counterfactuals.Monotone | src/counterfactual.rs:15-18 | Improving a candidate never costs its id the selection, even when ids repeat. |
| Counterfactuals.SettingsImprove | src/counterfactual.rs:296-312 | Each lever moved in its favourable direction is an improvement, price scaling with its rounding and saturation included. |
| CounterfactualMeaning.ScaledPriceMeans | src/counterfactual.rs:296-312 | A price at a scale is the only integer `p` with `p * 1000000 <= price * scale < (p + 1) * 1000000`, and the largest 64-bit one beyond that. |
| Counterfactuals.Wins | src/counterfactual.rs:269-294 | What the search probes, the guarded kernel on a policy built from the changed catalog, is the reference decision on that catalog. |
| Counterfactuals.LowestTrue | src/counterfactual.rs:345-359 | Returns a winning value with a losing one just below it, and nothing exactly when the top of the range loses. |
| Counterfactuals.HighestTrue | src/counterfactual.rs:363-377 | Returns a winning value with a losing one just above it, and nothing exactly when the bottom of the range loses. |
| Counterfactuals.WinsMonotone | src/counterfactual.rs:269-312 | A lever's winning values are closed under its favourable direction. |
| Counterfactuals.FindBoundary | src/counterfactual.rs:345-377 | All values on one side of the boundary win and none on the other do; no result means none wins. |
| Counterfactuals.WinLever | src/counterfactual.rs:147-183 | A lever is reported with its exact boundary, and left out exactly when no value in its range wins. |
| Counterfactuals.WhatWouldWin | src/counterfactual.rs:106-185 | The whole answer: unknown id, blocked request, already selected, switched off, or exact boundaries in order. |
| CounterfactualMeaning.WinReported | src/counterfactual.rs:106-185 | A lever in the answer wins, within its range, exactly from its boundary on, whatever model has that one value changed. |
| CounterfactualMeaning.WinOmitted | src/counterfactual.rs:106-185 | A lever missing from the answer wins nowhere in its range. |
| CounterfactualMeaning.MarginReported | src/counterfactual.rs:191-267 | A lever in the margin keeps the selection, within its range, exactly up to its boundary. |
| CounterfactualMeaning.MarginOmitted | src/counterfactual.rs:191-267 | A lever missing from the margin keeps it throughout its range. |
| CounterfactualMeaning.BoundaryCost | src/counterfactual.rs:323-342 | The cost quoted with a price boundary is the cost of the tokens at both scaled prices, each rounded up. |
| CounterfactualMeaning.OnlyPricesCost | src/counterfactual.rs:314-342 | No other lever quotes a cost. |
| Counterfactuals.SwitchedOff | src/counterfactual.rs:134-145 | For a switched-off candidate no other lever can win. |
| Counterfactuals.MarginLever | src/counterfactual.rs:210-260 | A lever is reported with the furthest value that still wins, and left out exactly when every value in its range does. |
| Counterfactuals.DecisionMargin | src/counterfactual.rs:191-267 | The whole answer for the selected candidate; nothing exactly when nothing was selected. |
| Counterfactuals.QualityZeroLoses | src/counterfactual.rs:210-222 | With distinct ids a candidate of quality zero is never selected, so a winner always has a quality boundary above zero. |
| Exploration.Uniform | src/exploration.rs:263-273 | The result is the first kept word reduced, and below `n`; there is none exactly when no first or retry word is ever kept. |
| Exploration.RejectedIsRemainder | src/exploration.rs:263-265 | The number of refused words is 2^64 mod `n`. |
| Exploration.UniformIsUniform | src/exploration.rs:263-273 | Each result stands for exactly (2^64 - 2^64 mod n)/n of the 2^64 words. |
| Exploration.PairsFormula | src/exploration.rs:202-215 | How many of the 10,000*k pairs act on any given candidate. |
| Exploration.PropensityIsExact | src/exploration.rs:202-222 | For one roll and pick the recorded numerator is that number exactly when the explored id is listed once. |
| Exploration.WindowIsExact | src/exploration.rs:202-222 | Every record of a window is exact if and only if the rate is zero or the window repeats no id. |
| Exploration.CountsSum | src/exploration.rs:196-222 | Over any window, ids repeated or not, the counts of its candidates add up to all 10,000*k pairs. |
| Exploration.NumeratorsSum | src/exploration.rs:216-222 | Over the window the recorded numerators add up to the denominator exactly when the rate is zero or no id repeats, and fall short of it otherwise. |
| Exploration.CollectOthers | src/exploration.rs:184-195 | The window holds the eligible others within reach of the winner, in catalog order. |
| Exploration.Choose | src/exploration.rs:200-215 | Acts on the candidate of the roll and pick that the words yield, retries included. |
| Exploration.Explore | src/exploration.rs:159-232 | The record: errors, a refused request, or decision, window, choice and propensity of one draw; no record exactly when a draw never ends. |
| Exploration.ActedOnMeans | src/exploration.rs:207-215 | A roll under the rate acts on the picked member of the window, the winner being its first; any other acts on the winner. |
| Exploration.WindowMeans | src/exploration.rs:184-195 | The window holds exactly the other ids of ranked models whose utility is within the configured distance of the winner. |
| Exploration.RecordsAreExact | src/exploration.rs:184-232 | All records a request can lead to are exact if and only if the rate is zero or no two models of its window share an id. |
| Exploration.RepeatedIdUnderstated | src/exploration.rs:184-232 | A concrete unvalidated catalog whose record says 5,000 where 10,000 of the pairs act on the candidate. |
| Exploration.RecordIsExact | src/exploration.rs:202-232 | Over a catalog with distinct ids every record's propensity is exact. |
| Wal.ValidateChain | src/async_wal.rs:125-199 | Length and head of an accepted file, or the fault of its first faulty line. |
| Wal.AcceptedIsChain | src/async_wal.rs:125-199 | Accepted means exactly: the entries form a numbered hash chain of countable length, with nothing but white space between them and no line over the limit. |
| Wal.FaultRepairs | src/async_wal.rs:125-199 | The fault named in an entry is the fault it has: putting the expected value in its place makes the line accepted. |
| Wal.SplitMessage | src/async_wal.rs:87-112 | A hashed text splits into previous hash and data in one way only, the genesis marker included. |
| Wal.HeadDetermines | src/async_wal.rs:87-112 | Two chains with the same head are the same chain. |
| Wal.AcceptedHeadDetermines | src/async_wal.rs:125-199 | Two accepted files have the same head exactly when they hold the same entries in the same order. |
| Wal.VerifyAnchor | src/async_wal.rs:462-490 | An anchor is verified exactly when schema, key mode, length and head match an accepted file. |
| Wal.AnchorExcludesTampering | src/async_wal.rs:462-490 | A matching anchor excludes truncation and rewriting. |
| Wal.Writer.constructor | src/async_wal.rs:272-283 | An opened writer has the head the validator found. |
| Wal.Writer.Append | src/async_wal.rs:286-360 | The new file, head, error and poisoning for every way the writes can end; after success the validator finds the writer's head exactly when it did before, the file was ready for the line, the payload holds no newline and the sequence is countable. |
| Wal.Open | src/async_wal.rs:252-283 | Opening succeeds exactly on accepted files, in step with them. |
| Wal.AppendInStep | src/async_wal.rs:286-360 | An appended file validates to the new head exactly when it was ready for the line, the payload holds no newline and the sequence is countable. |
| Wal.AppendAll | src/async_wal.rs:286-360 | Over a run of appends of any payloads, an unpoisoned writer's head is the validator's exactly when the file was ready for the first line written, no payload written holds a newline and the sequence stayed countable; then the file holds just what was made of the payloads. |
| Wal.MissingNewline | src/async_wal.rs:125-199 | A concrete accepted file that one successful append turns into a rejected one. |
| Wal.FormFeed | src/async_wal.rs:156-160 | A file of one form feed is accepted, and one successful append turns it into a rejected one. |
| Wal.LongBlank | src/async_wal.rs:147-156 | So does a file of spaces up to the line limit. |
| Wal.NewlineInPayload | src/async_wal.rs:300-342 | The payload text `[`, newline, `]` is appended to an empty file with success, and the file is rejected. |
| Wal.PayloadLimitSuffices | src/async_wal.rs:300-329 | The payload limit alone decides whether an entry fits: the check of the whole line never fails behind it. |
| Wal.FailedAppendReopens | src/async_wal.rs:331-349 | For every payload and every number of bytes that reached the file: whether it still opens, and with which entries. |
| Ledger.RowFirst | src/finance.rs:43-51 | Where two encodings that start with a row agree, the rows and what follows are the same, or the id of one swallows the other row. |
| Ledger.RowsConfusable | src/finance.rs:43-51 | Two rows can start the same encoding exactly when they are the same or one swallows the other. |
| Ledger.EncodingInjective | src/finance.rs:22-51 | Two snapshots have the same encoding exactly when they agree apart from their rows and list the same rows of each tenant in the same order. |
| Ledger.EncodingForgetsOrder | src/finance.rs:22-51 | When no tenant is listed twice, the order of the rows is all that the encoding forgets. |
| Ledger.ShortIdsSeparate | src/finance.rs:43-51 | Ids under 2^32 bytes swallow nothing. |
| Ledger.LongIdsCollide | src/finance.rs:22-51 | Two concrete ledgers of distinct tenants with the same encoding, under any text encoding that writes a zero character as a zero byte. |
| Ledger.EncodeLedger | src/finance.rs:22-51 | Sorting and appending produce that encoding. |
| Checkpoints.LoadReturns | src/persistence.rs:320-358 | A generation whose three files are in place loads as itself. |
| Checkpoints.LoadChecks | src/persistence.rs:320-358 | What a successful load has compared with the manifest. |
| Checkpoints.CaptureKeeps | src/persistence.rs:274-296 | Starting a checkpoint keeps the directory safe: its version is above the committed one. |
| Checkpoints.WriteKeeps | src/persistence.rs:297-310 | So does each of its three writes. |
| Checkpoints.RestartKeeps | src/persistence.rs:320-358 | So does stopping and starting again, which always succeeds. |
| Checkpoints.CrashSafety | src/persistence.rs:274-358 | Wherever a run of work, restores that keep the fence, checkpoints, abandoned ones among them, and crashes stops, loading returns exactly the last generation whose manifest was replaced. |
| Checkpoints.NoMixedGeneration | src/persistence.rs:320-358 | Whatever files lie under a committed manifest, what loads is the committed anchor and ledger up to row order. |
| Checkpoints.LoadExact | src/persistence.rs:320-358 | Loading yields a generation exactly when manifest, snapshot and anchor are in the files the manifest names and agree on version, digest, log position, head and keying. |
| Checkpoints.CheckpointCoordinated | src/persistence.rs:274-316 | Nothing is written exactly when ids are exhausted or the snapshot could not be restored; otherwise exactly the first writes of one generation, and only the allocator and version of the engine move. |
| Checkpoints.WritesCommit | src/persistence.rs:297-310 | Three writes commit; fewer leave an older generation loading as before. |
| LiveRestore.LowRestoreLoses | src/persistence.rs:274-310 | From any state at rest, restoring a snapshot with a lower fence than the committed one can be continued to a directory that does not load. |
| LiveRestore.RestoreKeepsCommitted | src/persistence.rs:274-358 | Restoring the running engine never costs the committed generation exactly when the snapshot's fence is not below the committed one. |
| LiveRestore.StaleRestoreLoses | src/persistence.rs:274-310 | A concrete run of one snapshot and one checkpoint, after which restoring that snapshot puts the checkpoint at risk. |
| OtsCodec.VarUintRoundTrip | src/ots.rs:216-251 | Every 64-bit number is read back from its own form. |
| OtsCodec.VarUintMinimal | src/ots.rs:216-230 | A number read from any form, minimal or not, is in range and its own form is no longer. |
| OtsCodec.VarBytesRoundTrip | src/ots.rs:232-256 | Byte strings within the limit are read back. |
| OtsCodec.AttestationRoundTrip | src/ots.rs:463-518 | Every well-formed attestation is read back from its own form. |
| OtsCodec.AttestationMinimal | src/ots.rs:463-498 | Every attestation that is read is well-formed and its own form is no longer. |
| OtsCodec.OpRoundTrip | src/ots.rs:312-331 | Every well-formed operation is read back. |
| OtsCodec.OpMinimal | src/ots.rs:312-331 | Every operation that is read is well-formed and its own form is no longer. |
| OtsCodec.MirroredAt | src/ots.rs:141-155 | The reverse operation puts byte `i` at the mirrored place. |
| OtsCodec.HexlifiedAt | src/ots.rs:141-155 | The hexlify operation spells byte `i` as the two lower-case hex digits of its value. |
| OtsCodec.AttestationKeyInjective | src/ots.rs:170-178 | Different well-formed attestations have different sort keys. |
| OtsCodec.OpKeyInjective | src/ots.rs:132-137 | Different operations have different sort keys. |
| OtsMeaning.AppendMeans | src/ots.rs:141-155 | Appending keeps the message in front of the argument, and is refused exactly beyond the length limit. |
| OtsMeaning.PrependMeans | src/ots.rs:141-155 | Prepending is appending the message to the argument. |
| OtsMeaning.ReverseMeans | src/ots.rs:141-155 | Reversing puts the bytes in the opposite order, and twice gives the message back. |
| OtsMeaning.HexlifyMeans | src/ots.rs:141-155 | Each byte becomes two lower-case digits that read back as its halves, the higher first. |
| OtsMeaning.HashesMean | src/ots.rs:141-155 | Each hash operation is its own hash of the message; the two the code cannot evaluate give nothing. |
| OtsMeaning.NotaryOrder | src/ots.rs:170-178 | Attestations of one notary are ordered by height, by address or by payload. |
| OtsMeaning.OpOrder | src/ots.rs:132-137 | Operations are ordered by tag, and those of one tag by argument. |
| OtsTree.MergeBranch | src/ots.rs:350-396 | A branch of a merge is a branch of one tree or the merge of a branch of each. |
| OtsTree.MergeCanonical | src/ots.rs:350-396 | Merging keeps any two trees sorted without repetition throughout, empty nodes and different messages included. |
| OtsTree.MergeSound | src/ots.rs:386-396 | Merging canonical proofs of one message gives a canonical one, no deeper. |
| OtsTree.MergeCommutes | src/ots.rs:386-396 | Merging is commutative. |
| OtsTree.MergeIdempotent | src/ots.rs:386-396 | Merging a proof into itself changes nothing. |
| OtsTree.MergeAssociates | src/ots.rs:386-396 | Merging is associative. |
| OtsTree.MergeCollects | src/ots.rs:438-453 | A merge attests exactly what one of the two proofs attests. |
| OtsParse.MergeSize | src/ots.rs:350-396 | Merging never takes more bytes than the two proofs together. |
| OtsParse.ParseSound | src/ots.rs:295-348 | What is read is a canonical, well-formed proof of the message within the depth, and writing it takes no more bytes than were read. |
| OtsMeaning.CollectMeans | src/ots.rs:438-453 | What a proof collects is exactly what some path of operations from its root reaches. |
| OtsMeaning.PathMessage | src/ots.rs:295-348 | The message at the end of a path is what its operations, one after the other, make of the message proved. |
| OtsMeaning.AttestedFrom | src/ots.rs:283-348 | Whatever an accepted file attests, it attests of what operations make of the message it was read for. |
| OtsParse.ParseWritten | src/ots.rs:406-432 | Reading a written proof gives back the tree, whatever follows it. |
| OtsParse.RewriteShrinks | src/ots.rs:283-432 | Every byte string that parses is rewritten no longer than it was and parses back to the same tree. |
| OtsParse.WritingIsCanonical | src/ots.rs:400-432 | Two parsed proofs are equal exactly when they are written the same. |
| OtsReader.Reader.constructor | src/ots.rs:190-193 | A reader starts at the front of its bytes. |
| OtsReader.Reader.Byte | src/ots.rs:196-203 | Takes one byte off what is left, or fails at the end. |
| OtsReader.Reader.Take | src/ots.rs:205-214 | Takes `n` bytes off what is left, or fails if there are fewer. |
| OtsReader.Reader.VarUint | src/ots.rs:216-230 | The loop over groups of seven bits reads the number and leaves what follows it. |
| OtsReader.Reader.VarBytes | src/ots.rs:232-238 | Reads a length within the limit and that many bytes. |
| OtsReader.Reader.ReadOneAttestation | src/ots.rs:463-498 | Reads one attestation whose payload is used up. |
| OtsReader.PutVarUint | src/ots.rs:241-251 | Appends the minimal form. |
| OtsReader.Canonicalize | src/ots.rs:362-365 | Sorting restores the canonical order of any rearrangement. |
| OtsReader.PushAttestation | src/ots.rs:306-310 | Adds an attestation once. |
| OtsReader.AddOp | src/ots.rs:350-357 | Merges into the branch of the same operation or starts a new one, in canonical order. |
| OtsReader.MergeInto | src/ots.rs:386-396 | The in-place merge computes the merge of any two canonical trees. |
| OtsReader.ReadNode | src/ots.rs:295-348 | The reading loop, with its pushes and sorts, parses exactly the proof at the front of the input. |
| OtsReader.DeserializeBytes | src/ots.rs:283-293 | A whole file: size limit, one proof, nothing after it. |
| OtsReader.PutTree | src/ots.rs:406-432 | The writing loops append exactly the canonical bytes. |
| OtsUpgrade.DepthMerge | src/ots.rs:350-396 | A merge is exactly as deep as the deeper of the two trees. |
| OtsUpgrade.GoodDepth | src/ots.rs:295-298 | A well-formed tree is within a depth limit exactly when it has no more levels. |
| OtsFiles.ReadableExactly | src/ots.rs:283-293 | A well-formed tree of any depth reads back from its bytes when it is within the depth and size limits, and is refused otherwise. |
| OtsUpgrade.UpgradeDepth | src/ots.rs:455-460 | An upgraded tree is as deep as it was or as the upgrade reaches from its level, whichever is more; both look for the same node. |
| OtsUpgrade.UpgradeGood | src/ots.rs:659-673 | An upgraded proof is a well-formed proof of the same message, even if the node that takes the response was still empty. |
| OtsUpgrade.UpgradeSize | src/ots.rs:659-673 | It takes exactly the bytes of proof and response, less those of what the node and the response share. |
| OtsShared.MergeSizeExact | src/ots.rs:386-396 | A merge takes exactly the bytes of both trees, less those of what they share. |
| OtsUpgrade.GoodAwaits | src/ots.rs:455-460 | In a well-formed proof any node can take a response. |
| OtsFiles.ParseDeeper | src/ots.rs:295-348 | A deeper limit reads the same from whatever a shallower one reads. |
| OtsFiles.FileReadableExactly | src/ots.rs:602-635 | A well-formed proof of a digest reads back from its file when it is within the depth and size limits, and is refused otherwise. |
| OtsFiles.FileRewrites | src/ots.rs:602-635 | Every file that can be read is written back no longer than it was and reads as the same proof. |
| OtsFiles.UpgradedFileReadable | src/ots.rs:659-673 | An upgraded proof is read back from its file if the response fits in depth and size, told from proof and response alone, and its file is refused if not. |
| OtsFiles.FileUpgrade | src/ots.rs:659-673 | The same for a proof that was itself read from a file, at any commitment it holds. |
| OtsFiles.SubmissionReadable | src/ots.rs:595-673 | The same for a new proof prepared for submission: the first response may have 254 levels and the bytes that are left. |
| OtsFiles.ResponseTooDeep | src/ots.rs:659-673 | A concrete file and response, both readable, whose merged proof is refused as too deep. |
| OtsFiles.ResponseTooLarge | src/ots.rs:659-673 | A concrete file and response, both readable, whose merged proof is refused as too large. |
| KnownAnswers.RootOfSeven | src/merkle.rs:130-139 | The tree of seven leaves of section 2.1.5 of RFC 9162. |
| KnownAnswers.PathsOfSeven | src/merkle.rs:143-165 | Its four inclusion proofs given there. |
| KnownAnswers.SubProofsOfSeven | src/merkle.rs:239-265 | Its three consistency proofs given there. |
| KnownAnswers.OperationBytes | src/ots.rs:119-130 | The bytes of every operation. |
| KnownAnswers.AttestationBytes | src/ots.rs:500-518 | The bytes of the attestation of block 358391, of a pending one and of an unknown one. |
| KnownAnswers.TreeBytes | src/ots.rs:406-432 | A node with two attestations and two branches has a fork marker in front of all its items but the last. |
| KnownAnswers.NoteText | src/checkpoint.rs:163-382 | A body of four lines, and a note with one signature whose key hash is written highest byte first. |
| KnownAnswers.LogLine | src/async_wal.rs:300-342 | The line of one log entry. |
| KnownAnswers.ChainOfTwo | src/async_wal.rs:87-112 | What two entries must hold to be a log, and that it is enough. |
| KnownAnswers.AllOnes | src/finance.rs:22-51 | The eight bytes of a negative amount. |
| KnownAnswers.LedgerExample | src/finance.rs:22-51 | The bytes of a ledger of two tenants with a log position. |

## Left out

- KernelDecide.Prescribe: past 65,535 rejections over budget or without utility the two plain counters wrap, as in a release build; a debug build stops there.
- Exploration.Explore: requires fewer than 1.8 * 10^15 models, beyond which the denominator does not fit 64 bits; the draw's words are parameters, HMAC is not modelled.
- Wal.ValidateChain: JSON is not modelled; a line is white space, an entry or other text, with its length. Key lengths are not modelled.
- Wal.Writer.Append: a payload is the text it serializes to, and what the runtime has buffered counts as written.
- Ledger.EncodingInjective: requires that no row swallows a row of the other ledger, which ids under 2^32 bytes never do; the converse is stated for rows only.
- LiveRestore.RestoreKeepsCommitted: assumes that no other ledger has the digest of the committed one.
- OtsFiles.SubmissionReadable: assumes that the hash of the salted digest is 32 bytes long and not the digest itself.
- Wal.HeadDetermines: assumes that the hash has no collision among the texts of the two logs.
- Checkpoints.NoMixedGeneration: assumes that the ledger digest does not collide for the two snapshots compared.
- Checkpoints.CrashSafety: every file replacement is one atomic, durable step; file names are taken apart into version and sequence instead of being formatted.
- Audit.QuorumSafety: takes as a hypothesis that a witness that signed both checkpoints follows one history.
- Return values of the budget calls, balances they report, the certificate baseline and the owned reservation guard: only their effect on the engine is modelled.
- The mutexes on the reserved totals and on the limits: no call waits for another lock while it holds one of them, so taking and leaving them is part of one step.
- Memory orderings: each atomic operation is one sequentially consistent step.
- Merkle indices and sizes are unbounded; the 64-bit range of the code is not modelled.
- CheckpointText.NoteCanonical: base64 is assumed to be a bijection onto its canonical strings, as in section 4 of RFC 4648.
- The auditor works on views of notes, and a signature is a constructor of its key and text; the text form of keys is not modelled.
- `from_verified_wal`, the synchronous log, recovery planning over a log, and legacy snapshot migration: they add easy members to what is here.
- OtsUpgrade.Upgrade: the node is replaced in a new tree, where the code changes it in place.
- Bitcoin headers, proof of work and calendar URLs.
- Hash functions, HMAC, Ed25519, base64 and JSON: free constructors, parameters or parsed values.
- Off-policy estimators, certificates, configuration, outcomes, bindings and examples.
