# A verified model of the frametime workflow core

frametime changes a Windows machine in recorded steps, survives crashes and
reboots between them, and can undo what it did. This project models the
platform-neutral core in Dafny and proves what the rest of the program relies on.

* **Recovery engine and undo log** (`Engine*`, `Backend`, `UndoLog`, `Backup`,
  `NativeCaptures`, `Audit`, `Progress`, `Policy`, `Catalog`). The backend is an
  oracle that may answer anything and fail at any call. The engine class is proved
  equal to specification functions; every run is made of attempts whose calls, replies and
  outcomes are listed (`EngineReactions`); a ledger over the call trace states the
  discipline; the log is proved to undo every sequence of sessions.
* **Benchmark commits** (`Fps`, `State`, `Benchmark`, `LegacyRetry`, `Baseline`,
  `Reconciliation`). Three files are written one after the other; `CommitMeaning` says
  field by field when and what; retries are proved confluent from every crash prefix.
* **Reboot protocol** (`Handoff`, `Orchestration`, `Migration`,
  `GuardMeaning`, `CommandMeaning`, `PhaseOneReadiness`, `RebootProtocol`,
  `RebootCrashes`, `EngineWork`). The guards are functions, each granted exactly as
  `GuardMeaning` says in literal step numbers; the commands are guards followed by single writes;
  safety is proved over all runs, and each crash point is classified.
* **Driver removal** (`DriverModel`, `DriverEvidence`, `DriverRemoval`,
  `DriverExecution`) over a store whose adapter calls may fail before or after
  their effect.
* **CFG transactions** (`CfgTargets`, `CfgFiles`, `CfgController`,
  `CfgOperations`, `CfgTransaction`, `Autoexec`) over a file port with the same
  kind of failures.
* **Steam VDF** (`VdfLexer`, `VdfGrammar`, `VdfParser`, `Vdf`): lexer, parser, a
  printer in any layout, and both as exact inverses.

`Wrappers`, `Text` and `Sorting` hold shared vocabulary.

## What turned out not to hold

Where a natural property fails, the code is modelled as it is and the exact
condition is proved.

* A crash between two writes of P1:38, P2:1 or P2:3 can leave a machine on which
  no guard grants anything any more, although the native functions themselves are
  written to be retried (`RebootCrashes`): the stage is persisted before the
  progress that the guards ask for, and a persisted transaction refuses arming.
* Backup identities join fields with colons, so entries can share an identity and
  restore different places; the log then keeps only the first. `UndoLog` gives the
  exact condition, for a batch and for a whole program; `NativeCaptures` gives the
  families of such entries and a machine that is not restored, and proves that no
  capture of the native backend belongs to them: its registry paths hold one colon
  and its interrupt values none, and it captures no adapter property, task or step
  name of another shape. Only entries of older files can collide.
* A sidecar whose creation is torn to other bytes is retained for ever; a sidecar
  keeps its file's original exactly when its one creating call was not torn so
  (`CfgFiles`, `CfgOperations`).
* An aggregate-only final benchmark that crashed among its writes can be retried
  only if every old record is valid, which the first attempt does not ask
  (`Reconciliation`).
* Appending the bootstrap line to a text that ends in a bare carriage return turns
  it into a line break (`AutoexecText`).
* Before anything was written, a baseline retry with another timestamp aims at
  another record (`Baseline.RetryBeforeAnyWrite`).
* Progress keys have spellings the printer never produces (`Catalog`).

## Model

| member | source | states |
|---|---|---|
| Backend.Host.Invoke | crates/frametime-domain/src/engine.rs:91-145 | One backend call: the reply is whatever the adversary answers in this world, the call is recorded, and only apply, persist_backups and persist_progress change machine, log or progress file, each possibly although it reports failure |
| Engine.RecoveryEngine.RunWithControl | crates/frametime-domain/src/engine.rs:169-204 | The step loop ends in exactly the session, report or error of the specification function, for every backend, profile and step list |
| Engine.RecoveryEngine.RunOne | crates/frametime-domain/src/engine.rs:169-233 | One iteration ends in exactly the specified outcome; what its replies lead to is EngineReactions.LiveAttempt |
| Engine.RecoveryEngine.SkipRecordedOrCancelled | crates/frametime-domain/src/engine.rs:206-220 | A recorded step is passed over without any call; otherwise a live run asks for cancellation once and stops with it, a dry run does not ask |
| Engine.RecoveryEngine.RunLive | crates/frametime-domain/src/engine.rs:270-307 | A live step follows its inspection into exactly the specified path; which one is EngineReactions.InspectionDecides |
| Engine.RecoveryEngine.RunLossless | crates/frametime-domain/src/engine.rs:364-402 | Capture and persist of non-empty backups, then apply and verify, as specified, stopping at the first failure |
| Engine.RecoveryEngine.RunEvidence | crates/frametime-domain/src/engine.rs:404-440 | The durable-observation path as specified |
| Engine.RecoveryEngine.RunRebuildable | crates/frametime-domain/src/engine.rs:442-479 | The rebuildable-audit path as specified |
| Engine.RecoveryEngine.RunPendingIrreversible | crates/frametime-domain/src/engine.rs:494-543 | The pending irreversible audit path, with its finalize or fail attempt, as specified |
| Engine.RecoveryEngine.ShouldSkip | crates/frametime-domain/src/engine.rs:222-233 | Asks for consent exactly when the profile prompts in a live run and skips exactly as decided |
| EngineReactions.RunIsMadeOfAttempts | crates/frametime-domain/src/engine.rs:169-233 | Every run, live or dry, is one attempt per step in order; its trace is theirs end to end, each takes over the books the one before left, and the first that fails is the last |
| EngineReactions.LiveAttempt | crates/frametime-domain/src/engine.rs:222-591 | The calls of a live attempt, one by one with the replies that lead to the next: cancellation, consent, inspection, the recovery work of the answered kind with its audit or backup persisted before the apply, and the one persist that records the outcome |
| EngineReactions.DryAttempt | crates/frametime-domain/src/engine.rs:235-268 | The calls of a dry attempt: none for a recorded or skipped step, else an inspection and a plan, counted as completed, skipped, advisory or failed as the inspection says |
| EngineReactions.CancellationIsLast | crates/frametime-domain/src/engine.rs:206-220 | Cancellation is the first question of an attempt; answered yes it is the last call, the books are untouched and the error names the step |
| EngineReactions.ConsentDecides | crates/frametime-domain/src/engine.rs:222-233 | A consent that is given is followed at once by the inspection of the step; one that is refused by the persist that adds the key to the skipped ones, and by nothing else |
| EngineReactions.SkippedStepIsNotInspected | crates/frametime-domain/src/engine.rs:222-233 | A step the profile skips is recorded as skipped with no inspection, consent or apply |
| EngineReactions.InspectionDecides | crates/frametime-domain/src/engine.rs:270-307 | After an attempt that succeeds the key is skipped if the inspection said inapplicable, an advisory with the replied reason if it said advisory, completed otherwise, in that set only and counted once; unsupported halts; a failed attempt leaves the books alone |
| EngineDiscipline.EveryRunIsSafe | crates/frametime-domain/src/engine.rs:169-307 | For every backend, failure pattern, step list and profile: every apply was protected, every new completion verified, every persisted irreversible audit has its one truthful close, every close is owed to one, and memory equals the last persisted progress |
| EngineDiscipline.RunIsDisciplined | crates/frametime-domain/src/engine.rs:169-591 | The trace discipline is kept by any run from any disciplined start, together with any property the calls preserve |
| EngineLedger.ApplyIsProtected | crates/frametime-domain/src/engine.rs:364-402 | Each apply of a step follows, since its last NeedsApply inspection, a persist of what the latest answer about that step demands: the non-empty entries answered to its own capture with nothing applied since, a valid pending audit under its key, or both |
| EngineLedger.CompletionsAreVerified | crates/frametime-domain/src/engine.rs:350-362 | A key is newly completed in a persist only for the inspected step and only after a verify with no later apply |
| EngineLedger.EveryAuditIsClosedOnce | crates/frametime-domain/src/engine.rs:494-543 | Each persisted irreversible audit gets exactly one finalize or fail attempt: the first call of that kind after it, before the next inspection; a finalize exactly when the audited step was verified since and not applied again, else a fail; and no further attempt until another audit is persisted |
| EngineLedger.ClosesAreOwed | crates/frametime-domain/src/engine.rs:494-543 | Each finalize or fail attempt is the first after a persisted audit of the same step attempt, and closes that audit |
| EngineLedger.MemoryIsLastPersisted | crates/frametime-domain/src/engine.rs:561-570 | The progress held in memory is the one last persisted successfully, or the initial one |
| EngineLedger.LedgerMeans | crates/frametime-domain/src/engine.rs:270-307 | What the ledger folded from a trace means, in positions of the trace |
| EngineAccounting.RunIsAccounted | crates/frametime-domain/src/engine.rs:169-204 | Whatever happens, completed, skipped and advisory counts of a live run equal the growth of the three progress sets and of the recorded keys |
| EngineAccounting.LiveStepOutcome | crates/frametime-domain/src/engine.rs:270-362 | A live step that was not recorded is resolved in exactly one way, or halts with progress and report untouched |
| EngineAccounting.RunConcatenation | crates/frametime-domain/src/engine.rs:169-204 | Running a concatenation equals running the parts in turn |
| EngineAccounting.RunRecordsEveryStep | crates/frametime-domain/src/engine.rs:169-204 | A successful live run leaves every step recorded, keeps every record, and keeps the three sets disjoint |
| EngineAccounting.RerunOfFinishedListIsSilent | crates/frametime-domain/src/engine.rs:206-220 | Running a finished list again, live or dry and on any backend, makes no call at all |
| EngineAccounting.RetryResumesAtTheHalt | crates/frametime-domain/src/engine.rs:169-204 | A retry after a halt behaves like a run of the halted step and what follows it |
| EngineAccounting.EvidenceIsDurable | crates/frametime-domain/src/engine.rs:404-440 | The evidence path goes on only after capturing, persisting and verifying one valid receipt and verifying the step, in that order |
| EngineAccounting.DryRunOnlyPreviews | crates/frametime-domain/src/engine.rs:235-268 | A dry run only reads: no mutation, no persistence, no progress change, one outcome counted per unrecorded step |
| EngineWork.EngineRunIsWork | crates/frametime-domain/src/engine.rs:169-307 | The progress a live run leaves is that of resolving some of its steps, each fresh and once, in order |
| UndoLog.BackupFile.PushFirstValue | crates/frametime-domain/src/backup.rs:369-379 | The loop appends an entry exactly when it has no identity or the identity is new |
| UndoLog.BackupFile.Restore | crates/frametime-domain/src/backup.rs:381-383 | Restoring walks the log newest entry first |
| UndoLog.RetryNeverDisplacesOriginal | crates/frametime-domain/src/backup.rs:369-379 | However many batches a retry pushes, the first recorded original of a covered location stays |
| UndoLog.RepeatedSubjectIsDropped | crates/frametime-domain/src/backup.rs:386-463 | Of two captures of one subject in one step, whatever its kind, the second is dropped |
| UndoLog.ReplayRestores | crates/frametime-domain/src/backup.rs:369-383 | Replaying a sound log returns the whole machine to the original |
| UndoLog.BothRegistryValuesCovered | crates/frametime-domain/src/backup.rs:386-463 | An instance: two registry values of one step stay restorable exactly when their joined spellings differ or they are the same value |
| UndoLog.BatchIsUndoneExactly | crates/frametime-domain/src/backup.rs:369-383 | For any sound log and accurate batch, whatever is then written to the batch's places is undone exactly when no entry repeats an identity while restoring a place that neither the log nor a kept entry restores |
| UndoLog.UndoIsExactlyUnambiguity | crates/frametime-domain/src/backup.rs:369-463 | A program's log undoes every batch on every machine exactly when, among the entries it captures, one identity always means the same places |
| NativeCaptures.NativeCapturesAreUnambiguous | crates/frametime-windows/src/backend/live.rs:373-401 | Among all entries the native backend captures, one identity means the same places, whatever the names hold |
| NativeCaptures.GpuPreferenceIsNative | crates/frametime-windows/src/system/cs2/registry.rs:28-62 | The value P1:30 names after the executable path is such an entry for every path |
| NativeCaptures.CollidingPairIsLost | crates/frametime-domain/src/backup.rs:369-383 | Of two accurate entries that share an identity and no place, replay restores the first and leaves at the second whatever was written |
| NativeCaptures.AdapterPropertyIsLost | crates/frametime-domain/src/backup.rs:414-422 | A machine that replay does not restore: two adapter properties spelt alike |
| NativeCaptures.RegistryFamily | crates/frametime-domain/src/backup.rs:389-393 | Moving a colon between registry path and value name keeps the identity and changes the place |
| NativeCaptures.AdapterFamily | crates/frametime-domain/src/backup.rs:414-422 | The same for adapter and property |
| NativeCaptures.InterruptFamily | crates/frametime-domain/src/backup.rs:434-438 | The same for device and value name |
| NativeCaptures.TaskFamily | crates/frametime-domain/src/backup.rs:405-413 | The same for task folder and task name, which are joined without a separator |
| NativeCaptures.StepFamily | crates/frametime-domain/src/backup.rs:389-393 | A step name that is no step key can spell part of another entry's subject |
| Backup.IdentityDeterminesLocations | crates/frametime-domain/src/backup.rs:386-463 | Two entries whose step keys and registry paths hold one colon, and whose adapter properties, interrupt values and task names hold no separator, restore the same locations when they share a dedupe identity; a registry value name may hold any text |
| Backup.EntryRestoresItsKind | crates/frametime-windows/src/storage/recovery.rs:18-90 | An entry restores only places of its own kind |
| Backup.CfgEntryRestoresItsFiles | crates/frametime-domain/src/backup.rs:453-463 | A CFG entry restores exactly the files of its targets in its install |
| Backup.RegistryIdentityIsAmbiguous | crates/frametime-domain/src/backup.rs:386-463 | Some other registry value shares the identity of a given one exactly when its path or name holds a colon |
| EngineUndo.LogUndoesEverything | crates/frametime-domain/src/engine.rs:364-402 | From an empty log, after any number of live, dry, failed, cancelled or retried sessions over faithful backends whose entries are unambiguous, replaying the log returns the whole machine to its state before the first session |
| EngineUndo.NativeLogUndoesEverything | crates/frametime-windows/src/backend/live.rs:161-171 | So it does for backends that answer what the native backend captures, P1:30 included |
| EngineUndo.RunKeepsLogSound | crates/frametime-domain/src/engine.rs:374-402 | One run, stopped anywhere, keeps the log sound for the original machine |
| ProgressModel.ResolutionIsExclusive | crates/frametime-domain/src/state/progress.rs:20-36 | A resolution leaves its key in exactly one set, moves no other key, and keeps disjoint sets disjoint |
| ProgressModel.FreshResolutionGrowsOneSet | crates/frametime-domain/src/state/progress.rs:183-200 | Resolving a fresh key adds one key to one set |
| ProgressModel.ProgressDraft.CompleteStep | crates/frametime-domain/src/state/progress.rs:183-191 | The field-by-field edit equals the completing function |
| ProgressModel.ProgressDraft.SkipStep | crates/frametime-domain/src/state/progress.rs:193-200 | The field-by-field edit equals the skipping function |
| ProgressModel.ProgressDraft.AcknowledgeStepAdvisory | crates/frametime-domain/src/state/progress.rs:24-36 | The field-by-field edit equals the acknowledging function |
| Audit.DeduplicationIsCanonical | crates/frametime-domain/src/audit.rs:365-373 | Deduplicated targets are the same set in strict order, and a strictly ordered list is its own deduplication |
| Audit.PendingRebuildableMeans | crates/frametime-domain/src/audit.rs:113-134 | A pending rebuildable audit is valid exactly for its own step, dated, with targets in strict order, and all four of them for P1:3 |
| Audit.PendingIrreversibleMeans | crates/frametime-domain/src/audit.rs:280-363 | A pending manual or mixed audit is valid exactly for its own step and kind, dated, with the one target of P1:13, P2:2 or P3:1, and its AppX subjects named and ascending throughout |
| Policy.LowerRiskIsNeverSkippedFirst | crates/frametime-domain/src/policy.rs:24-64 | Decisions are monotone in risk |
| Policy.CriticalIsOnlyAsked | crates/frametime-domain/src/policy.rs:24-64 | Outside tier 1 critical steps are prompted by the custom profile and skipped by every other |
| Policy.PromptedExactly | crates/frametime-domain/src/policy.rs:24-64 | Which steps a profile prompts for, in literal tiers and risks |
| Policy.RunExactly | crates/frametime-domain/src/policy.rs:24-64 | Which steps a profile runs unasked, in literal tiers and risks; every other is skipped |
| Catalog.ProgressKeyInjective | crates/frametime-domain/src/catalog/definitions.rs:34-36 | Distinct step identities have distinct keys |
| Catalog.ProgressKeyRoundTrip | crates/frametime-domain/src/catalog/definitions.rs:34-49 | Printing then parsing a key is the identity exactly for positive numbers |
| Catalog.ParsedKeyPrintsBack | crates/frametime-domain/src/catalog/definitions.rs:39-49 | Parsing then printing is the identity exactly when the number text is canonical |
| Catalog.NonCanonicalKeysAreAccepted | crates/frametime-domain/src/catalog/definitions.rs:39-49 | "P1:05" and "P1:+5" parse to P1:5, so the parser is not injective |
| Fps.MeasuredCapRefinesAggregateCap | crates/frametime-domain/src/fps.rs:234-293 | A per-run grant c > 0 grants every smaller cap, makes the rounded aggregate complete with P1 at least c, and the aggregate check grants the same c |
| Fps.CapNeedsEveryRun | crates/frametime-domain/src/fps.rs:275-283 | A positive cap is granted exactly with at least five ordered runs that each reach it |
| Fps.AggregateHidesFailingRuns | crates/frametime-domain/src/fps.rs:256-293 | The converse fails: an aggregate grants a cap that four of five runs miss |
| Fps.SupportingRunsAreBounded | crates/frametime-domain/src/fps.rs:122-135 | Supporting runs never exceed all runs and equal them exactly when none fails |
| Fps.MeasuredCapIsExact | crates/frametime-domain/src/fps.rs:234-293 | A measured cap is granted exactly at the requested amount of the mode, variable refresh included, and exactly when five ordered runs reach it |
| Fps.AggregateCapIsExact | crates/frametime-domain/src/fps.rs:234-293 | An aggregate cap is granted exactly at the same requested amount and exactly when the complete aggregate reaches it |
| Fps.RoundsToNearest | crates/frametime-domain/src/fps.rs:360-362 | Aggregates are rounded to the nearest tenth, halves away from zero |
| Fps.TotalsAreSums | crates/frametime-domain/src/fps.rs:95-109 | The aggregate adds up each figure of the runs, each to its own total |
| Benchmark.PrepareFinalBenchmarkCommit | crates/frametime-domain/src/benchmark.rs:251-342 | The edits of cloned state, progress and history equal the commit function, refusals in source order included |
| Benchmark.ReadinessMeans | crates/frametime-domain/src/benchmark.rs:376-392 | The readiness guard passes exactly when P3:1 is completed, each of P3:2 to P3:12 is completed or skipped, and P3:13 is neither |
| Benchmark.FinalCommitNeedsPhaseThree | crates/frametime-domain/src/benchmark.rs:251-392 | No final benchmark is committed unless P3:1 is completed, each of P3:2 to P3:12 is completed or skipped, and P3:13 is neither |
| Benchmark.ReadbackNeedsPhaseThree | crates/frametime-domain/src/benchmark.rs:422-499 | A record is read back only with P3:1 and P3:13 completed and each of P3:2 to P3:12 completed or skipped |
| Benchmark.FinalCommitRoundTrip | crates/frametime-domain/src/benchmark.rs:251-490 | Every successful commit is accepted by the readback, which returns its receipt; the history ends with its record within 200 |
| Benchmark.ReadbackMeansComplete | crates/frametime-domain/src/benchmark.rs:422-499 | Readback passes only for a complete bundle in which every record sharing the identity is the receipt's own |
| CommitMeaning.FinalCommitExactly | crates/frametime-domain/src/benchmark.rs:251-420 | For every input: a final benchmark is committed exactly with a valid configuration, a sound state without receipt, Phase 3 worked off but for P3:13, a measured history that knows neither identity, a transaction bound at phase3Armed, a valid time, and a complete capture that may set a cap |
| CommitMeaning.FinalCommitWrites | crates/frametime-domain/src/benchmark.rs:284-342 | Every field it writes: receipt, state with the moved transaction, progress and history; the cap is one the capture may set, and no other field of the state changes |
| CommitMeaning.ReadbackExactly | crates/frametime-domain/src/benchmark.rs:422-499 | A receipt is read back exactly from a sound state that holds it and its numbers at phase3Complete, a finished Phase 3 at its time, and a history that holds its record as the only one of its identities |
| StateModel.AppendedKeepsASuffix | crates/frametime-domain/src/benchmark.rs:577-587 | Appending keeps a suffix of the history with the record last and drops exactly one record when full |
| LegacyRetry.PrepareFinalBenchmarkLegacyRetry | crates/frametime-domain/src/benchmark/legacy_retry.rs:6-75 | The retry method equals the retry function over its collected prefix |
| LegacyRetry.CollectFinalIndices | crates/frametime-domain/src/benchmark/legacy_retry.rs:6-30 | The collected indices are exactly those of final records, in order |
| LegacyRetry.FinalCrashConfluence | crates/frametime-domain/src/benchmark/legacy_retry.rs:6-149 | From each crash prefix the retry rebuilds exactly the same commit, also when the history was full; with nothing written it is refused |
| LegacyRetry.OnlyAnExactPrefixIsRetried | crates/frametime-domain/src/benchmark/legacy_retry.rs:6-149 | On any disk: a retry that succeeds found the receipt and record of its own commit, one of them or both and no other final record, and changes nothing of them |
| LegacyRetry.FinalIndicesAreExact | crates/frametime-domain/src/benchmark/legacy_retry.rs:21-28 | The indices are those of all final records, each once and in order |
| Baseline.PrepareBaselineBenchmarkCommit | crates/frametime-domain/src/benchmark/baseline.rs:42-123 | The baseline edits equal the target function |
| Baseline.CommitIsCoherent | crates/frametime-domain/src/benchmark/baseline.rs:142-171 | A baseline target passes the persisted-baseline readback |
| Baseline.CommittedExactly | crates/frametime-domain/src/benchmark/baseline.rs:42-123 | When a baseline is accepted, for every state, progress and history: valid input, baseline neither skipped nor differently recorded, and a history that agrees with it |
| CommitMeaning.BaselineCommitExactly | crates/frametime-domain/src/benchmark/baseline.rs:42-123 | For every input: a baseline is committed exactly from sound files, a complete measured capture at a valid time, and a disk that holds a prefix of its own writes |
| CommitMeaning.BaselineCommitWrites | crates/frametime-domain/src/benchmark/baseline.rs:42-123 | What it writes: the two numbers, P1:17 at the time of the record, and one record if none is there |
| CommitMeaning.BaselineReadbackExactly | crates/frametime-domain/src/benchmark/baseline.rs:142-171 | A baseline is read back exactly as the one record of the numbers of a sound state, at the time of P1:17 |
| Baseline.BaselineCrashConfluence | crates/frametime-domain/src/benchmark/baseline.rs:42-123 | From every write prefix a retry with any valid timestamp aims at the same files; a complete one is flagged idempotent |
| Baseline.RetryBeforeAnyWrite | crates/frametime-domain/src/benchmark/baseline.rs:42-123 | Before any write a retry agrees exactly when a record already exists or the timestamp is the same |
| Baseline.ConflictingCaptureIsRefused | crates/frametime-domain/src/benchmark/baseline.rs:42-123 | Once the history is written a capture with other numbers, or with other evidence where the record holds some, is refused with any state and progress |
| Baseline.RetryIsExact | crates/frametime-domain/src/benchmark/baseline.rs:42-123 | From each write prefix exactly the captures with the record's numbers, and its evidence if it holds any, are accepted |
| Baseline.BaselineOutlivesAppends | crates/frametime-domain/src/benchmark.rs:577-587 | After any later records the baseline stays coherent exactly while its record is among the newest 200 |
| Baseline.BaselineOutlivesFinalCommit | crates/frametime-domain/src/benchmark.rs:313-329 | The same for a successful final commit |
| Reconciliation.ReconciliationConfluence | crates/frametime-windows/src/storage/persistence/final_reconciliation.rs:52-252 | After a crash among the three writes an attempt, at any time and under any fresh id, is accepted exactly for the same capture and evidence, and for an aggregate-only capture only if every record is valid; it then computes the same commit or reports it complete |
| Reconciliation.StateAloneReconciles | crates/frametime-windows/src/storage/persistence/final_reconciliation.rs:52-252 | The same for a disk that holds the written state but no record of it: accepted exactly for the same capture, and the same commit again |
| Reconciliation.EmptyRecordBlocksRetry | crates/frametime-windows/src/storage/persistence_final_support.rs:72-83 | Behind an old record of no runs an aggregate-only attempt succeeds, but no retry after a crash among its writes does |
| Reconciliation.FirstAttempt | crates/frametime-windows/src/storage/persistence/final_reconciliation.rs:52-112 | On untouched files the live command is the plain commit |
| Reconciliation.NothingWrittenIsReplaced | crates/frametime-windows/src/storage/persistence/final_reconciliation.rs:52-252 | An accepted attempt on any disk is of the given capture and evidence, and whatever final receipt and record the disk holds are already its own |
| Reconciliation.CompleteExactly | crates/frametime-windows/src/storage/persistence/final_reconciliation.rs:52-112 | A bundle is reported complete exactly when P3:13 is completed and it reads back as this capture with no other evidence |
| Reconciliation.PrefixIsAccepted | crates/frametime-windows/src/storage/persistence/final_reconciliation.rs:155-342 | A partial bundle of this capture passes every prefix check and gives its identity back |
| Orchestration.UnavailableEvidenceIsNeverUsed | crates/frametime-domain/src/orchestration.rs:133-262 | For every request and evidence field: granted with the field unavailable means granted identically for every value of it |
| Orchestration.RuntimeIsRequired | crates/frametime-domain/src/orchestration.rs:133-262 | Arming, Phase 2, Phase 3 and the final benchmark are granted only with the verified runtime; optimize and the handoff clear ignore it |
| Orchestration.ArmGrantMeans | crates/frametime-domain/src/orchestration.rs:160-178 | Arming is granted only in normal boot, with Phase 1 ready and no transaction |
| GuardMeaning.OptimizeMeans | crates/frametime-domain/src/orchestration.rs:151-158 | For every state, progress and facts: Phase 1 is granted exactly in normal boot, with both startup entries and safe boot known to be absent and no later phase begun |
| GuardMeaning.ArmMeans | crates/frametime-domain/src/orchestration.rs:160-178 | Arming is granted exactly in normal boot, with P1:1 to P1:37 completed, skipped or, for P1:2 and P1:9, acknowledged, the selected executable verified and no transaction |
| GuardMeaning.PhaseTwoMeans | crates/frametime-domain/src/orchestration.rs:180-211 | P2:1 is granted exactly in Safe Mode at the armed stage with safe boot still set and no Phase 2 step touched; the rest exactly at the next stage with safe boot gone and P2:1 completed; both only with runtime, startup entry, readiness and P1:38 |
| GuardMeaning.PhaseThreeMeans | crates/frametime-domain/src/orchestration.rs:213-227 | Phase 3 is granted exactly in normal boot at its stage, with runtime, Run entry and same user verified and P2:1, P2:2 and P2:3 completed |
| GuardMeaning.FinalBenchmarkMeans | crates/frametime-domain/src/orchestration.rs:229-243 | The final benchmark is granted exactly under the same facts at stage phase3Armed or phase3Complete |
| GuardMeaning.HandoffClearMeans | crates/frametime-domain/src/orchestration.rs:245-262 | The handoff clear is granted exactly when the transaction is bound at phase3Complete, Run entry, same user and receipt are all verified, and P3:1 and P3:13 are completed |
| Orchestration.HandoffIsRetainedAfterMutation | crates/frametime-domain/src/orchestration.rs:457-491 | A recovery plan retains the handoff exactly when it claims a compensation |
| PhaseOneReadiness.ReadinessCharacterised | crates/frametime-domain/src/orchestration.rs:351-368 | From disjoint progress, after a successful live run over the Phase 1 engine steps, readiness holds exactly when no step but P1:2 and P1:9 stands as an advisory |
| Migration.MigrationAgreesWithOptimize | crates/frametime-domain/src/migration.rs:69-142 | In normal boot migration does not refuse exactly when the live optimize guard grants and neither an incomplete runtime nor an armed state stands |
| GuardMeaning.MigrationMeans | crates/frametime-domain/src/migration.rs:69-142 | The decision for every state, progress and inventory: the first armed mechanism is named, anything beyond Phase 1 or unproved is refused, else the Phase 1 steps completed and skipped are counted for confirmation |
| Handoff.TransitionsAreForward | crates/frametime-domain/src/handoff.rs:100-108 | A transition is allowed exactly to recovery or one stage forward |
| Handoff.StageTextRoundTrip | crates/frametime-domain/src/handoff.rs:76-97 | A persisted stage text survives parse and print |
| RebootProtocol.EveryRunIsSafe | crates/frametime-domain/src/handoff.rs:239-260 | Over every run of commands cut at any write, crashes and reboots: the invariant holds, the transaction keeps its identity and its stage never moves back |
| RebootProtocol.OneSessionThroughout | crates/frametime-windows/src/reboot/handoff.rs:84-240 | Once a session armed the transaction, whatever ran, crashed and rebooted since: only its user from its runtime hands over to Phase 3 and clears the entry, and only its runtime leaves Safe Mode |
| RebootProtocol.LaterCommandsNeed | crates/frametime-windows/src/reboot/handoff.rs:84-240 | What those commands ask beyond their guards: runtime and stage, the initiating user, completed removal, a bundle that reads back |
| CommandMeaning.ArmExactly | crates/frametime-windows/src/reboot/handoff.rs:14-80 | P1:38 is taken exactly in normal boot over truthful evidence, from a ready Phase 1 without a transaction, by a canonical user and a complete runtime |
| CommandMeaning.ClearSafeBootExactly | crates/frametime-windows/src/reboot/handoff.rs:84-117 | P2:1 is taken exactly in Safe Mode with safe boot and both startup entries in place, P1:38 completed, no Phase 2 step touched, at the armed stage, by the runtime that armed |
| CommandMeaning.CleanDriversExactly | crates/frametime-domain/src/orchestration.rs:180-211 | P2:2 is worked exactly in Safe Mode with safe boot gone, after P2:1, at stage phase2SafeMode |
| CommandMeaning.ArmPhaseThreeExactly | crates/frametime-windows/src/reboot/handoff.rs:121-162 | P2:3 is taken exactly there too, after P2:2 and a complete removal, by the user and runtime that armed |
| CommandMeaning.PhaseThreeRunExactly | crates/frametime-domain/src/orchestration.rs:213-227 | Phase 3 is worked exactly in normal boot with runtime, Run entry and user verified, Phase 2 completed, at stage phase3Armed |
| CommandMeaning.CaptureFinalExactly | crates/frametime-domain/src/orchestration.rs:229-243 | The final benchmark is captured exactly under the same evidence at one of the last two stages, when the reconciliation accepts it |
| CommandMeaning.ClearRunExactly | crates/frametime-windows/src/reboot/handoff.rs:202-240 | The Phase 3 entry is cleared exactly at phase3Complete, with entry and user verified, P3:1 and P3:13 completed and a bundle that reads back, by the user and runtime that armed; nothing else changes |
| RebootProtocol.HandoffOutlivesEveryRun | crates/frametime-app/src/workflow.rs:184-293 | From a fresh machine: the Phase 3 entry is gone after P2:3 only with P3:1, P3:13 and the receipt persisted; past the first stage no reboot enters Safe Mode |
| RebootProtocol.RemainingGrantMeans | crates/frametime-domain/src/orchestration.rs:180-211 | The rest of Phase 2 is granted only in Safe Mode, safe boot really absent, stage phase2SafeMode |
| RebootProtocol.StepOneGrantMeans | crates/frametime-domain/src/orchestration.rs:180-211 | P2:1 is granted only in Safe Mode with safe boot and entry really present, from the armed stage |
| RebootProtocol.PhaseThreeGrantMeans | crates/frametime-domain/src/orchestration.rs:213-227 | Phase 3 is granted only in normal boot, at its stage, with all three Phase 2 steps completed and none skipped |
| RebootProtocol.WorkOnlyAdds | crates/frametime-domain/src/engine.rs:169-307 | Engine work completes only steps of its own phase and kind and un-completes none |
| RebootCrashes.ArmingCrashPoints | crates/frametime-windows/src/reboot/handoff.rs:14-80 | Arming can be repeated exactly until the transaction is persisted, Phase 2 starts after a restart exactly when progress was persisted too; a crash between leaves the machine stuck |
| RebootCrashes.ClearingCrashPoints | crates/frametime-windows/src/reboot/handoff.rs:84-117 | P2:1 can be resumed before its first write and after its last; in between the machine is stuck |
| RebootCrashes.HandingOverCrashPoints | crates/frametime-windows/src/reboot/handoff.rs:121-162 | P2:3 can be resumed exactly until its stage is persisted and Phase 3 starts exactly when its progress is; in between the machine is stuck |
| RebootCrashes.FinalCrashPoints | crates/frametime-domain/src/orchestration.rs:229-262 | The final benchmark is granted again at every crash point; its handoff may be cleared exactly after the last write, once the receipt is read back |
| RebootCrashes.StuckStopsMigration | crates/frametime-domain/src/migration.rs:69-130 | On a stuck machine migration refuses too |
| DriverModel.ValidatePackageSet | crates/frametime-domain/src/driver/evidence.rs:37-53 | The validation loop equals the check of packages in order |
| DriverModel.FromUnsortedIsExact | crates/frametime-domain/src/driver/evidence.rs:24-53 | An inventory forms a canonical set exactly when the GPU and every package are valid and names are distinct; the result is a strictly sorted permutation |
| DriverModel.FromUnsortedIgnoresOrder | crates/frametime-domain/src/driver/evidence.rs:24-35 | Permuted inventories are both refused or give the one same set |
| DriverModel.ValidatePlanInput | crates/frametime-domain/src/driver/plan.rs:65-80 | The validation loop equals its specification |
| DriverModel.PlanIgnoresPackageOrder | crates/frametime-domain/src/driver/plan.rs:128-180 | Permuted inventories are both rejected or give the identical plan and fingerprint |
| DriverModel.GeneratedPlanIsValid | crates/frametime-domain/src/driver/plan.rs:96-180 | A generated plan is valid, plans exactly the installed names, and lists a canonical set |
| DriverModel.PlanIsGeneratedExactly | crates/frametime-domain/src/driver/plan.rs:65-180 | A plan is generated exactly for a consistent GPU, some packages, all of them and the signed artifact the GPU's, and distinct names; its four entries carry that GPU, those packages, their names and that artifact |
| DriverModel.PlanIsAcceptedExactly | crates/frametime-domain/src/driver/plan.rs:96-124 | A stored plan is accepted exactly read-only, for a consistent GPU, with P1:18, P1:19, P2:2 and P3:1 in order |
| DriverModel.CanonicalSetMeans | crates/frametime-domain/src/driver/evidence.rs:37-53 | A set is canonical exactly for a consistent GPU, with packages of that GPU only and strictly ascending names |
| DriverRemoval.RemovalStartedIsExact | crates/frametime-domain/src/driver/adapters.rs:254-303 | The progress check passes exactly when live records are part of the capture and agree with the store; false exactly for the whole, true exactly for a proper part |
| DriverEvidence.FreshnessMeans | crates/frametime-domain/src/driver/evidence.rs:132-151 | A time is fresh exactly when it is known, not in the future, and no older than the maximum age, which must be positive |
| DriverEvidence.CaptureIsAcceptedExactly | crates/frametime-domain/src/driver/evidence.rs:168-203 | A capture is accepted exactly for its plan and GPU, a canonical inventory of the planned names, digests that fit, and Safe Mode confirmed for that GPU before the capture and within the age limit |
| DriverEvidence.ResumeIsAcceptedExactly | crates/frametime-domain/src/driver/evidence.rs:97-122 | A resume observation is accepted exactly when it confirms Safe Mode for the captured GPU, is no older than the capture, and is fresh |
| DriverEvidence.EvidenceIsAcceptedExactly | crates/frametime-domain/src/driver/evidence.rs:352-402 | Evidence of a removal is accepted exactly with an accepted capture and resume, one unfailed outcome per captured package timed after authorization, and an inventory without them |
| DriverExecution.AuthorizeStart | crates/frametime-domain/src/driver/adapters.rs:227-248 | A start passes only with an accepted capture that is within the age limit of the clock just read, and then does |
| DriverExecution.AuthorizeResume | crates/frametime-domain/src/driver/adapters.rs:308-344 | A resume passes only with Safe Mode confirmed anew within the age limit of the clock just read, and then does |
| DriverExecution.CapturedPackageRemovalStarted | crates/frametime-domain/src/driver/adapters.rs:254-303 | The adapter loops give that answer, or an error, and exactly it when no call fails |
| DriverExecution.OneWayOnAfterAnyCrashes | crates/frametime-domain/src/driver/adapters.rs:227-344 | After any number of interrupted attempts exactly one entry point passes: start while nothing is lost, resume from then on |
| DriverExecution.RemoveEach | crates/frametime-domain/src/driver/adapters.rs:354-357 | The removal loop loses only captured packages, name and record together, whatever fails |
| DriverExecution.ExecuteRemoval | crates/frametime-domain/src/driver/adapters.rs:346-381 | Success evidence is valid and no captured package is left; with steady, timely adapters it succeeds and empties the inventory |
| DriverExecution.RemoveCapturedPackages | crates/frametime-domain/src/driver/adapters.rs:227-248 | Start touches nothing unless the whole capture is live, Safe Mode was confirmed for its GPU, and the capture is within the age limit of the clock just read; Ok means valid evidence and no captured package left |
| DriverExecution.ResumeCapturedPackageRemoval | crates/frametime-domain/src/driver/adapters.rs:308-344 | Resume touches nothing unless part of the capture is lost and Safe Mode is confirmed anew, after the capture and within the age limit of the clock just read |
| DriverExecution.CaptureDriverExecution | crates/frametime-domain/src/driver/adapters.rs:181-223 | A capture holds the live inventory under the Safe Mode just observed and confirmed for the plan, is timed by the clock just read, is valid for its plan, and can be started |
| DriverExecution.EvidenceIsAccepted | crates/frametime-domain/src/driver/evidence.rs:351-418 | Evidence of a finished removal passes every evidence check |
| AutoexecText.BuildAutoexec | crates/frametime-domain/src/cs2.rs:48-74 | The appending method equals the bootstrap function |
| AutoexecText.EnsureIsIdempotent | crates/frametime-domain/src/cs2.rs:48-74 | Bootstrapping twice is bootstrapping once |
| AutoexecText.ExistingTextIsAPrefix | crates/frametime-domain/src/cs2.rs:48-81 | Existing text stays a prefix, and nothing changes exactly when a line already runs the command |
| AutoexecText.LinesSurviveUnlessOpenCr | crates/frametime-domain/src/cs2.rs:48-74 | Every line survives exactly unless a line is appended to a text ending in a bare carriage return |
| AutoexecText.OpenCrIsLost | crates/frametime-domain/src/cs2.rs:48-74 | Such a text and the line it loses |
| AutoexecText.AutoexecIsStable | crates/frametime-domain/src/cs2.rs:48-74 | The bootstrap of optimization.cfg is idempotent and keeps its input as prefix |
| CfgTargets.FileNamesDiffer | crates/frametime-domain/src/cs2_config/targets.rs:95-104 | No two targets share a file name |
| CfgFiles.ManagedFilesAreApart | crates/frametime-domain/src/cs2_config/controller.rs:388-401 | Targets and the two sidecars are different files |
| CfgController.TargetsAreExactlySelected | crates/frametime-domain/src/cs2_config/targets.rs:33-51 | The write set of a request is each selected target once and no other |
| CfgFiles.WriteAndVerify | crates/frametime-domain/src/cs2_config/transaction.rs:5-34 | A replace leaves old or new content, success means new |
| CfgFiles.CreateSidecar | crates/frametime-domain/src/cs2_config/safe_backup.rs:114-191 | A sidecar is created from the original once and retained ever after; a created one holds the original exactly when its creating call was not torn to other bytes |
| CfgFiles.TornSidecarIsRetained | crates/frametime-domain/src/cs2_config/safe_backup.rs:114-146 | After a creation torn to other bytes the next attempt keeps the torn bytes, whatever its own faults, and reports the sidecar retained when none occurs |
| CfgOperations.Apply | crates/frametime-domain/src/cs2_config/controller.rs:77-167 | Success yields exactly the specified files, a true report and verified files; stopping anywhere leaves one of the listed disks, so each file old or new, both sidecars kept and nothing else changed |
| CfgOperations.ApplyCore | crates/frametime-domain/src/cs2_config/controller.rs:94-150 | The same for the optimization file and the bootstrap |
| CfgOperations.Verify | crates/frametime-domain/src/cs2_config/controller.rs:172-200 | Passes only on verified files, and on all of them when no call fails |
| CfgController.AppliedIsVerified | crates/frametime-domain/src/cs2_config/controller.rs:77-200 | A complete apply satisfies verification of the same request |
| CfgController.AppliedEverywhere | crates/frametime-domain/src/cs2_config/controller.rs:77-167 | What a complete apply leaves at every path: rendered file, bootstrap over the text that was there, selected assets, a sidecar of each replaced file unless one exists, everything else as it was |
| CfgOperations.ApplyOptionalAssetsIfUnchanged | crates/frametime-domain/src/cs2_config/controller.rs:247-283 | Compare and swap: only targets that still hold their captured content are written, in order |
| CfgOperations.RestoreTargets | crates/frametime-domain/src/cs2_config/controller.rs:310-352 | Success yields every captured original or absence; stopping anywhere leaves a prefix restored |
| CfgOperations.RestoreUndoes | crates/frametime-domain/src/cs2_config/controller.rs:310-352 | Restoring undoes any change confined to the captured targets and leaves sidecars as they are |
| CfgOperations.RestoreKeepsSidecars | crates/frametime-domain/src/cs2_config/controller.rs:310-352 | Restoring any prefix of any originals leaves every file that is no target alone |
| CfgOperations.SidecarKeepsTheFirstOriginal | crates/frametime-domain/src/cs2_config/safe_backup.rs:114-191 | Over any history of applies, restores and optional deployments stopped anywhere, with changes away from the sidecars in between: a sidecar that appears holds at every later point what its file held just before the step that made it, exactly unless that creation was torn to other bytes |
| CfgOperations.SidecarStaysForEver | crates/frametime-domain/src/cs2_config/safe_backup.rs:114-191 | Over any such history a sidecar that exists, torn or not, is the same at every later point |
| CfgOperations.ApplyStopsKeepsSidecars | crates/frametime-domain/src/cs2_config/controller.rs:77-167 | Every disk at which an apply can stop keeps an existing sidecar and makes a new one a copy exactly unless torn |
| CfgTransaction.CaptureTargets | crates/frametime-domain/src/backup/cs2_config.rs:308-355 | Captures exactly the files, within 1 MiB each and 8 MiB in all, exactly when they fit |
| CfgTransaction.ValidateSnapshotTargets | crates/frametime-domain/src/backup/cs2_config.rs:390-457 | The validation loops equal their specification |
| CfgTransaction.ValidationIsExact | crates/frametime-domain/src/backup/cs2_config.rs:390-457 | A snapshot list passes exactly when it is the expected targets in order, each well formed, within the limits |
| CfgTransaction.TransactionIsAcceptedExactly | crates/frametime-domain/src/backup/cs2_config.rs:156-264 | A P1:34 transaction passes exactly for its install and the targets of its request, each with its digest and within the limits |
| CfgTransaction.OptionalIsAcceptedExactly | crates/frametime-domain/src/backup/cs2_config.rs:238-294 | An optional transaction passes exactly for its install, without unknown fields, and for the one selection its targets are |
| CfgTransaction.CaptureConfig | crates/frametime-domain/src/backup/cs2_config.rs:114-131 | A captured transaction validates and holds of the files |
| CfgTransaction.RestoreConfig | crates/frametime-domain/src/backup/cs2_config.rs:183-209 | Restore refuses invalid or unknown transactions untouched and otherwise yields the captured originals |
| CfgTransaction.InterruptedApplyIsUndone | crates/frametime-domain/src/backup/cs2_config.rs:183-236 | Captured, applied with any failure, restored: every path but the sidecars is as before |
| CfgTransaction.ApplyOptional | crates/frametime-domain/src/backup/cs2_config.rs:225-236 | An optional transaction is applied only over the captured content |
| CfgTransaction.RestoreOptional | crates/frametime-domain/src/backup/cs2_config.rs:211-221 | An optional transaction restores its captured originals |
| CfgTransaction.InterruptedOptionalApplyIsUndone | crates/frametime-domain/src/backup/cs2_config.rs:211-236 | Captured, applied with any failure, restored: the whole file map is as before |
| VdfLexing.VdfLexer.Tokens | crates/frametime-domain/src/steam.rs:128-145 | The token loop equals the lexing function |
| VdfLexing.VdfLexer.SkipSpaceAndComments | crates/frametime-domain/src/steam.rs:146-167 | The skipping loops equal the layout function |
| VdfLexing.VdfLexer.ReadQuoted | crates/frametime-domain/src/steam.rs:168-189 | The quoted-text loop equals its function |
| VdfLexing.VdfLexer.EscapedChar | crates/frametime-domain/src/steam.rs:191-202 | Only quote and backslash may be escaped |
| VdfGrammar.LexReadsPrinted | crates/frametime-domain/src/steam.rs:128-203 | Lexing a token list printed in any layout gives it back |
| VdfGrammar.LexerAcceptsExactlyThePrinted | crates/frametime-domain/src/steam.rs:128-203 | A text lexes to tokens exactly when it is a layout of them |
| VdfParsing.TokenReader.ParseObject | crates/frametime-domain/src/steam.rs:64-107 | The recursive parser over the shared cursor equals its function |
| VdfParsing.ParseVdfText | crates/frametime-domain/src/steam.rs:54-62 | Lexer and parser together equal the parse function; trailing tokens cannot occur |
| VdfParsing.ParserAcceptsExactlyTheFlattened | crates/frametime-domain/src/steam.rs:64-107 | Tokens parse to t exactly when they flatten an ordered tree without duplicate keys whose unordered form is t |
| VdfParsing.FlattenIsInjective | crates/frametime-domain/src/steam.rs:64-107 | A token list is at most one ordered tree |
| VdfParsing.DuplicateKeysAreRefused | crates/frametime-domain/src/steam.rs:64-107 | A flattened tree parses exactly when no key occurs twice in one object |
| Vdf.ParseUndoesPrint | crates/frametime-domain/src/steam.rs:54-62 | Printing a tree of ASCII text without NUL in any field order and layout, then parsing, returns it |
| Vdf.ParserAcceptsExactlyThePrinted | crates/frametime-domain/src/steam.rs:49-203 | A text parses to t exactly when t is printable and the text writes it |
| Vdf.EveryPrintableTreeHasAText | crates/frametime-domain/src/steam.rs:49-62 | Every printable tree is the parse of some text |
| Vdf.LibraryPathsComeInKeyOrder | crates/frametime-domain/src/steam.rs:23-38 | Library paths come in key order, however the text orders fields: a plain text gives itself, an object what its "path" entry holds if that is a text, and nothing otherwise |
| Vdf.NoLibraryFoldersNoPaths | crates/frametime-domain/src/steam.rs:23-38 | A text whose root holds no libraryfolders object gives no path |
| Vdf.ManifestIsRecognisedInAnyLayout | crates/frametime-domain/src/steam.rs:41-46 | A text is the CS2 manifest exactly when it writes a tree naming the CS2 app |

## Left out

- RunReport events and plan text: the trace records the same calls in the same order; message texts of errors are constructors here.
- Native effects behind the adapters (registry, BCD, services, signatures, process launch): only their stated effect on the modelled state, with arbitrary failure.
- Decoding of JSON and TOML, SHA-256, UTF-8 and VProf text: values start decoded, digests are uninterpreted functions, file content is a UTF-8 text or not one.
- Unknown-field maps: one flag where the code looks at them, nothing otherwise.
- Fps.MeasuredCapRefinesAggregateCap: real numbers instead of IEEE doubles, so overflow and NaN are not modelled.
- One-shot field validators (SID, runtime record, config, driver text fields, artifact locator): booleans carried by the value.
- Timestamps in driver evidence: seconds or none, the RFC 3339 conversion is not modelled.
- UndoLog.ReplayRestores: restoring is a write of the recorded original; a restore that itself fails part way is not modelled, nor that the native restorer refuses the adapter property, QoS, Defender and page-file setting entries of older files.
- EngineUndo.LogUndoesEverything: the power-plan merge that the live backend adds for P1:6 is not part of the batch push.
- VdfLexing.VdfLexer.Tokens: works on characters instead of UTF-8 bytes; a character beyond ASCII is an error or comment text either way.
- DriverModel.FromUnsortedIsExact: unknown extension fields of packages are part of the uninterpreted record text.
- RebootProtocol.EveryRunIsSafe: inspection may be unavailable but does not lie, the three files are changed by the protocol's commands only, and commands do not run concurrently (they hold one lock).
- Path safety of CFG targets: the write set consists of fixed file names, so the lexical checks always pass; `preview` and the unconditional optional deployment add nothing over `apply`.
- Artifact acquisition and installation evidence, driver lifecycle records, GUI, command line, cleanup, logging and latency history.
