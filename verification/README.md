# A verified model of the Jackery SolarVault integration

This project models the stateful core of the Jackery SolarVault integration for Home Assistant in
Dafny and proves what that core keeps over every frame, every run and every interleaving. Running
`dafny verify dfyconfig.toml` checks all of it.

Six parts are modelled. Source paths below are relative to the root of the integration's repository.

1. **The ingest gate** (`ingest.py`). Every transport feeds nested JSON frames through one gate,
   which merges them field by field and keeps a map of who delivered each field. JSON is a recursive
   datatype (`Json`), a nested field is a path. `LiveMerge` is the plain live merge, `IngestRule` the
   decision rule stated path by path, `IngestGate` the loops of the source that change the merged
   object and the shared provenance table in place, proved equal to that rule for every order of
   keys. `IngestStep`, `IngestRuns`, `IngestSources`, `IngestConvergence` and `IngestLaws` hold the
   results.
2. **The entry lifecycle** (`__init__.py`). Setup, rollback, unload, bounded shutdown and the reaper
   are a step system whose actions are the blocks between two awaits (`Lifecycle`); the environment
   chooses timeouts, failures and cancellations. `EntryRuntime` is the same code as methods that
   change the runtime dictionary in place and keep its invariant, and `LifecycleProgress` shows that
   the entry never gets stuck.
3. **Listener, option changes and deferred cleanup** (`__init__.py`, `config_flow.py`).
   `DeferredList` and `CleanupRuns` model the cleanup lists, `Listener` the local MQTT client slot and
   its lock, `JointRuns` the listener together with the lifecycle, `OptionReconcile` the options form,
   the readbacks and the coalescing reconcile task, `OptionFields` what each handler stores and
   schedules key by key, `OptionPush` what is pushed to the device.
   `ListenerRuntime` and `OptionRuntime` are the handlers in place, and `ListenerProgress` shows that
   a listener can always be brought back (`Reachability` is shared by the two progress results).
4. **Battery-pack identities** (`__init__.py`, `util.py`). `SerialKeys` is the key function,
   `PackOrder` the sorting, `PackIdentity`, `PackBlankSerials` and `PackSeeding` the two-pass index
   allocator, `EntityRegistry` the registry rewrites, `PackMigration` the choice among devices that claim one
   serial.
5. **Value guards** (`guards.py`). `Guards` models the lifetime-total guard and the counter guard
   over real numbers.
6. **The mandatory-tool gate** (`scripts/mandatory_tool_gate.py`). `ToolGate` models receipts, their
   revocation and the decision.

Some statements that the code or its documentation suggests are false of the code. Each has a lemma
with the exact condition or an input that shows it:

- `ingest_observation` has no blank check at the top level, although `is_blank` promises that a blank
  never overwrites a populated field: `IngestLaws.GateIsMergeExactly`, `IngestLaws.GateBlanksExactly`.
- Inner objects keep their first owner, so a fresh nested field can be removed by a lower tier that
  replaces an object around it: `IngestRuns.FreshLeafSurvivesExactly`,
  `IngestRuns.FreshNestedFieldCanBeLost`.
- Merging frames in batches is safe for frames of one shape, and not in general:
  `LiveMerge.BatchingRemembers`, `LiveMerge.MergeNotAssociativeAcrossShapes`.
- A changed option is not always reconciled. The update callback of a readback compares with a
  snapshot that a form submitted in between has already overwritten, so that an address the device
  reports can miss the listener for good: `OptionReconcile.ReadbackDrainedExactly`,
  `OptionReconcile.OvertakenReadbackIsLost`, `OptionReconcile.ReadbackCanBeLost`. What a form changes in place
  is always drained, and pushed if it configures the device: `OptionReconcile.SubmittedKeysAreDrained`,
  `OptionPush.SubmittedSettingsArePushed`.
- A form that was submitted without a change stores its defaults, and the next readback has them
  pushed to the device: `OptionPush.FilledInDefaultIsPushed`.
- A rollback or unload whose shutdown is not done in time is promised to be finished in the background.
  It is, exactly if no reaper of another coordinator was at work; otherwise it waits for the next
  setup: `LifecycleProgress.ReleasedWithoutSetupExactly`.
- A deferred resource is dropped if it is deferred again after the running cleanup pass has judged it
  stopped: `CleanupRuns.LostExactly`, `CleanupRuns.ReopenedIsLost`.
- The distinctness check of identity seeding compares keys, but the key of a serial without letters
  and digits depends on the index it is tried at: `PackBlankSerials.OneKeyPerIndexExactly`. The branch
  that prefers a free stored index (`__init__.py:3059-3061`) is unreachable: stored indices are never
  in the free list, which `PackSeeding.Coordinator.SeedLive` proves where the branch stands.
- Of several candidates for one serial not only the lowest index can migrate: a device that is already
  registered under the target does, in every order, and it is the only exception:
  `PackMigration.OutrankedOwnsTarget`, `PackMigration.TargetOwnerMigrates`,
  `PackMigration.HigherTwinMigrates`.
- The lifetime total is documented as never lowered, but the tolerance lets it fall:
  `Guards.LoweredExactly`, `Guards.LifetimeTotalCanDrop`, `Guards.DriftIsReached`. The counter guard
  behind it is what keeps the entity from falling.
- The current year's generation is documented as a lower bound of the total, but it is ignored while
  the raw total is missing or within the tolerance: `Guards.BelowBoundExactly`,
  `Guards.MissingTotalIgnoresYear`.

## Model

| member | source | states |
|---|---|---|
| LiveMerge.MergeLiveProperties | custom_components/jackery_solarvault/ingest.py:139-167 | The loop over the update computes the recursive, update-wins, blank-preserving merge, whatever the order of keys. |
| LiveMerge.MergeActsOnSlots | custom_components/jackery_solarvault/ingest.py:139-167 | On frames of one shape the recursive merge decides each path on its own: the update's leaf wins unless it is blank and the base's is not. |
| LiveMerge.MergeAssociative | custom_components/jackery_solarvault/ingest.py:139-167 | Frames of one shape may be merged in batches before they reach the state. |
| LiveMerge.BatchingRemembers | custom_components/jackery_solarvault/ingest.py:159-166 | Whenever a frame in the middle replaces an object and the last brings one again, batching the last two brings back fields of the first. |
| LiveMerge.MergeNotAssociativeAcrossShapes | custom_components/jackery_solarvault/ingest.py:159-166 | Without a common shape, batching can change the outcome. |
| LiveMerge.MergeIdempotent | custom_components/jackery_solarvault/ingest.py:139-167 | Delivering a frame again directly after itself has no effect, for all shapes. |
| LiveMerge.MergeNeverBlanks | custom_components/jackery_solarvault/ingest.py:130-167 | A populated value at any depth stays populated, or an object around it was replaced as a whole by a populated value; it never becomes blank. |
| IngestGate.OwnerTable.DropDescendants | custom_components/jackery_solarvault/ingest.py:290-298 | Exactly the nested entries at or below the path leave the table. |
| IngestGate.MergeNestedWithProvenance | custom_components/jackery_solarvault/ingest.py:232-287 | The recursive loop, which shares one table with all its calls, yields the object, the verdict and the owners of the path-by-path rule in every order of keys. |
| IngestGate.IngestField | custom_components/jackery_solarvault/ingest.py:351-400 | One top-level field: value, acceptance and owners as the rule says, including supplementing a protected object. |
| IngestGate.IngestObservation | custom_components/jackery_solarvault/ingest.py:301-406 | The whole gate equals one step of the run model, and its accepted fields are those of the rule; the rows of `IngestSources` say what that step does source by source. |
| IngestStep.StepOutcome | custom_components/jackery_solarvault/ingest.py:232-298 | For every frame and state each path is either untouched, taken over with the sender as owner, or gone without owner; owner and value always change together. |
| IngestStep.StepLeafRule | custom_components/jackery_solarvault/ingest.py:183-219 | When no object turns into a value or back, each leaf follows its own owner, tier, window, timestamp and blankness alone. |
| IngestStep.FreshObject | custom_components/jackery_solarvault/ingest.py:267-279 | An object put in place of something else arrives whole and its sender owns all of it. |
| IngestStep.ProtectedLeafFate | custom_components/jackery_solarvault/ingest.py:183-287 | A protected populated leaf keeps value and owner, unless the frame replaces an object around it that its own owner does not protect; then it is gone. |
| IngestRuns.OwnersAreExactlyThePaths | custom_components/jackery_solarvault/ingest.py:232-400 | In every run from the empty state, with arbitrary shape changes and blanks, the recorded owners are exactly those of the paths in the payload. |
| IngestRuns.OwnersDelivered | custom_components/jackery_solarvault/ingest.py:232-400 | In every run the recorded owner of a path is an observation that carried exactly what stands there. |
| IngestRuns.FreshLeafIsProtected | custom_components/jackery_solarvault/ingest.py:183-219 | No sequence of frames that are lower tier within the window, or older by timestamp, changes a populated leaf or its owner, if they keep the objects above it objects. |
| IngestRuns.FreshLeafSurvivesExactly | custom_components/jackery_solarvault/ingest.py:232-287 | For an arbitrary such frame the leaf survives if and only if no enclosing object is replaced. |
| IngestRuns.FreshNestedFieldCanBeLost | custom_components/jackery_solarvault/ingest.py:247-258 | Three frames after which a fresh Bluetooth field is removed by a cloud frame inside the window. |
| IngestConvergence.NewestFrameWins | custom_components/jackery_solarvault/ingest.py:183-406 | Without a window, each path holds what the newest observation carrying it said. |
| IngestConvergence.RunsConverge | custom_components/jackery_solarvault/ingest.py:183-406 | Two runs that received the same timestamped observations, in any order and with any repetition, end with the same payload. |
| IngestSources.LeafIsReplacedExactly | custom_components/jackery_solarvault/ingest.py:59-219 | Source by source: a populated leaf keeps value and owner exactly if the frame is late, is older by timestamp, or comes from HTTP, cloud MQTT or local MQTT against Bluetooth, or from HTTP against either MQTT, inside the window; otherwise value and sender are those of the frame. |
| IngestSources.WaitingSourcesChangeNothing | custom_components/jackery_solarvault/ingest.py:59-219 | Inside its window a Bluetooth value survives every sequence of HTTP and MQTT frames that keep its objects, and an MQTT value every such sequence of HTTP frames. |
| IngestSources.MqttReplacesMqtt | custom_components/jackery_solarvault/ingest.py:59-219 | Cloud and local MQTT are equals: a frame of either that is neither late nor older takes over a leaf of either, inside the window too. |
| IngestSources.CachedLeafInheritsOwner | custom_components/jackery_solarvault/ingest.py:232-287 | A nested value without an owner of its own is protected by the owner of its object. |
| IngestSources.PeriodicExactly | custom_components/jackery_solarvault/ingest.py:170-180 | A section is periodic exactly if one of the known names ends at its end or before an underscore. |
| Json.BlankExactly | custom_components/jackery_solarvault/ingest.py:116-136 | Blank are exactly nothing, the empty list, the empty object and a string of white space; zero and false are not. |
| IngestLaws.StaleFrameFillsGaps | custom_components/jackery_solarvault/ingest.py:170-203 | A stale live frame has the effect of merging the current payload over it, up to exchanging blanks, also across shape changes. |
| IngestLaws.StaleFrameKeepsPopulated | custom_components/jackery_solarvault/ingest.py:190-203 | A stale live frame changes no populated value. |
| IngestLaws.GateIsMergeExactly | custom_components/jackery_solarvault/ingest.py:359-400 | Without window and timestamp the gate equals the plain merge if and only if no blank top-level value meets a populated one. |
| IngestLaws.GateBlanksExactly | custom_components/jackery_solarvault/ingest.py:359-400 | A populated top-level field turns blank exactly when a blank arrives that its owner does not fend off. |
| IngestLaws.AcceptedFieldsFrameEverything | custom_components/jackery_solarvault/ingest.py:333-406 | A field outside `accepted_fields` keeps its value and all owners at and below it. |
| IngestLaws.AcceptedFieldsWereTaken | custom_components/jackery_solarvault/ingest.py:333-406 | Each accepted field has a path that the frame carries and its sender owns afterwards. |
| Lifecycle.SingleRuntime | custom_components/jackery_solarvault/__init__.py:2512-2560 | In every run a new coordinator is constructed only when every earlier one has been shut down successfully. |
| Lifecycle.AtMostOneLiveCoordinator | custom_components/jackery_solarvault/__init__.py:1155-1188 | At any time at most one coordinator has not been shut down. |
| Lifecycle.StoppedByOwnTask | custom_components/jackery_solarvault/__init__.py:2020-2113 | A coordinator counts as shut down only when one of its own shutdown tasks succeeded. |
| Lifecycle.AtMostOneShutdownRunning | custom_components/jackery_solarvault/__init__.py:1879-2017 | At most one shutdown task of the entry is unfinished at any time. |
| Lifecycle.FenceFallsOnlyAfterShutdown | custom_components/jackery_solarvault/__init__.py:2125-2141 | The unload fence of a coordinator falls only once that coordinator has been shut down. |
| Lifecycle.LateCompletionIsHarmless | custom_components/jackery_solarvault/__init__.py:2125-2247 | While a coordinator is being set up or is loaded it owns the entry, and no late task or reaper changes its fence, runtime or primary mark. |
| Lifecycle.ReaperKeepsForeignRecord | custom_components/jackery_solarvault/__init__.py:2144-2187 | A reaper never clears the shutdown record of another coordinator. |
| Lifecycle.OwnershipIsNotRegained | custom_components/jackery_solarvault/__init__.py:483-495 | A coordinator that has lost the entry never owns it again. |
| Lifecycle.OwnershipEnvironment | custom_components/jackery_solarvault/__init__.py:483-495 | Ownership is only lost or passed from nobody to a new coordinator: the environment that the listener and option models assume. |
| Lifecycle.WaitEndsExactly | custom_components/jackery_solarvault/__init__.py:2067-2113 | However a bounded wait ends: cancelled or unfinished it keeps all references and leaves a reaper, for this coordinator and task if there was none; finished it drops the references to this coordinator alone, unless the cleanup raises. |
| Lifecycle.ShutdownBeginsExactly | custom_components/jackery_solarvault/__init__.py:2020-2066 | Rollback and unload reuse the task recorded for their coordinator or start and record one, and wait for it each in its own way; the unfinished task of another coordinator ends them at once. |
| Lifecycle.ReaperResumesExactly | custom_components/jackery_solarvault/__init__.py:2190-2237 | After its task the reaper drops the references to its coordinator, and only those, exactly after an undisturbed success; otherwise it retries after a pause exactly if the coordinator is still fenced or the runtime. |
| Lifecycle.ReaperWakesExactly | custom_components/jackery_solarvault/__init__.py:2160-2187 | After the pause the reaper follows the task then on record for its coordinator, starts a new one exactly if that is the one that failed, and ends if the record is gone or another's. |
| Lifecycle.LoadedCoordinatorStays | custom_components/jackery_solarvault/__init__.py:3844-3862 | Setup marks its own coordinator; fencing ends ownership at once; a failed unload of the platforms leaves the coordinator in charge. |
| Lifecycle.CallsKeepReferences | custom_components/jackery_solarvault/__init__.py:3844-3912 | The calls move from phase to phase; a setup, rollback or unload that fails in its own phase keeps fence, record and references. |
| LifecycleProgress.SetupIsNeverStuck | custom_components/jackery_solarvault/__init__.py:1155-1188 | After any run, when no call is in progress and shutdowns succeed from now on, some continuation without cancellations constructs a coordinator. |
| LifecycleProgress.ReleasedWithoutSetupExactly | custom_components/jackery_solarvault/__init__.py:1980-2237 | After a rollback or unload whose wait was cancelled or ran out, shutdown task and reaper alone can reach a state where fence, runtime, primary mark and record no longer name the coordinator, if and only if no reaper was at work before. |
| EntryRuntime.Entry.OwnShutdownTask | custom_components/jackery_solarvault/__init__.py:2020-2066 | Reuses the recorded task of the same coordinator, creates one, or reports that another coordinator's unfinished task blocks it. |
| EntryRuntime.Entry.BeginSetupCall | custom_components/jackery_solarvault/__init__.py:1155-1175 | Setup goes on only when every coordinator has been shut down; otherwise it waits for the fenced coordinator's own recorded task, or another coordinator's task is unfinished. |
| EntryRuntime.Entry.Construct | custom_components/jackery_solarvault/__init__.py:2537-2560 | When a coordinator is constructed, all earlier ones have been shut down, and it becomes the runtime. |
| EntryRuntime.Entry.BeginShutdownCall | custom_components/jackery_solarvault/__init__.py:3862-3876 | Afterwards the coordinator's own task is on record or another one's is unfinished, and the coordinator is fenced or stopped. |
| EntryRuntime.Entry.EndWaitCall | custom_components/jackery_solarvault/__init__.py:2067-2113 | The ends of the bounded wait, field by field: cancelled or unfinished, a reaper exists afterwards, for this coordinator and task if there was none, and nothing is released; finished, exactly the references to this coordinator go. |
| EntryRuntime.Entry.ResumeReaperTask | custom_components/jackery_solarvault/__init__.py:2190-2237 | The reaper releases only its own coordinator and only after its shutdown, and does not give up on it while it is fenced. |
| EntryRuntime.Entry.WakeReaperTask | custom_components/jackery_solarvault/__init__.py:2160-2187 | After the delay the reaper goes on exactly while its coordinator is on record, with the recorded task, and starts at most one. |
| EntryRuntime.Entry.Perform | custom_components/jackery_solarvault/__init__.py:3844-3912 | Every block between awaits keeps the invariant: construction only when all are stopped, a fence falls only after its shutdown, at most one shutdown is unfinished. |
| DeferredList.Bucket.Append | custom_components/jackery_solarvault/__init__.py:799-812 | A resource is added at the end of its list unless it is already there; other lists stay. |
| DeferredList.Bucket.Reconcile | custom_components/jackery_solarvault/__init__.py:815-857 | The two loops compute the reconciled list, which is not stored when it is empty; other lists stay. |
| DeferredList.ReconciledMembers | custom_components/jackery_solarvault/__init__.py:836-857 | Reconciliation is current minus processed plus retained, without duplicates. |
| DeferredList.ReconciledKeepsOrder | custom_components/jackery_solarvault/__init__.py:836-857 | What stays keeps its relative order. |
| DeferredList.RetainedNewcomersComeLast | custom_components/jackery_solarvault/__init__.py:836-857 | A retained resource that was removed meanwhile returns behind everything that stayed. |
| DeferredList.ConcurrentAppendsSurviveExactly | custom_components/jackery_solarvault/__init__.py:836-857 | A resource appended during a pass is dropped if and only if it was in the snapshot and not retained. |
| CleanupRuns.LostExactly | custom_components/jackery_solarvault/__init__.py:985-1125 | However appends, passes, failed stops and cancellations interleave, a resource is neither listed nor stopped exactly if a pass dropped it that had judged it stopped before it was deferred again. |
| CleanupRuns.NothingDeferredIsLost | custom_components/jackery_solarvault/__init__.py:985-1125 | In runs without such a repeated deferral, whatever was deferred is listed or confirmed stopped. |
| CleanupRuns.UnconfirmedStaysListed | custom_components/jackery_solarvault/__init__.py:985-1125 | A listed resource that no verdict ever confirms stopped stays on the list through all passes, cancellations and appends. |
| CleanupRuns.HistoryIsRecorded | custom_components/jackery_solarvault/__init__.py:985-1125 | Confirmed means judged stopped by a pass since it was last deferred, and nothing else. |
| CleanupRuns.ReopenedIsLost | custom_components/jackery_solarvault/__init__.py:836-857 | The shortest run that drops a resource deferred again. |
| CleanupRuns.CleanPassEmptiesTheList | custom_components/jackery_solarvault/__init__.py:1109-1125 | An undisturbed pass in which everything stops empties the list. |
| Listener.NoClientIsLost | custom_components/jackery_solarvault/__init__.py:726-796 | In every run a started client that is not confirmed stopped is in the slot or deferred. |
| Listener.AtMostOneLiveClient | custom_components/jackery_solarvault/__init__.py:1588-1602 | At most one client is neither stopped nor deferred. |
| ListenerProgress.ListenerIsNeverStuck | custom_components/jackery_solarvault/__init__.py:1730-1876 | After every run that leaves an owner, if the owner stays and stops and starts succeed from now on, a new client can be published, started and kept in the slot. |
| ListenerProgress.SwitchingOffEmptiesSlot | custom_components/jackery_solarvault/__init__.py:1730-1763 | After a reconcile call for a listener that should not run, whatever else happens before the next call, no client is published, and once the awaited stop has ended the slot is empty and the lock free. |
| Listener.ReconcileDecides | custom_components/jackery_solarvault/__init__.py:1730-1876 | With lock free, entry owned and nothing deferred, the client in the slot, and no other, starts being stopped exactly if it should not run or does not match; in every other case without publication nothing changes. |
| Listener.StopsAreAwaited | custom_components/jackery_solarvault/__init__.py:747-796 | Teardown, detaching and replacement each await the stop of their own client; only the replacement publishes afterwards, under its conditions. |
| Listener.StopEndsExactly | custom_components/jackery_solarvault/__init__.py:747-796 | A stop defers its client exactly if the wait ran out or the stop has not succeeded, and touches no other client. |
| Listener.StartEndsExactly | custom_components/jackery_solarvault/__init__.py:1807-1833 | A start that fails or outlives its owner is followed by the stop of the same client. |
| Listener.TeardownClearsSlot | custom_components/jackery_solarvault/__init__.py:747-796 | Rollback and unload stop the client in the slot; afterwards it is out of the slot, and stopped or deferred. |
| Listener.CancelledCleanupKeepsAll | custom_components/jackery_solarvault/__init__.py:1033-1054 | A cancelled cleanup task drops no client and makes room for the next task. |
| Listener.CleanupIsSingleFlight | custom_components/jackery_solarvault/__init__.py:1128-1152 | A cleanup task takes the whole list, and a request while one runs does not restart it. |
| Listener.OwnersAreSeparate | custom_components/jackery_solarvault/__init__.py:483-495 | The listener sees ownership lost, or a new runtime follow a released one whose client has been torn down, and nothing else of it changes with that. |
| Listener.PublicationIsExclusive | custom_components/jackery_solarvault/__init__.py:1730-1876 | A client is published only by the current owner, with nothing deferred and every earlier client confirmed stopped. |
| ListenerRuntime.Entry.FinishStop | custom_components/jackery_solarvault/__init__.py:747-796 | After a stop the client is not in the slot, and it is deferred unless the stop is confirmed. |
| ListenerRuntime.Entry.ReconcileLocked | custom_components/jackery_solarvault/__init__.py:1836-1876 | A client is published exactly if one should run, the entry is owned, and none is in the slot or deferred; then all earlier ones have stopped. A client in the slot is kept exactly if it should run and matches, and is being stopped otherwise. |
| ListenerRuntime.Entry.StartFinished | custom_components/jackery_solarvault/__init__.py:1807-1833 | The lock is free after a successful start under unbroken ownership; otherwise the same client is being detached. |
| ListenerRuntime.Entry.ExistingStopped | custom_components/jackery_solarvault/__init__.py:1754-1763 | A new client follows exactly a confirmed stop under unbroken ownership, with nothing deferred. |
| ListenerRuntime.Entry.CleanupJudged | custom_components/jackery_solarvault/__init__.py:1033-1054 | One client of the cleanup snapshot, and the reconciliation after the last. |
| ListenerRuntime.Entry.Perform | custom_components/jackery_solarvault/__init__.py:1730-1876 | After every block between awaits each client that may run is in the slot or deferred, and at most one is not deferred. |
| JointRuns.ConstructionFindsNoTeardown | custom_components/jackery_solarvault/__init__.py:3844-3862 | With the lifecycle and the listener together, a coordinator is only constructed while no client of an earlier one is being stopped. |
| JointRuns.OnlyStopsAreAwaited | custom_components/jackery_solarvault/__init__.py:3844-3912 | The lifecycle waits for the listener only between start and end of a client's stop in a rollback or unload; otherwise both make every step they make alone, and the listener's owner is the lifecycle's. |
| JointRuns.PublishedOnlyByOwner | custom_components/jackery_solarvault/__init__.py:1807-1811 | In every joint run a client is published only for the coordinator that is the runtime and is not fenced, with nothing deferred and all earlier clients stopped. |
| OptionReconcile.PendingHasTask | custom_components/jackery_solarvault/__init__.py:1464-1515 | In every run of an owned entry a non-empty pending set has an unfinished task. |
| OptionReconcile.SubmittedKeysAreDrained | custom_components/jackery_solarvault/config_flow.py:577-611 | Every listener, device or Bluetooth key that the form changes in place is drained in a later batch, at the latest when the task is done. |
| OptionReconcile.ReadbackDrainedExactly | custom_components/jackery_solarvault/__init__.py:2261-2282 | A changed key that no update has seen, as a readback leaves it, is reconciled if and only if a queued update runs before any submission applied in place. |
| OptionReconcile.OvertakenReadbackIsLost | custom_components/jackery_solarvault/__init__.py:2261-2269 | From every fresh opted-in entry: a readback of another address, then a form that switches Bluetooth on, and the listener never learns of the address. |
| OptionReconcile.ReadbackCanBeLost | custom_components/jackery_solarvault/__init__.py:2502-2509 | Such an entry and readback exist. |
| OptionFields.ReadbackFields | custom_components/jackery_solarvault/__init__.py:2475-2509 | Field by field: a valid enabling readback leaves switch, address, port, user name, password and token equal to the reported ones, a disabling one changes only the switch, any other nothing; exactly the changed keys are marked. |
| OptionFields.FormFields | custom_components/jackery_solarvault/config_flow.py:577-611 | A form stores what was entered, and otherwise what was in force; token and quality of service cannot be entered. |
| OptionFields.FormSchedules | custom_components/jackery_solarvault/config_flow.py:577-611 | A submission makes exactly the changed keys pending, unless it changes an option that needs a reload; then it only stores. |
| OptionFields.OtherOptionsScheduleNothing | custom_components/jackery_solarvault/__init__.py:2283-2324 | An update without a change of a connection or Bluetooth option schedules nothing. |
| OptionFields.RestartConcernsListener | custom_components/jackery_solarvault/__init__.py:1464-1515 | A restart makes the listener keys pending and pushes nothing. |
| OptionFields.OneTaskAtATime | custom_components/jackery_solarvault/__init__.py:1464-1515 | A reconcile task is started only where none is left, and only its own turns move it on. |
| OptionFields.TurnTakesAll | custom_components/jackery_solarvault/__init__.py:1539-1585 | A turn takes all pending keys at once, pushes exactly the device keys requested, and waits exactly if a listener or Bluetooth key is among them. |
| OptionFields.ReleasedEntryStaysQuiet | custom_components/jackery_solarvault/__init__.py:2250-2260 | Late callbacks of a released entry store, mark, schedule and push nothing. |
| OptionPush.PushRequestedExactly | custom_components/jackery_solarvault/__init__.py:2283-2324 | An update requests a push of a device key if and only if it differs from what the update compares with and its value is not marked as read back. |
| OptionPush.SubmittedSettingsArePushed | custom_components/jackery_solarvault/config_flow.py:600-611 | In every run without a reload, each device setting that the user changes is pushed: no mark can be in the way. |
| OptionPush.OnlyWrittenKeysArePushed | custom_components/jackery_solarvault/__init__.py:1556-1562 | The device is configured only for keys that a form or the token generator has written. |
| OptionPush.ReadbackIsNeverEchoed | custom_components/jackery_solarvault/__init__.py:2462-2509 | Readbacks alone, in any number and order, never cause a push back to the device. |
| OptionPush.FilledInDefaultIsPushed | custom_components/jackery_solarvault/config_flow.py:589-604 | A default that an unchanged form stores is pushed by the next queued update. |
| OptionRuntime.Entry.SubmitForm | custom_components/jackery_solarvault/config_flow.py:577-611 | One submission: reload or update, and every changed key that matters is pending afterwards. |
| OptionRuntime.Entry.RunQueuedUpdate | custom_components/jackery_solarvault/__init__.py:2250-2324 | The update of a readback makes exactly the keys pending that differ from the snapshot. |
| OptionRuntime.Entry.AdoptReadback | custom_components/jackery_solarvault/__init__.py:2462-2509 | The options become the reported ones, named field by field, exactly for an owned, opted-in entry and a valid readback; an update is queued if they change, and nothing becomes pending before it. |
| OptionRuntime.Entry.ReconcileTurn | custom_components/jackery_solarvault/__init__.py:1539-1585 | One turn of the drain loop: which operations it starts, and that it pushes only what was written. |
| OptionRuntime.Entry.Leave | custom_components/jackery_solarvault/__init__.py:498-502 | When the entry is fenced or unloaded, pending keys and marks are dropped and the invariant stays. |
| SerialKeys.KeyIsIndexFree | custom_components/jackery_solarvault/util.py:1536-1540 | A key is independent of the index if and only if a letter or digit is left of the serial. |
| SerialKeys.NormalizedKeepsEssence | custom_components/jackery_solarvault/util.py:1536-1540 | A normalised serial keeps all letters and digits in order up to case, has only lower-case letters, digits and underscores, and no underscore at either end. |
| SerialKeys.NormalExactly | custom_components/jackery_solarvault/util.py:1536-1540 | A serial is its own normal form if and only if it has that shape. |
| SerialKeys.IsNamedExactly | custom_components/jackery_solarvault/util.py:1536-1540 | A serial has a normal form of its own if and only if it contains a letter or a digit. |
| SerialKeys.GapBecomesUnderscore | custom_components/jackery_solarvault/util.py:1536-1540 | Any run of other characters between two normal parts becomes one underscore. |
| SerialKeys.DecimalIsRead | custom_components/jackery_solarvault/util.py:1536-1540 | The index in a key is its decimal notation without leading zero: reading it back gives the index. |
| SerialKeys.BlankSerialGoesByIndex | custom_components/jackery_solarvault/__init__.py:2936-2938 | The token of a serial without letters and digits is the index in decimal notation. |
| SerialKeys.TokensCanCoincide | custom_components/jackery_solarvault/__init__.py:2936-2938 | Serials with different keys can share the token used for matching. |
| PackOrder.SortingForgetsOrder | custom_components/jackery_solarvault/__init__.py:3014 | With distinct serials, sorting by serial gives one list for all orders of the records. |
| PackOrder.OrderByFirstDifference | custom_components/jackery_solarvault/__init__.py:3014 | Serials are ordered by their first differing character, and a beginning comes before its continuations. |
| PackIdentity.SeedingIsInjective | custom_components/jackery_solarvault/__init__.py:2981-3073 | Each key gets at most one index and each index one serial; no protected index or ambiguous key is used; second-pass indices are in 1..5 and not stored, assigned or observed. |
| PackIdentity.SeedingForgetsOrder | custom_components/jackery_solarvault/__init__.py:2981-3073 | The assignment is the same for every order of the input records. |
| PackIdentity.FirstPassExactly | custom_components/jackery_solarvault/__init__.py:3014-3036 | The first pass gives an index to exactly one record: the first in serial order that tries it with an unambiguous key, if it is unprotected and, for a record without stored index, not stored elsewhere. |
| PackIdentity.ClaimExactly | custom_components/jackery_solarvault/__init__.py:3015-3024 | A record tries its stored index, or else that of its live battery; none if a complete topology lacks the battery. |
| PackIdentity.StoredIndexIsKept | custom_components/jackery_solarvault/__init__.py:3014-3036 | The only record that stores an unprotected index gets exactly that index, unless its key is ambiguous or a complete topology disproves it. |
| PackIdentity.LeastSerialWins | custom_components/jackery_solarvault/__init__.py:3014-3036 | Of several records that contend for an index the one with the least serial gets it. |
| PackIdentity.LiveIndexExactly | custom_components/jackery_solarvault/__init__.py:2941-2955 | The live index of a token is the last position whose serial has it. |
| PackIdentity.AmbiguousExactly | custom_components/jackery_solarvault/__init__.py:2958-2978 | A key is ambiguous exactly if two of the five live positions have it. |
| PackIdentity.BlankRecordIsMatchedByIndex | custom_components/jackery_solarvault/__init__.py:2936-2938 | A record with a blank serial is matched by its index, or by one if it has none or zero. |
| PackIdentity.BlockedExactly | custom_components/jackery_solarvault/__init__.py:3024-3031 | The keys blocked for the second pass are exactly those of claims that the first pass did not grant. |
| PackIdentity.SecondPassTakesLowest | custom_components/jackery_solarvault/__init__.py:3045-3073 | Every index below one chosen in the second pass was in use at that moment. |
| PackIdentity.SecondPassKeepsOff | custom_components/jackery_solarvault/__init__.py:3038-3073 | The second pass gives only indices from one to five that no unmigrated device holds, no record stores and no live battery occupies, and none to a refused key. |
| PackIdentity.LivePacksAreServed | custom_components/jackery_solarvault/__init__.py:3050-3073 | A record with a live battery gets an index unless its key was refused or ambiguous or all five indices are in use. |
| PackBlankSerials.OneKeyPerIndexExactly | custom_components/jackery_solarvault/__init__.py:2988-3036 | Exactly for serials without letters and digits there are records, as the survey of the registry builds them, that pass the check and put one key at two indices. |
| PackIdentity.FreeFromRest | custom_components/jackery_solarvault/__init__.py:3045-3064 | Taking the first free index leaves exactly the other free ones, and it is the lowest. |
| PackSeeding.OverridesAreTheAssignments | custom_components/jackery_solarvault/__init__.py:2958-3073 | No override overwrites another: each assigned index carries its serial, every other keeps what it had or is disabled for a repeated serial. |
| PackSeeding.RepeatedRecordsSeedNothing | custom_components/jackery_solarvault/__init__.py:2988-3000 | Two records with one key leave the parent without any assignment or override. |
| PackSeeding.Coordinator.ObserveLive | custom_components/jackery_solarvault/__init__.py:2941-2955 | The live payload as maps from token to last index and from key to all its indices. |
| PackSeeding.Coordinator.DisableAmbiguous | custom_components/jackery_solarvault/__init__.py:2958-2978 | Exactly the indices of repeated keys are disabled, and exactly the repeated keys returned. |
| PackSeeding.Coordinator.SeedStored | custom_components/jackery_solarvault/__init__.py:3009-3036 | The first loop with its matched, blocked and assigned sets. |
| PackSeeding.Coordinator.SeedLive | custom_components/jackery_solarvault/__init__.py:3038-3073 | The second loop over the shrinking list of free indices. |
| PackSeeding.Coordinator.Seed | custom_components/jackery_solarvault/__init__.py:2981-3073 | One parent's seeding, override by override, is the modelled assignment. |
| EntityRegistry.RenamingIsInjective | custom_components/jackery_solarvault/__init__.py:3176-3196 | Two entities never get the same new unique id from one prefix change. |
| EntityRegistry.PartialRenamingIsUnique | custom_components/jackery_solarvault/__init__.py:3241-3245 | However far the renaming has got, the unique ids are unique. |
| EntityRegistry.CollisionCheckIsExact | custom_components/jackery_solarvault/__init__.py:3176-3196 | The collision check passes if and only if every partial renaming keeps the unique ids unique. |
| EntityRegistry.RenamingIsReversible | custom_components/jackery_solarvault/__init__.py:3176-3196 | Renaming back restores the registry. |
| EntityRegistry.RenamedByName | custom_components/jackery_solarvault/__init__.py:3155-3198 | By name: each owned entity `old_s` becomes `new_s` with all else kept, and no other entity changes. |
| EntityRegistry.RenamableByName | custom_components/jackery_solarvault/__init__.py:3155-3198 | Prefix and collision check pass exactly if every owned entity is named after the old identifier and no other entity holds such a new name. |
| EntityRegistry.MoveIsByName | custom_components/jackery_solarvault/__init__.py:3643-3696 | By name: a move gives each moved entity its new unique id on the serial device, removes exactly the duplicates of these, and touches nothing else. |
| EntityRegistry.MovingKeepsHistory | custom_components/jackery_solarvault/__init__.py:3643-3696 | Every moved entity keeps its entity id; only duplicates on the serial device are removed, and their unique ids live on in moved entities. |
| EntityRegistry.Registry.EntityUpdates | custom_components/jackery_solarvault/__init__.py:3147-3198 | Updates for all owned entities, or none if one has another prefix or a taken target. |
| EntityRegistry.Registry.ApplyUpdates | custom_components/jackery_solarvault/__init__.py:3241-3245 | The updates one after the other, none of which meets a taken unique id. |
| EntityRegistry.Registry.PlanMoves | custom_components/jackery_solarvault/__init__.py:3651-3685 | All moves with their duplicates, or none if a duplicate lies outside the serial device. |
| EntityRegistry.Registry.MoveToSerialTarget | custom_components/jackery_solarvault/__init__.py:3643-3696 | All or nothing, with the number of moves; each moved entity has its new name on the serial device, exactly its duplicates are gone, and it fails exactly if a duplicate lies on another device. |
| PackMigration.OneDevicePerTarget | custom_components/jackery_solarvault/__init__.py:3085-3144 | In every processing order, whichever renamings fail, no target gets two devices. |
| PackMigration.OutrankedOwnsTarget | custom_components/jackery_solarvault/__init__.py:3101-3144 | In every order, a candidate that another one outranks migrates only if it owned the target beforehand. |
| PackMigration.TargetOwnerMigrates | custom_components/jackery_solarvault/__init__.py:3136-3144 | A candidate that owns its target beforehand migrates in every order, exactly if its entities can be renamed. |
| PackMigration.ForeignTargetIsKept | custom_components/jackery_solarvault/__init__.py:3136-3144 | A target of a device outside the candidates is never taken over. |
| PackMigration.UnclaimedIsRefused | custom_components/jackery_solarvault/__init__.py:3101-3144 | A target that no device and no claim resolves is refused. |
| PackMigration.HigherTwinMigrates | custom_components/jackery_solarvault/__init__.py:3101-3144 | Two live batteries with serial 2 at indices 1 and 2: the one at index 2 migrates in both orders. |
| PackMigration.LowestMigrates | custom_components/jackery_solarvault/__init__.py:3201-3262 | The sole lowest candidate migrates in every order, exactly if its entities can be renamed. |
| PackMigration.Migration.Migrate | custom_components/jackery_solarvault/__init__.py:3201-3262 | A candidate migrates exactly if it may and every owned entity is `old_s` with `parent_key_s` free; then each has that unique id and all else kept, the device has the serial target, and the records follow. Otherwise nothing changes. |
| PackMigration.Migration.MigrateAll | custom_components/jackery_solarvault/__init__.py:3366-3378 | One turn for each candidate in the given order, each as far as its entities can be named at that moment, with the registry before and after each turn; so the theorems over processing orders apply. |
| Guards.Payload.GuardLifetimeTotals | custom_components/jackery_solarvault/guards.py:55-118 | The statistic is replaced in place by the modelled one, with all branches of the source. |
| Guards.WithinToleranceOfBound | custom_components/jackery_solarvault/guards.py:33-92 | A published total with a raw reading lies within max(0.05, 0.5%) of the largest bound. |
| Guards.BelowBoundExactly | custom_components/jackery_solarvault/guards.py:84-101 | The total is published below the previous total or the current year exactly when a raw total within the tolerance is, or the corrected one once rounded. |
| Guards.RoundingLowersLittle | custom_components/jackery_solarvault/guards.py:84-101 | A corrected total is at most half a hundredth below either bound, and not at all below one of two decimals. |
| Guards.LoweredExactly | custom_components/jackery_solarvault/guards.py:86-92 | A previous total of two decimals is lowered if and only if a lower raw total is within the tolerance of the bound. |
| Guards.LifetimeTotalCanDrop | custom_components/jackery_solarvault/guards.py:60-66 | Every positive previous total is lowered by a raw total half a per cent below it. |
| Guards.CorrectedExactly | custom_components/jackery_solarvault/guards.py:84-92 | The statistic is corrected exactly when the raw total misses the bound by more than the tolerance, or is missing while a previous one exists; otherwise it is untouched. |
| Guards.CorrectionInNumbers | custom_components/jackery_solarvault/guards.py:33-118 | A nonnegative raw total is corrected exactly if the previous total or the current year exceeds it by more than 0.05 and by more than half a per cent of itself, and then to the largest of the three, rounded. |
| Guards.RoundsHalfToEven | custom_components/jackery_solarvault/guards.py:39-40 | Rounding takes the nearest integer, here of hundredths, and halfway between two the even one. |
| Guards.CorrectionRecordsReadings | custom_components/jackery_solarvault/guards.py:93-113 | The record repeats each reading in its place, and blames the previous total exactly if it comes within the tolerance of the corrected one or the raw one is missing. |
| Guards.CarbonInNumbers | custom_components/jackery_solarvault/guards.py:113-118 | For a carbon total between zero and five times the raw total, generation and carbon keep their ratio to within rounding; otherwise carbon stays. |
| Guards.MissingTotalIgnoresYear | custom_components/jackery_solarvault/guards.py:89-93 | Without a raw total the previous one is published, below the current year exactly if it was. |
| Guards.CorrectionNamesItsBound | custom_components/jackery_solarvault/guards.py:93-113 | The recorded method names a bound that is present and explains the corrected total. |
| Guards.CarbonFollows | custom_components/jackery_solarvault/guards.py:113-118 | After a correction the carbon total keeps the factor of the app to within rounding; without a usable factor or a correction it stays as it is. |
| Guards.DriftIsBounded | custom_components/jackery_solarvault/guards.py:33-118 | Over n polls the total is at least 0.995^n of the first minus 0.05 n. |
| Guards.DecayedIsPower | custom_components/jackery_solarvault/guards.py:33-36 | The decay used in that bound is the n-th power of 0.995. |
| Guards.DriftIsReached | custom_components/jackery_solarvault/guards.py:86-92 | Raw totals alone reach the main term of the bound. |
| Guards.HeldExactly | custom_components/jackery_solarvault/guards.py:121-138 | The previous value is held exactly for an energy counter whose reading is missing or falls; other sensors show the current one. |
| Guards.ShownIsRunningMaximum | custom_components/jackery_solarvault/guards.py:121-138 | A counter entity shows the largest reading so far. |
| Guards.EntityNeverFalls | custom_components/jackery_solarvault/guards.py:121-138 | The sequence of an energy counter entity is nondecreasing. |
| ToolGate.Gate.Handle | scripts/mandatory_tool_gate.py:248-295 | The handler's loops compute the modelled decision and receipts. |
| ToolGate.EventSettlesReceipts | scripts/mandatory_tool_gate.py:229-285 | An event replaces exactly the receipts it settles, up to the first storage failure. |
| ToolGate.ReceiptsAreFaithful | scripts/mandatory_tool_gate.py:212-295 | In every run the receipts are exactly the last recorded successes of each session and tool. |
| ToolGate.GateIsExact | scripts/mandatory_tool_gate.py:248-295 | A tool call passes if and only if it is outside the project, only reads, or the last recorded result of every required tool in its session was a success between zero and one hour ago. |
| ToolGate.AnswersExactly | scripts/mandatory_tool_gate.py:248-295 | For every event: the gate raises exactly on an examined result whose receipt cannot be stored, denies outright exactly an unexamined write inside the project, and denies by tool exactly an examined write without a fresh success of each. |
| ToolGate.MisfiledReceiptIsRefused | scripts/mandatory_tool_gate.py:212-226 | A receipt that names another session or tool than its place does not count. |
| ToolGate.DenialNamesTheMissing | scripts/mandatory_tool_gate.py:287-295 | A denial names exactly the tools without a fresh success. |
| ToolGate.FailureRevokes | scripts/mandatory_tool_gate.py:275-286 | After a recorded failure no write of the session passes until the same tool succeeds again. |

## Left out

- Entity platforms, services, config flow, diagnostics, repairs, models and constants beyond the few used: declarations and wiring with one-branch claims.
- `filters.py`, `local_period_total_supersedes_cloud`, `allow_periodic_section_from_source` and `period_data_offset`: short comparisons that would only add easy members.
- IngestGate.IngestObservation: the clock is read once per observation, where the source reads it again for every field; dictionary order is replaced by every order; floats are reals; a top-level provenance key is a path of length one, where the source uses the bare string.
- IngestConvergence.RunsConverge: frames need one shape, no blank leaves and no window, because the gate does not converge otherwise.
- The lifecycle, listener and option handlers are atomic between awaits. HTTP login, cache loading, platform forwarding and timers are choices of the environment; `hass.state` other than running, the branch without an owner and the module-level bucket cache are fixed; Home Assistant's contract on when it calls setup and unload is assumed.
- Lifecycle, Listener and OptionReconcile: `JointRuns` joins the first two; the option model sees the lifecycle only as the loss of ownership, and its reload only as that loss.
- Listener.PublicationIsExclusive: the flag that restarts the listener after cleanup is not modelled, only the restart itself as a further reconcile request.
- OptionReconcile.SubmittedKeysAreDrained: assumes that no step raises or is cancelled; the reload after a change of credentials and the scan interval are not modelled, and form values are compared without trimming and type coercion.
- CleanupRuns.LostExactly: items of a foreign type, which the cleanup loops drop, are not modelled.
- PackSeeding.Coordinator.Seed: one parent at a time, since parents do not influence each other; `battery_pack_serial`, which turns an unprintable serial into none, is not modelled.
- PackIdentity.SeedingIsInjective: serials need a letter or digit, as `PackBlankSerials.OneKeyPerIndexExactly` shows.
- PackMigration.OutrankedOwnsTarget: the survey that builds the candidates and the migration of entities attached to the parent are not modelled; identifiers of a device other than the battery identifier do not change.
- Guards.Payload.GuardLifetimeTotals: readings are exact reals, rounding is half to even on them; every poll has a statistic, and `safe_float` and `effective_period_total_value` are not part of this model.
- ToolGate.Gate.Handle: the shell grammar, the wrapper-call expression and the error patterns are given with the event; only the gate writes the receipt directory, and reading a written receipt back gives the same record.
