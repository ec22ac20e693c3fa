/**
 The lifecycle handlers as they change an entry and its runtime bucket in place.  The bucket is
 a dictionary: what is not stored under its key, or has the wrong type there, counts as absent.
 `View` is the state that `Lifecycle` reasons about.
 */
module EntryRuntime {
  import opened Wrappers
  import opened Lifecycle

  datatype Slot = Unloading | PrimarySetup | ShutdownTaskRecord | ShutdownReaperTask

  datatype Item = Coordinator(c: nat) | Owned(record: Record) | Reaping(reaper: Reaper)

  type Dictionary = map<Slot, Item>

  function CoordinatorAt(bucket: Dictionary, slot: Slot): Option<nat> {
    if slot in bucket && bucket[slot].Coordinator? then Some(bucket[slot].c) else None
  }

  function RecordIn(bucket: Dictionary): Option<Record> {
    if ShutdownTaskRecord in bucket && bucket[ShutdownTaskRecord].Owned? then Some(bucket[ShutdownTaskRecord].record)
    else None
  }

  function ReaperIn(bucket: Dictionary): Option<Reaper> {
    if ShutdownReaperTask in bucket && bucket[ShutdownReaperTask].Reaping? then Some(bucket[ShutdownReaperTask].reaper)
    else None
  }

  class Entry {
    var bucket: Dictionary
    var runtimeData: Option<nat>
    var built: nat
    var tasks: seq<ShutdownTask>
    var stopped: set<nat>
    var phase: Phase

    function View(): State
      reads this
    {
      State(built, tasks, stopped, runtimeData, CoordinatorAt(bucket, Unloading), CoordinatorAt(bucket, PrimarySetup),
            RecordIn(bucket), ReaperIn(bucket), phase)
    }

    ghost predicate Valid()
      reads this
    {
      Invariant(View())
    }

    /** Every coordinator that was ever constructed has been shut down. */
    predicate AllStopped()
      reads this
    {
      forall c: nat :: c < built ==> c in stopped
    }

    /** The task is on record as the shutdown of the fenced coordinator `c`. */
    predicate UnderShutdown(c: nat, task: nat)
      reads this
    {
      && CoordinatorAt(bucket, Unloading) == Some(c) && RecordIn(bucket) == Some(Record(c, task))
      && task < |tasks| && tasks[task].owner == c
    }

    constructor ()
      ensures Valid() && View() == INITIAL
    {
      bucket, runtimeData, built, tasks, stopped, phase := map[], None, 0, [], {}, Idle;
    }

    /** `_create_coordinator_shutdown_task` */
    method CreateShutdownTask(c: nat) returns (task: nat)
      modifies this`tasks, this`bucket
      ensures View() == NewTask(old(View()), c) && RecordIn(bucket) == Some(Record(c, task))
    {
      task := |tasks|;
      tasks := tasks + [ShutdownTask(c, Running)];
      bucket := bucket[ShutdownTaskRecord := Owned(Record(c, task))];
    }

    /** `_async_shutdown_coordinator_bounded` up to its wait; no task if another one blocks it. */
    method OwnShutdownTask(c: nat) returns (task: Option<nat>)
      modifies this`tasks, this`bucket
      ensures task.None? <==> BlockedFor(old(View()), c)
      ensures task.None? ==> View() == old(View())
      ensures task.Some? ==> View() == WithTask(old(View()), c) && RecordIn(bucket) == Some(Record(c, task.value))
      ensures var record := RecordIn(old(bucket));
        if record.Some? && record.value.coordinator == c then task == Some(record.value.task) && tasks == old(tasks)
        else task.Some? ==> task.value == |old(tasks)| && tasks == old(tasks) + [ShutdownTask(c, Running)]
    {
      var record := RecordIn(bucket);
      if record.Some? && record.value.coordinator == c {
        return Some(record.value.task);
      }
      if record.Some? && record.value.task < |tasks| && tasks[record.value.task].status == Running {
        return None;
      }
      var created := CreateShutdownTask(c);
      task := Some(created);
    }

    /** `_schedule_coordinator_shutdown_reaper` */
    method StartReaper(c: nat, task: nat)
      modifies this`bucket
      ensures View() == ScheduleReaper(old(View()), c, task)
    {
      if ReaperIn(bucket).None? {
        bucket := bucket[ShutdownReaperTask := Reaping(Reaper(c, task, false))];
      }
    }

    /** `_clear_coordinator_shutdown_record` */
    method DropRecord(c: nat, task: nat)
      modifies this`bucket
      ensures View() == ClearRecord(old(View()), c, task)
    {
      if RecordIn(bucket) == Some(Record(c, task)) {
        bucket := bucket - {ShutdownTaskRecord};
      }
    }

    /** `_clear_entry_coordinator_runtime_references` */
    method DropReferences(c: nat)
      modifies this`bucket, this`runtimeData
      ensures View() == ClearReferences(old(View()), c)
    {
      if CoordinatorAt(bucket, Unloading) == Some(c) {
        bucket := bucket - {Unloading};
      }
      if CoordinatorAt(bucket, PrimarySetup) == Some(c) {
        bucket := bucket - {PrimarySetup};
      }
      if runtimeData == Some(c) {
        runtimeData := None;
      }
    }

    method StartSetup()
      modifies this
      ensures View() == BeginSetup(old(View()))
    {
      var fenced := CoordinatorAt(bucket, Unloading);
      if fenced.None? {
        phase := Released;
      } else {
        var task := OwnShutdownTask(fenced.value);
        if task.Some? {
          phase := Releasing(fenced.value, task.value);
        }
      }
    }

    method Build()
      modifies this`runtimeData, this`phase, this`built
      ensures View() ==
        old(View()).(built := old(built) + 1, runtime := Some(old(built)), phase := SettingUp(old(built)))
    {
      runtimeData, phase := Some(built), SettingUp(built);
      built := built + 1;
    }

    /**
     `async_setup_entry` up to the wait of `_async_release_fenced_coordinator`: setup goes on only
     when nothing is left to shut down; otherwise it waits for the fenced coordinator's own task,
     unless the task of another coordinator is unfinished.
     */
    method BeginSetupCall()
      requires Valid() && phase.Idle?
      modifies this
      ensures Valid() && View() == Step(old(View()), CallSetup)
      ensures phase.Released? ==> AllStopped()
      ensures phase.Releasing? ==> UnderShutdown(phase.c, phase.task)
      ensures phase.Idle? ==>
        exists t :: 0 <= t < |tasks| && tasks[t].status == Running
          && Some(tasks[t].owner) != CoordinatorAt(bucket, Unloading)
      ensures phase.Released? || phase.Releasing? || phase.Idle?
    {
      ghost var s := View();
      StartSetup();
      StepKeepsInvariant(s, CallSetup);
      if phase.Idle? {
        assert tasks[RecordIn(bucket).value.task].status == Running;
      }
    }

    /** Construction: there is never a second coordinator that has not been shut down. */
    method Construct()
      requires Valid() && phase.Released?
      modifies this
      ensures Valid() && View() == Step(old(View()), ConstructCoordinator)
      ensures runtimeData == Some(old(built)) && built == old(built) + 1
      ensures forall c: nat :: c < old(built) ==> c in stopped
    {
      ghost var s := View();
      Build();
      StepKeepsInvariant(s, ConstructCoordinator);
      StepIsSafe(s, ConstructCoordinator);
    }

    /** The shutdown inside a setup rollback or an unload, up to its wait. */
    method StartShutdown(c: nat, rollback: bool)
      modifies this
      ensures View() == BeginShutdown(old(View()), c, rollback)
    {
      var task := OwnShutdownTask(c);
      if task.None? {
        phase := Idle;
      } else if rollback {
        phase := RollbackWaiting(c, task.value);
      } else {
        phase := TeardownWaiting(c, task.value);
      }
    }

    /**
     Rollback and unload: afterwards the coordinator's own task is the one on record, unless another
     coordinator's task is unfinished; either way the coordinator stays fenced or is stopped.
     */
    method BeginShutdownCall()
      requires Valid() && (phase.RollingBack? || phase.TearingDown?)
      modifies this
      ensures Valid()
      ensures View() == Step(old(View()), if old(phase).RollingBack? then RollbackShutsDown else TeardownShutsDown)
      ensures RecordIn(bucket).Some?
      ensures !phase.Idle? ==>
        var c, task := old(phase).c, RecordIn(bucket).value.task;
        && RecordIn(bucket) == Some(Record(c, task))
        && phase == if old(phase).RollingBack? then RollbackWaiting(c, task) else TeardownWaiting(c, task)
      ensures phase.Idle? ==>
        && RecordIn(bucket).value.coordinator != old(phase).c && tasks == old(tasks)
        && RecordIn(bucket).value.task < |tasks| && tasks[RecordIn(bucket).value.task].status == Running
      ensures CoordinatorAt(bucket, Unloading) == Some(old(phase).c) || old(phase).c in stopped
    {
      ghost var s := View();
      var c, rollback := phase.c, phase.RollingBack?;
      ShutdownIsOwned(s, c, rollback);
      StartShutdown(c, rollback);
      StepKeepsInvariant(s, if rollback then RollbackShutsDown else TeardownShutsDown);
    }

    method FinishWait(cancelled: bool, cleanupRaises: bool)
      modifies this
      ensures View() == EndWait(old(View()), cancelled, cleanupRaises)
    {
      if !(phase.Releasing? || phase.RollbackWaiting? || phase.TeardownWaiting?) {
        return;
      }
      var c, task, was := phase.c, phase.task, phase;
      var done := task < |tasks| && tasks[task].status == Succeeded;
      if cancelled || !done {
        StartReaper(c, task);
        // A cancelled unload raises; an unload whose shutdown is pending still returns True.
        phase := if cancelled && was.TeardownWaiting? then FailedUnload else Idle;
        return;
      }
      DropRecord(c, task);
      if cleanupRaises {
        phase := if was.TeardownWaiting? then FailedUnload else Idle;
        return;
      }
      DropReferences(c);
      phase := if was.Releasing? then Released else Idle;
    }

    /**
     What follows the bounded wait of setup, rollback and unload.  Unless the shutdown has succeeded
     and the wait was not cancelled, a reaper is at work afterwards, for this task if there was none,
     and every reference stays; otherwise the references to the coordinator are gone.
     */
    method EndWaitCall(cancelled: bool, cleanupRaises: bool)
      requires Valid() && (phase.Releasing? || phase.RollbackWaiting? || phase.TeardownWaiting?)
      modifies this
      ensures Valid() && View() == Step(old(View()), WaitEnds(cancelled, cleanupRaises))
      ensures var c, task := old(phase).c, old(phase).task;
        if cancelled || tasks[task].status != Succeeded then
          && ReaperIn(bucket).Some?
          && (ReaperIn(old(bucket)).None? ==> ReaperIn(bucket) == Some(Reaper(c, task, false)))
          && CoordinatorAt(bucket, Unloading) == CoordinatorAt(old(bucket), Unloading)
          && CoordinatorAt(bucket, PrimarySetup) == CoordinatorAt(old(bucket), PrimarySetup)
          && RecordIn(bucket) == RecordIn(old(bucket)) && runtimeData == old(runtimeData)
          && phase == if cancelled && old(phase).TeardownWaiting? then FailedUnload else Idle
        else
          && RecordIn(bucket) != Some(Record(c, task)) && ReaperIn(bucket) == ReaperIn(old(bucket))
          && (!cleanupRaises ==>
                && CoordinatorAt(bucket, Unloading) != Some(c) && CoordinatorAt(bucket, PrimarySetup) != Some(c)
                && runtimeData != Some(c) && phase == if old(phase).Releasing? then Released else Idle)
    {
      ghost var s := View();
      StepKeepsInvariant(s, WaitEnds(cancelled, cleanupRaises));
      WaitEndsExactly(s, cancelled, cleanupRaises);
      assert phase.task < |tasks|;
      FinishWait(cancelled, cleanupRaises);
    }

    method ResumeOwnReaper(r: Reaper, cancelled: bool)
      modifies this
      ensures View() == ResumeReaper(old(View()), r, cancelled)
    {
      if r.task >= |tasks| {
        return;
      }
      if tasks[r.task].status == Running {
        if cancelled {
          bucket := bucket - {ShutdownReaperTask};
        }
        return;
      }
      if tasks[r.task].status == Succeeded && !cancelled {
        DropRecord(r.coordinator, r.task);
        DropReferences(r.coordinator);
        bucket := bucket - {ShutdownReaperTask};
      } else if CoordinatorAt(bucket, Unloading) == Some(r.coordinator) || runtimeData == Some(r.coordinator) {
        bucket := bucket[ShutdownReaperTask := Reaping(r.(sleeping := true))];
      } else {
        DropRecord(r.coordinator, r.task);
        bucket := bucket - {ShutdownReaperTask};
      }
    }

    /**
     `_async_reap_coordinator_shutdown` after its wait: the reaper releases its coordinator only
     when that has been shut down, and then altogether; it touches no other one; and it does not give
     up on a failed shutdown while the coordinator is fenced, but sleeps before a retry.
     */
    method ResumeReaperTask(cancelled: bool)
      requires Valid() && ReaperIn(bucket).Some? && !ReaperIn(bucket).value.sleeping
      modifies this
      ensures Valid() && View() == Step(old(View()), ReaperResumes(cancelled))
      ensures var c := ReaperIn(old(bucket)).value.coordinator;
        && (CoordinatorAt(bucket, Unloading) == CoordinatorAt(old(bucket), Unloading)
            || (CoordinatorAt(old(bucket), Unloading) == Some(c) && c in stopped))
        && (runtimeData == old(runtimeData) || (old(runtimeData) == Some(c) && c in stopped))
        && (CoordinatorAt(bucket, Unloading) == Some(c) && !cancelled ==> ReaperIn(bucket).Some?)
      ensures var r := ReaperIn(old(bucket)).value;
        match tasks[r.task].status
        case Running => ReaperIn(bucket) == if cancelled then None else Some(r)
        case Succeeded =>
          !cancelled ==>
            && ReaperIn(bucket) == None && CoordinatorAt(bucket, Unloading) != Some(r.coordinator)
            && CoordinatorAt(bucket, PrimarySetup) != Some(r.coordinator) && runtimeData != Some(r.coordinator)
        case Failed =>
          ReaperIn(bucket) ==
            if CoordinatorAt(bucket, Unloading) == Some(r.coordinator) || runtimeData == Some(r.coordinator)
            then Some(r.(sleeping := true)) else None
    {
      ghost var s := View();
      ResumeOwnReaper(ReaperIn(bucket).value, cancelled);
      StepKeepsInvariant(s, ReaperResumes(cancelled));
    }

    method WakeOwnReaper(r: Reaper, cancelled: bool)
      modifies this
      ensures View() == WakeReaper(old(View()), r, cancelled)
    {
      if cancelled {
        bucket := bucket - {ShutdownReaperTask};
        return;
      }
      var record := RecordIn(bucket);
      if record.Some? && record.value.coordinator == r.coordinator && record.value.task != r.task {
        bucket := bucket[ShutdownReaperTask := Reaping(Reaper(r.coordinator, record.value.task, false))];
      } else if record != Some(Record(r.coordinator, r.task)) {
        bucket := bucket - {ShutdownReaperTask};
      } else {
        var task := CreateShutdownTask(r.coordinator);
        bucket := bucket[ShutdownReaperTask := Reaping(Reaper(r.coordinator, task, false))];
      }
    }

    /**
     `_next_coordinator_shutdown_task`, after the retry delay: the reaper goes on exactly while
     its coordinator is on record, with the task on record, and starts at most one task for it.
     */
    method WakeReaperTask(cancelled: bool)
      requires Valid() && ReaperIn(bucket).Some? && ReaperIn(bucket).value.sleeping
      modifies this
      ensures Valid() && View() == Step(old(View()), ReaperWakes(cancelled))
      ensures var r := ReaperIn(old(bucket)).value;
        && (ReaperIn(bucket).Some? <==>
              !cancelled && RecordIn(old(bucket)).Some? && RecordIn(old(bucket)).value.coordinator == r.coordinator)
        && (ReaperIn(bucket).Some? ==>
              (RecordIn(bucket) == Some(Record(r.coordinator, ReaperIn(bucket).value.task))
               && ReaperIn(bucket).value.task != r.task))
        && (tasks == old(tasks) || tasks == old(tasks) + [ShutdownTask(r.coordinator, Running)])
    {
      ghost var s := View();
      WakeOwnReaper(ReaperIn(bucket).value, cancelled);
      StepKeepsInvariant(s, ReaperWakes(cancelled));
    }

    method Dispatch(a: Action)
      modifies this
      ensures View() == Step(old(View()), a)
    {
      match a {
        case CallSetup =>
          if phase.Idle? { StartSetup(); }
        case ConstructCoordinator =>
          if phase.Released? { Build(); }
        case AbortSetup => if phase.Released? { phase := Idle; }
        case MarkPrimary => if phase.SettingUp? { bucket := bucket[PrimarySetup := Coordinator(phase.c)]; }
        case SetupSucceeds => if phase.SettingUp? { phase := Loaded; }
        case SetupRaises =>
          if phase.SettingUp? {
            bucket, phase := bucket[Unloading := Coordinator(phase.c)], RollingBack(phase.c);
          }
        case RollbackAborts => if phase.RollingBack? { phase := Idle; }
        case RollbackShutsDown => if phase.RollingBack? { StartShutdown(phase.c, true); }
        case CallUnload => if phase.Loaded? { phase := UnloadingPlatforms(runtimeData); }
        case PlatformsUnload(ok) =>
          if phase.UnloadingPlatforms? {
            if !ok {
              phase := FailedUnload;
            } else if phase.found.None? {
              phase := Idle;
            } else {
              var c := phase.found.value;
              bucket, phase := bucket[Unloading := Coordinator(c)], TearingDown(c);
            }
          }
        case TeardownRaises => if phase.TearingDown? { phase := FailedUnload; }
        case TeardownShutsDown => if phase.TearingDown? { StartShutdown(phase.c, false); }
        case WaitEnds(cancelled, cleanupRaises) => FinishWait(cancelled, cleanupRaises);
        case TaskEnds(task, ok) =>
          if task < |tasks| && tasks[task].status == Running {
            if ok {
              stopped := stopped + {tasks[task].owner};
            }
            tasks := tasks[task := tasks[task].(status := if ok then Succeeded else Failed)];
          }
        case ReaperResumes(cancelled) =>
          var r := ReaperIn(bucket);
          if r.Some? && !r.value.sleeping { ResumeOwnReaper(r.value, cancelled); }
        case ReaperWakes(cancelled) =>
          var r := ReaperIn(bucket);
          if r.Some? && r.value.sleeping { WakeOwnReaper(r.value, cancelled); }
      }
    }

    /**
     Any block between two awaits: a coordinator is only constructed when all are shut down, a
     fence only falls when its coordinator is, and at most one shutdown task is unfinished.
     */
    method Perform(a: Action)
      requires Valid()
      modifies this
      ensures Valid() && View() == Step(old(View()), a)
      ensures built != old(built) ==> forall c: nat :: c < old(built) ==> c in stopped
      ensures var fence := CoordinatorAt(old(bucket), Unloading);
        fence.Some? && CoordinatorAt(bucket, Unloading) != fence ==> fence.value in stopped
      ensures forall t, u ::
        0 <= t < |tasks| && 0 <= u < |tasks| && tasks[t].status == Running && tasks[u].status == Running ==> t == u
    {
      ghost var s := View();
      StepIsSafe(s, a);
      StepKeepsInvariant(s, a);
      Dispatch(a);
    }
  }
}
