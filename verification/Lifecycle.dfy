/**
 The lifecycle of one config entry as a step system.  An atomic block of the source, from
 one `await` to the next, is one action; the environment chooses timeouts, failures and
 cancellations, and Home Assistant calls setup only after a setup that raised or an unload
 that returned True.

 Coordinators are numbered in the order of their construction, shutdown tasks in the order
 of their creation.
 */
module Lifecycle {
  import opened Wrappers

  datatype TaskStatus = Running | Succeeded | Failed

  datatype ShutdownTask = ShutdownTask(owner: nat, status: TaskStatus)

  /** The owned shutdown record: a coordinator and the task that shuts it down. */
  datatype Record = Record(coordinator: nat, task: nat)

  /** The retrying reaper: waiting for its current task, or sleeping before a retry. */
  datatype Reaper = Reaper(coordinator: nat, task: nat, sleeping: bool)

  /** Where the serialised setup or unload call stands. */
  datatype Phase =
    | Idle
    | Releasing(c: nat, task: nat)
    | Released
    | SettingUp(c: nat)
    | RollingBack(c: nat)
    | RollbackWaiting(c: nat, task: nat)
    | Loaded
    | UnloadingPlatforms(found: Option<nat>)
    | TearingDown(c: nat)
    | TeardownWaiting(c: nat, task: nat)
    | FailedUnload

  datatype State = State(
    built: nat,
    tasks: seq<ShutdownTask>,
    // The coordinators whose shutdown has completed successfully.
    stopped: set<nat>,
    runtime: Option<nat>,
    fence: Option<nat>,
    primary: Option<nat>,
    record: Option<Record>,
    reaper: Option<Reaper>,
    phase: Phase)

  const INITIAL := State(0, [], {}, None, None, None, None, None, Idle)

  datatype Action =
    | CallSetup
    | ConstructCoordinator
    | AbortSetup
    | MarkPrimary
    | SetupSucceeds
    | SetupRaises
    | RollbackAborts
    | RollbackShutsDown
    | CallUnload
    | PlatformsUnload(ok: bool)
    | TeardownRaises
    | TeardownShutsDown
    | WaitEnds(cancelled: bool, cleanupRaises: bool)
    | TaskEnds(task: nat, ok: bool)
    | ReaperResumes(cancelled: bool)
    | ReaperWakes(cancelled: bool)

  /** The coordinator that owns the entry, if any: the runtime, unless it is fenced. */
  function Owner(s: State): Option<nat> {
    if s.runtime.Some? && s.fence != s.runtime then s.runtime else None
  }

  /** `_entry_owns_coordinator`. */
  predicate Owns(s: State, c: nat) {
    Owner(s) == Some(c)
  }

  // ---- Building blocks ----

  /** A record of another coordinator whose task is unfinished blocks a new shutdown. */
  predicate BlockedFor(s: State, c: nat) {
    && s.record.Some? && s.record.value.coordinator != c
    && s.record.value.task < |s.tasks| && s.tasks[s.record.value.task].status == Running
  }

  /** Create the next shutdown task and record it. */
  function NewTask(s: State, c: nat): State {
    s.(tasks := s.tasks + [ShutdownTask(c, Running)], record := Some(Record(c, |s.tasks|)))
  }

  /** Reuse the task recorded for this coordinator, or create one. */
  function WithTask(s: State, c: nat): State {
    if s.record.Some? && s.record.value.coordinator == c then s else NewTask(s, c)
  }

  function ScheduleReaper(s: State, c: nat, task: nat): State {
    if s.reaper.Some? then s else s.(reaper := Some(Reaper(c, task, false)))
  }

  function ClearRecord(s: State, c: nat, task: nat): State {
    if s.record == Some(Record(c, task)) then s.(record := None) else s
  }

  /** Drop the references to this coordinator, and only to this one. */
  function ClearReferences(s: State, c: nat): State {
    s.(fence := if s.fence == Some(c) then None else s.fence,
       primary := if s.primary == Some(c) then None else s.primary,
       runtime := if s.runtime == Some(c) then None else s.runtime)
  }

  // ---- The atomic blocks ----

  function BeginSetup(s: State): State {
    if s.fence == None then s.(phase := Released)
    else if BlockedFor(s, s.fence.value) then s
    else
      var t := WithTask(s, s.fence.value);
      t.(phase := Releasing(s.fence.value, t.record.value.task))
  }

  /** The bounded wait ends: by cancellation, by timeout while the task runs, or with its result. */
  function EndWait(s: State, cancelled: bool, cleanupRaises: bool): State {
    match s.phase
    case Releasing(c, task) =>
      if cancelled || !Finished(s, task) then ScheduleReaper(s, c, task).(phase := Idle)
      else if cleanupRaises then ClearRecord(s, c, task).(phase := Idle)
      else ClearReferences(ClearRecord(s, c, task), c).(phase := Released)
    case RollbackWaiting(c, task) =>
      if cancelled || !Finished(s, task) then ScheduleReaper(s, c, task).(phase := Idle)
      else if cleanupRaises then ClearRecord(s, c, task).(phase := Idle)
      else ClearReferences(ClearRecord(s, c, task), c).(phase := Idle)
    case TeardownWaiting(c, task) =>
      if cancelled then ScheduleReaper(s, c, task).(phase := FailedUnload)
      else if !Finished(s, task) then ScheduleReaper(s, c, task).(phase := Idle)
      else if cleanupRaises then ClearRecord(s, c, task).(phase := FailedUnload)
      else ClearReferences(ClearRecord(s, c, task), c).(phase := Idle)
    case _ => s
  }

  predicate Finished(s: State, task: nat) {
    task < |s.tasks| && s.tasks[task].status == Succeeded
  }

  /** `async_shutdown` is due for `c` inside setup rollback or unload. */
  function BeginShutdown(s: State, c: nat, rollback: bool): State {
    if BlockedFor(s, c) then s.(phase := Idle)
    else
      var t := WithTask(s, c);
      t.(phase := if rollback then RollbackWaiting(c, t.record.value.task) else TeardownWaiting(c, t.record.value.task))
  }

  function ResumeReaper(s: State, r: Reaper, cancelled: bool): State {
    if r.task >= |s.tasks| then s
    else if s.tasks[r.task].status == Running then
      if cancelled then s.(reaper := None) else s
    else if s.tasks[r.task].status == Succeeded && !cancelled then
      ClearReferences(ClearRecord(s, r.coordinator, r.task), r.coordinator).(reaper := None)
    else if s.fence == Some(r.coordinator) || s.runtime == Some(r.coordinator) then
      s.(reaper := Some(r.(sleeping := true)))
    else ClearRecord(s, r.coordinator, r.task).(reaper := None)
  }

  function WakeReaper(s: State, r: Reaper, cancelled: bool): State {
    if cancelled then s.(reaper := None)
    else if s.record.Some? && s.record.value.coordinator == r.coordinator && s.record.value.task != r.task then
      s.(reaper := Some(Reaper(r.coordinator, s.record.value.task, false)))
    else if s.record != Some(Record(r.coordinator, r.task)) then s.(reaper := None)
    else
      var t := NewTask(s, r.coordinator);
      t.(reaper := Some(Reaper(r.coordinator, t.record.value.task, false)))
  }

  /** One action; an action that is not enabled leaves the state as it is. */
  function Step(s: State, a: Action): State {
    match a
    case CallSetup => if s.phase.Idle? then BeginSetup(s) else s
    case ConstructCoordinator =>
      if s.phase.Released? then s.(built := s.built + 1, runtime := Some(s.built), phase := SettingUp(s.built)) else s
    case AbortSetup => if s.phase.Released? then s.(phase := Idle) else s
    case MarkPrimary => if s.phase.SettingUp? then s.(primary := Some(s.phase.c)) else s
    case SetupSucceeds => if s.phase.SettingUp? then s.(phase := Loaded) else s
    case SetupRaises =>
      if s.phase.SettingUp? then s.(fence := Some(s.phase.c), phase := RollingBack(s.phase.c)) else s
    case RollbackAborts => if s.phase.RollingBack? then s.(phase := Idle) else s
    case RollbackShutsDown => if s.phase.RollingBack? then BeginShutdown(s, s.phase.c, true) else s
    case CallUnload => if s.phase.Loaded? then s.(phase := UnloadingPlatforms(s.runtime)) else s
    case PlatformsUnload(ok) =>
      if !s.phase.UnloadingPlatforms? then s
      else if !ok then s.(phase := FailedUnload)
      else if s.phase.found == None then s.(phase := Idle)
      else s.(fence := s.phase.found, phase := TearingDown(s.phase.found.value))
    case TeardownRaises => if s.phase.TearingDown? then s.(phase := FailedUnload) else s
    case TeardownShutsDown => if s.phase.TearingDown? then BeginShutdown(s, s.phase.c, false) else s
    case WaitEnds(cancelled, cleanupRaises) => EndWait(s, cancelled, cleanupRaises)
    case TaskEnds(task, ok) =>
      if task < |s.tasks| && s.tasks[task].status == Running then
        s.(tasks := s.tasks[task := s.tasks[task].(status := if ok then Succeeded else Failed)],
           stopped := if ok then s.stopped + {s.tasks[task].owner} else s.stopped)
      else s
    case ReaperResumes(cancelled) =>
      if s.reaper.Some? && !s.reaper.value.sleeping then ResumeReaper(s, s.reaper.value, cancelled) else s
    case ReaperWakes(cancelled) =>
      if s.reaper.Some? && s.reaper.value.sleeping then WakeReaper(s, s.reaper.value, cancelled) else s
  }

  function RunFrom(s: State, actions: seq<Action>): State
    decreases |actions|
  {
    if actions == [] then s else RunFrom(Step(s, actions[0]), actions[1..])
  }

  function Run(actions: seq<Action>): State {
    RunFrom(INITIAL, actions)
  }

  // ---- The invariant ----

  predicate OwnsTask(s: State, c: nat, task: nat) {
    task < |s.tasks| && s.tasks[task].owner == c
  }

  ghost predicate TasksOwned(s: State) {
    && (s.record.Some? ==> OwnsTask(s, s.record.value.coordinator, s.record.value.task))
    && (s.reaper.Some? ==> OwnsTask(s, s.reaper.value.coordinator, s.reaper.value.task))
    && (s.reaper.Some? && s.reaper.value.sleeping ==> s.tasks[s.reaper.value.task].status != Running)
    && (s.phase.Releasing? || s.phase.RollbackWaiting? || s.phase.TeardownWaiting? ==>
          s.phase.task < |s.tasks| && s.tasks[s.phase.task].owner == s.phase.c)
    && (forall t :: 0 <= t < |s.tasks| ==> s.tasks[t].owner < s.built)
    && (forall t :: 0 <= t < |s.tasks| && s.tasks[t].status == Succeeded ==> s.tasks[t].owner in s.stopped)
  }

  /** An unfinished shutdown task is always the recorded one. */
  ghost predicate RunningIsRecorded(s: State) {
    forall t :: 0 <= t < |s.tasks| && s.tasks[t].status == Running ==> s.record == Some(Record(s.tasks[t].owner, t))
  }

  /** All coordinators but the newest have been shut down. */
  ghost predicate OlderStopped(s: State) {
    forall c: nat :: c + 1 < s.built ==> c in s.stopped
  }

  /** Only the newest coordinator is ever fenced, and while it is not stopped the fence stays. */
  ghost predicate FenceHolds(s: State) {
    && (s.fence.Some? ==> s.fence.value + 1 == s.built)
    && match s.phase
       case Idle => StoppedOrFenced(s)
       case Releasing(c, _) => c + 1 == s.built && StoppedOrFenced(s)
       case Released => s.fence == None && NewestStopped(s)
       case SettingUp(c) => c + 1 == s.built && Fresh(s)
       case RollingBack(c) => c + 1 == s.built && StoppedOrFenced(s)
       case RollbackWaiting(c, _) => c + 1 == s.built && StoppedOrFenced(s)
       case Loaded => Fresh(s)
       case UnloadingPlatforms(found) => Fresh(s) && found == s.runtime
       case TearingDown(c) => c + 1 == s.built && StoppedOrFenced(s)
       case TeardownWaiting(c, _) => c + 1 == s.built && StoppedOrFenced(s)
       case FailedUnload => true
  }

  predicate NewestStopped(s: State) {
    s.built == 0 || s.built - 1 in s.stopped
  }

  predicate StoppedOrFenced(s: State) {
    NewestStopped(s) || (s.fence.Some? && s.fence.value == s.built - 1)
  }

  /** The newest coordinator is running: it is the runtime, unfenced, and no shutdown of it was ever started. */
  ghost predicate Fresh(s: State) {
    && s.built > 0 && s.runtime.Some? && s.runtime.value == s.built - 1 && s.fence == None
    && forall t :: 0 <= t < |s.tasks| ==> s.tasks[t].owner + 1 < s.built
  }

  ghost predicate Invariant(s: State) {
    TasksOwned(s) && RunningIsRecorded(s) && OlderStopped(s) && FenceHolds(s)
  }

  /** Starting a shutdown of the newest coordinator, by setup, rollback or unload. */
  lemma WithTaskKeeps(s: State, c: nat)
    requires TasksOwned(s) && RunningIsRecorded(s) && c < s.built && !BlockedFor(s, c)
    ensures var t := WithTask(s, c);
      && t.record.Some? && t.record.value.coordinator == c && t.record.value.task < |t.tasks|
      && t.tasks[t.record.value.task].owner == c
      && TasksOwned(t) && RunningIsRecorded(t)
      && t == s.(tasks := t.tasks, record := t.record)
  {}

  lemma CallsKeepInvariant(s: State, a: Action)
    requires Invariant(s)
    requires a.CallSetup? || a.RollbackShutsDown? || a.TeardownShutsDown?
    ensures Invariant(Step(s, a))
  {
    if Step(s, a) != s {
      if a.CallSetup? && s.fence.Some? && !BlockedFor(s, s.fence.value) {
        WithTaskKeeps(s, s.fence.value);
      } else if !a.CallSetup? && !BlockedFor(s, s.phase.c) {
        WithTaskKeeps(s, s.phase.c);
      }
    }
  }

  lemma FencingKeepsInvariant(s: State, a: Action)
    requires Invariant(s) && (a.ConstructCoordinator? || a.SetupRaises? || a.PlatformsUnload?)
    ensures Invariant(Step(s, a))
  {}

  lemma PhasesKeepInvariant(s: State, a: Action)
    requires Invariant(s)
    requires !a.ConstructCoordinator? && !a.SetupRaises? && !a.PlatformsUnload?
    requires !a.CallSetup? && !a.RollbackShutsDown? && !a.TeardownShutsDown?
    requires !a.WaitEnds? && !a.TaskEnds? && !a.ReaperResumes? && !a.ReaperWakes?
    ensures Invariant(Step(s, a))
  {}

  lemma ClearRecordKeeps(s: State, c: nat, task: nat)
    requires Invariant(s) && task < |s.tasks| && s.tasks[task].status != Running
    ensures Invariant(ClearRecord(s, c, task))
  {}

  lemma ScheduleReaperKeeps(s: State, c: nat, task: nat)
    requires Invariant(s) && task < |s.tasks| && s.tasks[task].owner == c
    ensures Invariant(ScheduleReaper(s, c, task))
  {}

  /** Dropping the references of a stopped coordinator breaks no fence. */
  lemma ClearReferencesKeeps(s: State, c: nat)
    requires Invariant(s) && c in s.stopped && c < s.built
    requires Fresh(s) ==> c + 1 < s.built
    ensures Invariant(ClearReferences(s, c))
  {
    var t := ClearReferences(s, c);
    if c + 1 == s.built {
      assert NewestStopped(s);
    }
  }

  predicate Waiting(s: State) {
    s.phase.Releasing? || s.phase.RollbackWaiting? || s.phase.TeardownWaiting?
  }

  lemma FailedWaitKeepsInvariant(s: State, cancelled: bool, cleanupRaises: bool)
    requires Invariant(s) && Waiting(s) && (cancelled || !Finished(s, s.phase.task))
    ensures Invariant(EndWait(s, cancelled, cleanupRaises))
  {
    ScheduleReaperKeeps(s, s.phase.c, s.phase.task);
  }

  lemma FinishedWaitKeepsInvariant(s: State, cleanupRaises: bool)
    requires Invariant(s) && Waiting(s) && Finished(s, s.phase.task)
    ensures Invariant(EndWait(s, false, cleanupRaises))
  {
    var t := ClearRecord(s, s.phase.c, s.phase.task);
    ClearRecordKeeps(s, s.phase.c, s.phase.task);
    if !cleanupRaises {
      ClearReferencesKeeps(t, s.phase.c);
    }
  }

  lemma ChangedReaperKeeps(s: State, r: Option<Reaper>)
    requires Invariant(s)
    requires r.Some? ==> r.value.task < |s.tasks| && s.tasks[r.value.task].owner == r.value.coordinator
    requires r.Some? && r.value.sleeping ==> s.tasks[r.value.task].status != Running
    ensures Invariant(s.(reaper := r))
  {}

  lemma ReaperResumeKeepsInvariant(s: State, r: Reaper, cancelled: bool)
    requires Invariant(s) && s.reaper == Some(r) && !r.sleeping
    ensures Invariant(ResumeReaper(s, r, cancelled))
  {
    var c, task := r.coordinator, r.task;
    if s.tasks[task].status == Running {
      ChangedReaperKeeps(s, None);
    } else {
      ClearRecordKeeps(s, c, task);
      ChangedReaperKeeps(ClearRecord(s, c, task), None);
      ChangedReaperKeeps(s, Some(r.(sleeping := true)));
      if s.tasks[task].status == Succeeded {
        ClearReferencesKeeps(ClearRecord(s, c, task), c);
        ChangedReaperKeeps(ClearReferences(ClearRecord(s, c, task), c), None);
      }
    }
  }

  lemma ReaperWakeKeepsInvariant(s: State, r: Reaper, cancelled: bool)
    requires Invariant(s) && s.reaper == Some(r) && r.sleeping
    ensures Invariant(WakeReaper(s, r, cancelled))
  {
    if !cancelled && s.record == Some(Record(r.coordinator, r.task)) {
      RetryKeepsInvariant(s, r);
    }
  }

  lemma RetryKeepsInvariant(s: State, r: Reaper)
    requires Invariant(s) && s.reaper == Some(r) && r.sleeping && s.record == Some(Record(r.coordinator, r.task))
    ensures Invariant(WakeReaper(s, r, false))
  {
    var t := NewTask(s, r.coordinator);
    assert RunningIsRecorded(t);
    assert TasksOwned(WakeReaper(s, r, false));
  }

  lemma StepKeepsInvariant(s: State, a: Action)
    requires Invariant(s)
    ensures Invariant(Step(s, a))
  {
    match a
    case CallSetup => CallsKeepInvariant(s, a);
    case RollbackShutsDown => CallsKeepInvariant(s, a);
    case TeardownShutsDown => CallsKeepInvariant(s, a);
    case WaitEnds(cancelled, cleanupRaises) =>
      if Waiting(s) {
        if cancelled || !Finished(s, s.phase.task) { FailedWaitKeepsInvariant(s, cancelled, cleanupRaises); }
        else { FinishedWaitKeepsInvariant(s, cleanupRaises); }
      }
    case TaskEnds(task, ok) =>
    case ConstructCoordinator => FencingKeepsInvariant(s, a);
    case SetupRaises => FencingKeepsInvariant(s, a);
    case PlatformsUnload(_) => FencingKeepsInvariant(s, a);
    case ReaperResumes(cancelled) =>
      if s.reaper.Some? && !s.reaper.value.sleeping { ReaperResumeKeepsInvariant(s, s.reaper.value, cancelled); }
    case ReaperWakes(cancelled) =>
      if s.reaper.Some? && s.reaper.value.sleeping { ReaperWakeKeepsInvariant(s, s.reaper.value, cancelled); }
    case _ => PhasesKeepInvariant(s, a);
  }

  lemma {:induction false} RunKeepsInvariant(s: State, actions: seq<Action>)
    requires Invariant(s)
    ensures Invariant(RunFrom(s, actions))
    decreases |actions|
  {
    if actions != [] {
      StepKeepsInvariant(s, actions[0]);
      RunKeepsInvariant(Step(s, actions[0]), actions[1..]);
    }
  }

  lemma ReachableInvariant(actions: seq<Action>)
    ensures Invariant(Run(actions))
  {
    RunKeepsInvariant(INITIAL, actions);
  }

  lemma WaitDropsOnlyStopped(s: State, cancelled: bool, cleanupRaises: bool)
    requires TasksOwned(s) && Waiting(s)
    ensures var t := EndWait(s, cancelled, cleanupRaises);
      t.built == s.built && t.stopped == s.stopped
        && (t.fence == s.fence || (s.fence == Some(s.phase.c) && s.phase.c in s.stopped))
  {}

  lemma ReaperDropsOnlyStopped(s: State, cancelled: bool)
    requires TasksOwned(s) && s.reaper.Some? && !s.reaper.value.sleeping
    ensures var t, c := ResumeReaper(s, s.reaper.value, cancelled), s.reaper.value.coordinator;
      t.built == s.built && t.stopped == s.stopped && (t.fence == s.fence || (s.fence == Some(c) && c in s.stopped))
  {}

  /** What one step guarantees whenever the invariant holds. */
  lemma StepIsSafe(s: State, a: Action)
    requires Invariant(s)
    ensures Step(s, a).built != s.built ==> forall c: nat :: c < s.built ==> c in Step(s, a).stopped
    ensures s.fence.Some? && Step(s, a).fence != s.fence ==> s.fence.value in Step(s, a).stopped
  {
    match a
    case WaitEnds(cancelled, cleanupRaises) =>
      if Waiting(s) {
        WaitDropsOnlyStopped(s, cancelled, cleanupRaises);
      }
    case ReaperResumes(cancelled) =>
      if s.reaper.Some? && !s.reaper.value.sleeping {
        ReaperDropsOnlyStopped(s, cancelled);
      }
    case ConstructCoordinator =>
    case SetupRaises =>
    case PlatformsUnload(_) =>
    case _ => assert Step(s, a).built == s.built && Step(s, a).fence == s.fence;
  }

  /** A rollback or unload that shuts down: its own task is on record, or another one blocks it. */
  lemma ShutdownIsOwned(s: State, c: nat, rollback: bool)
    requires Invariant(s) && (s.phase.RollingBack? || s.phase.TearingDown?) && c == s.phase.c
    ensures var t := BeginShutdown(s, c, rollback);
      && t.record.Some? && (t.fence == Some(c) || c in t.stopped)
      && (t.phase.Idle? ==>
            && t.record.value.coordinator != c && t.tasks == s.tasks
            && t.record.value.task < |t.tasks| && t.tasks[t.record.value.task].status == Running)
      && (!t.phase.Idle? ==>
            var task := t.record.value.task;
            && t.record == Some(Record(c, task))
            && (t.tasks == s.tasks || t.tasks == s.tasks + [ShutdownTask(c, Running)])
            && t.phase == if rollback then RollbackWaiting(c, task) else TeardownWaiting(c, task))
  {}

  /**
   How a bounded shutdown wait for `c` and its task ends.  Cancelled or unfinished, it leaves all
   references as they are and a reaper behind, for `c` and the task if there was none; finished, it
   drops the references to `c` and only those, unless the cleanup that follows raises.
   */
  lemma WaitEndsExactly(s: State, cancelled: bool, cleanupRaises: bool)
    requires Waiting(s)
    ensures var t, c, task := Step(s, WaitEnds(cancelled, cleanupRaises)), s.phase.c, s.phase.task;
      var finished := !cancelled && task < |s.tasks| && s.tasks[task].status == Succeeded;
      && t.built == s.built && t.tasks == s.tasks && t.stopped == s.stopped
      && t.reaper == (if finished || s.reaper.Some? then s.reaper else Some(Reaper(c, task, false)))
      && t.record == (if finished && s.record == Some(Record(c, task)) then None else s.record)
      && (if finished && !cleanupRaises then
            && t.fence == (if s.fence == Some(c) then None else s.fence)
            && t.runtime == (if s.runtime == Some(c) then None else s.runtime)
            && t.primary == (if s.primary == Some(c) then None else s.primary)
          else
            t.fence == s.fence && t.runtime == s.runtime && t.primary == s.primary)
      && t.phase == (if s.phase.TeardownWaiting? && (cancelled || (finished && cleanupRaises)) then FailedUnload
                     else if s.phase.Releasing? && finished && !cleanupRaises then Released
                     else Idle)
  {}

  /**
   Setup marks its own coordinator, and fencing it ends its ownership at once; a failed unload of the
   platforms leaves it in charge.
   */
  lemma LoadedCoordinatorStays(actions: seq<Action>)
    ensures var s := Run(actions);
      && (s.phase.SettingUp? ==>
            && s.runtime == Some(s.phase.c) == Step(s, MarkPrimary).primary && Owner(s) == s.runtime
            && Owner(Step(s, SetupRaises)) == None && Step(s, SetupRaises).fence == s.runtime)
      && (s.phase.UnloadingPlatforms? ==>
            && Owner(Step(s, PlatformsUnload(false))) == s.runtime
            && Owner(Step(s, PlatformsUnload(true))) == None && Step(s, PlatformsUnload(true)).fence == s.runtime)
  {
    ReachableInvariant(actions);
  }

  /** Rollback and unload wait for their own coordinator, each for the end that belongs to it. */
  lemma ShutdownBeginsExactly(s: State)
    requires s.phase.RollingBack? || s.phase.TearingDown?
    ensures var t, c := Step(s, if s.phase.RollingBack? then RollbackShutsDown else TeardownShutsDown), s.phase.c;
      var recorded := s.record.Some? && s.record.value.coordinator == c;
      var blocked := s.record.Some? && !recorded
        && s.record.value.task < |s.tasks| && s.tasks[s.record.value.task].status == Running;
      var task := if recorded then s.record.value.task else |s.tasks|;
      if blocked then t == s.(phase := Idle)
      else
        && t.tasks == (if recorded then s.tasks else s.tasks + [ShutdownTask(c, Running)])
        && t == s.(tasks := t.tasks, record := Some(Record(c, task)),
             phase := if s.phase.RollingBack? then RollbackWaiting(c, task) else TeardownWaiting(c, task))
  {}

  /**
   The calls move from phase to phase, and nothing else of the entry changes: above all, a rollback or
   unload that fails keeps fence, record and references as they are.
   */
  lemma CallsKeepReferences(s: State)
    ensures s.phase.SettingUp? ==> Step(s, SetupSucceeds) == s.(phase := Loaded)
    ensures s.phase.Loaded? ==> Step(s, CallUnload) == s.(phase := UnloadingPlatforms(s.runtime))
    ensures s.phase == UnloadingPlatforms(None) ==> Step(s, PlatformsUnload(true)) == s.(phase := Idle)
    ensures s.phase.Released? ==> Step(s, AbortSetup) == s.(phase := Idle)
    ensures s.phase.RollingBack? ==> Step(s, RollbackAborts) == s.(phase := Idle)
    ensures Step(s, TeardownRaises) == (if s.phase.TearingDown? then s.(phase := FailedUnload) else s)
    ensures !s.phase.TearingDown? ==> Step(s, TeardownShutsDown) == s
    ensures s.phase.UnloadingPlatforms? ==> Step(s, PlatformsUnload(false)) == s.(phase := FailedUnload)
  {}

  /**
   The reaper when its task has ended, or it is cancelled: after a success it drops the references to
   its coordinator and only those; after a failure, or cancelled at the end, it goes on after a pause
   exactly if its coordinator is still fenced or the runtime.
   */
  lemma ReaperResumesExactly(s: State, cancelled: bool)
    requires s.reaper.Some? && !s.reaper.value.sleeping && s.reaper.value.task < |s.tasks|
    ensures var t, r := Step(s, ReaperResumes(cancelled)), s.reaper.value;
      var c, status := r.coordinator, s.tasks[r.task].status;
      var released := status == Succeeded && !cancelled;
      var retries := status != Running && !released && (s.fence == Some(c) || s.runtime == Some(c));
      && t == s.(fence := t.fence, runtime := t.runtime, primary := t.primary, record := t.record, reaper := t.reaper)
      && t.fence == (if released && s.fence == Some(c) then None else s.fence)
      && t.runtime == (if released && s.runtime == Some(c) then None else s.runtime)
      && t.primary == (if released && s.primary == Some(c) then None else s.primary)
      && t.record == (if status != Running && !retries && s.record == Some(Record(c, r.task)) then None else s.record)
      && t.reaper == (if retries then Some(Reaper(c, r.task, true))
                      else if status == Running && !cancelled then s.reaper else None)
  {}

  /**
   After its pause the reaper turns to the task that is then on record for its coordinator, and starts
   a new one exactly if that is still the one that failed; it ends if the record is gone or another's.
   */
  lemma ReaperWakesExactly(s: State, cancelled: bool)
    requires s.reaper.Some? && s.reaper.value.sleeping
    ensures var t, c := Step(s, ReaperWakes(cancelled)), s.reaper.value.coordinator;
      if cancelled || s.record == None || s.record.value.coordinator != c then t == s.(reaper := None)
      else if s.record.value.task != s.reaper.value.task then
        t == s.(reaper := Some(Reaper(c, s.record.value.task, false)))
      else
        t == s.(tasks := s.tasks + [ShutdownTask(c, Running)], record := Some(Record(c, |s.tasks|)),
                reaper := Some(Reaper(c, |s.tasks|, false)))
  {}

  // ---- The results, over every run ----

  /** A new coordinator is constructed only when every earlier one has been shut down successfully. */
  lemma SingleRuntime(actions: seq<Action>, a: Action, c: nat)
    requires Step(Run(actions), a).built != Run(actions).built
    requires c < Run(actions).built
    ensures c in Run(actions).stopped
  {
    ReachableInvariant(actions);
    StepIsSafe(Run(actions), a);
  }

  /** At any time at most one coordinator has not been shut down. */
  lemma AtMostOneLiveCoordinator(actions: seq<Action>, c: nat, d: nat)
    requires c < Run(actions).built && c !in Run(actions).stopped
    requires d < Run(actions).built && d !in Run(actions).stopped
    ensures c == d
  {
    ReachableInvariant(actions);
  }

  /** One of the coordinator's own shutdown tasks has succeeded. */
  ghost predicate HasOwnTask(s: State, c: nat) {
    exists t :: 0 <= t < |s.tasks| && s.tasks[t] == ShutdownTask(c, Succeeded)
  }

  /** A step that ends no task keeps the tasks there are, and stops nobody. */
  lemma TasksOnlyGrow(s: State, a: Action)
    requires !a.TaskEnds?
    ensures s.tasks <= Step(s, a).tasks && Step(s, a).stopped == s.stopped
  {}

  lemma StepKeepsOwnTask(s: State, a: Action, c: nat)
    requires c in s.stopped ==> HasOwnTask(s, c)
    ensures c in Step(s, a).stopped ==> HasOwnTask(Step(s, a), c)
  {
    var u := Step(s, a);
    if c in s.stopped {
      var t :| 0 <= t < |s.tasks| && s.tasks[t] == ShutdownTask(c, Succeeded);
      if !a.TaskEnds? {
        TasksOnlyGrow(s, a);
      }
      assert u.tasks[t] == s.tasks[t];
    } else if a.TaskEnds? {
      if c in u.stopped {
        assert u.tasks[a.task] == ShutdownTask(c, Succeeded);
      }
    } else {
      TasksOnlyGrow(s, a);
    }
  }

  /** Success is recorded only for a coordinator one of whose own shutdown tasks succeeded. */
  lemma {:induction false} StoppedByOwnTask(s: State, actions: seq<Action>, c: nat)
    requires c in s.stopped ==> HasOwnTask(s, c)
    ensures c in RunFrom(s, actions).stopped ==> HasOwnTask(RunFrom(s, actions), c)
    decreases |actions|
  {
    if actions != [] {
      StepKeepsOwnTask(s, actions[0], c);
      StoppedByOwnTask(Step(s, actions[0]), actions[1..], c);
    }
  }

  /** At most one shutdown task is unfinished at any time. */
  lemma AtMostOneShutdownRunning(actions: seq<Action>, t: nat, u: nat)
    requires t < |Run(actions).tasks| && Run(actions).tasks[t].status == Running
    requires u < |Run(actions).tasks| && Run(actions).tasks[u].status == Running
    ensures t == u
  {
    ReachableInvariant(actions);
  }

  /** A fence falls only once the coordinator behind it has been shut down. */
  lemma FenceFallsOnlyAfterShutdown(actions: seq<Action>, a: Action, c: nat)
    requires Run(actions).fence == Some(c)
    requires Step(Run(actions), a).fence != Some(c)
    ensures c in Step(Run(actions), a).stopped
  {
    ReachableInvariant(actions);
    StepIsSafe(Run(actions), a);
  }

  /**
   While a coordinator is set up or loaded it owns the entry, and nothing that a late
   shutdown task or a reaper of an earlier coordinator does can change that.
   */
  lemma LateCompletionIsHarmless(actions: seq<Action>, a: Action)
    requires var s := Run(actions); s.phase.SettingUp? || s.phase.Loaded? || s.phase.UnloadingPlatforms?
    requires a.TaskEnds? || a.ReaperResumes? || a.ReaperWakes?
    ensures var s, t := Run(actions), Step(Run(actions), a);
      && s.built > 0 && Owns(s, s.built - 1)
      && t.runtime == s.runtime && t.fence == s.fence && t.phase == s.phase
      && (s.primary == s.runtime ==> t.primary == s.primary)
  {
    ReachableInvariant(actions);
  }

  /** A reaper only ever clears the record of its own coordinator. */
  lemma ReaperKeepsForeignRecord(actions: seq<Action>, a: Action)
    requires a.ReaperResumes? || a.ReaperWakes?
    requires var s := Run(actions);
      s.reaper.Some? && s.record.Some? && s.record.value.coordinator != s.reaper.value.coordinator
    ensures Step(Run(actions), a).record == Run(actions).record
  {
    ReachableInvariant(actions);
  }

  /** A coordinator that has lost the entry never owns it again. */
  lemma {:induction false} OwnershipIsNotRegained(s: State, actions: seq<Action>, c: nat)
    requires Invariant(s) && c < s.built && !Owns(s, c)
    ensures !Owns(RunFrom(s, actions), c)
    decreases |actions|
  {
    if actions != [] {
      StepKeepsInvariant(s, actions[0]);
      StepKeepsLoss(s, actions[0], c);
      OwnershipIsNotRegained(Step(s, actions[0]), actions[1..], c);
    }
  }

  lemma StepKeepsLoss(s: State, a: Action, c: nat)
    requires s.phase.SettingUp? || s.phase.UnloadingPlatforms? ==> s.fence == None
    requires c < s.built && !Owns(s, c)
    ensures !Owns(Step(s, a), c) && c < Step(s, a).built
  {
    var t := Step(s, a);
    match a
    case ConstructCoordinator =>
    case SetupRaises => assert t.runtime == s.runtime;
    case PlatformsUnload(_) => assert t.runtime == s.runtime;
    case WaitEnds(cancelled, cleanupRaises) => WaitKeepsLoss(s, cancelled, cleanupRaises, c);
    case ReaperResumes(cancelled) =>
      if s.reaper.Some? && !s.reaper.value.sleeping {
        assert ResumeReaper(s, s.reaper.value, cancelled).built == s.built;
      }
    case _ => assert t.runtime == s.runtime && t.fence == s.fence;
  }

  lemma WaitKeepsLoss(s: State, cancelled: bool, cleanupRaises: bool, c: nat)
    requires c < s.built && !Owns(s, c)
    ensures !Owns(EndWait(s, cancelled, cleanupRaises), c) && EndWait(s, cancelled, cleanupRaises).built == s.built
  {}

  // ---- What the listener and option tasks see of the lifecycle ----

  /** Outside a running setup or a loaded entry nobody owns it. */
  predicate Disowned(s: State) {
    s.phase.SettingUp? || s.phase.Loaded? || s.phase.UnloadingPlatforms? || s.phase.FailedUnload? || Owner(s) == None
  }

  lemma WaitKeepsDisowned(s: State, cancelled: bool, cleanupRaises: bool)
    requires Disowned(s)
    ensures Disowned(EndWait(s, cancelled, cleanupRaises))
  {}

  lemma StepKeepsDisowned(s: State, a: Action)
    requires Invariant(s) && Disowned(s)
    ensures Disowned(Step(s, a))
  {
    match a
    case WaitEnds(cancelled, cleanupRaises) => WaitKeepsDisowned(s, cancelled, cleanupRaises);
    case ReaperResumes(cancelled) =>
      if s.reaper.Some? && !s.reaper.value.sleeping {
        var t := ResumeReaper(s, s.reaper.value, cancelled);
        assert t.phase == s.phase;
      }
    case _ =>
  }

  lemma {:induction false} ReachableDisowned(s: State, actions: seq<Action>)
    requires Invariant(s) && Disowned(s)
    ensures Disowned(RunFrom(s, actions))
    decreases |actions|
  {
    if actions != [] {
      StepKeepsInvariant(s, actions[0]);
      StepKeepsDisowned(s, actions[0]);
      ReachableDisowned(Step(s, actions[0]), actions[1..]);
    }
  }

  /**
   Seen from outside, ownership can only be lost, or pass from nobody to a newly
   constructed coordinator; this is the environment that `Listener` and `OptionReconcile`
   assume.
   */
  lemma OwnershipEnvironment(actions: seq<Action>, a: Action)
    ensures var s, t := Run(actions), Step(Run(actions), a);
      || Owner(t) == Owner(s)
      || Owner(t) == None
      || (Owner(s) == None && Owner(t) == Some(s.built) && t.built == s.built + 1)
  {
    ReachableInvariant(actions);
    ReachableDisowned(INITIAL, actions);
    RuntimeOnlyConstructed(Run(actions), a);
    if Owner(Run(actions)) == None && a != ConstructCoordinator {
      NobodyStaysNobody(Run(actions), a);
    }
  }

  lemma ClearingLeavesNobody(s: State, c: nat, task: nat)
    requires Owner(s) == None
    ensures Owner(ClearReferences(ClearRecord(s, c, task), c)) == None && Owner(ClearRecord(s, c, task)) == None
  {}

  lemma NobodyStaysNobody(s: State, a: Action)
    requires s.phase.SettingUp? || s.phase.UnloadingPlatforms? ==> s.fence == None
    requires Owner(s) == None && a != ConstructCoordinator
    ensures Owner(Step(s, a)) == None
  {
    var t := Step(s, a);
    match a
    case ConstructCoordinator =>
    case SetupRaises => assert t.runtime == s.runtime;
    case PlatformsUnload(_) => assert t.runtime == s.runtime;
    case WaitEnds(cancelled, cleanupRaises) =>
      if Waiting(s) {
        ClearingLeavesNobody(s, s.phase.c, s.phase.task);
      }
    case ReaperResumes(_) =>
      if s.reaper.Some? {
        ClearingLeavesNobody(s, s.reaper.value.coordinator, s.reaper.value.task);
      }
    case _ => assert t.runtime == s.runtime && t.fence == s.fence;
  }

  lemma RuntimeOnlyConstructed(s: State, a: Action)
    ensures var t := Step(s, a);
      t.runtime == s.runtime || t.runtime == None || (t.runtime == Some(s.built) && t.built == s.built + 1)
  {
    match a
    case WaitEnds(cancelled, cleanupRaises) =>
      assert EndWait(s, cancelled, cleanupRaises).runtime == s.runtime
        || EndWait(s, cancelled, cleanupRaises).runtime == None;
    case ReaperResumes(cancelled) =>
      if s.reaper.Some? {
        assert ResumeReaper(s, s.reaper.value, cancelled).runtime == s.runtime
          || ResumeReaper(s, s.reaper.value, cancelled).runtime == None;
      }
    case _ =>
  }
}
