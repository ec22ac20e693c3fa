/** The lifecycle never gets stuck: an entry that is not loaded can always be set up again. */
module LifecycleProgress {
  import opened Wrappers
  import opened Lifecycle
  import Reachability

  /** Nothing is cancelled and no cleanup raises, and shutdown tasks that end from now on succeed. */
  predicate Calm(a: Action) {
    match a
    case WaitEnds(cancelled, cleanupRaises) => !cancelled && !cleanupRaises
    case TaskEnds(_, ok) => ok
    case ReaperResumes(cancelled) => !cancelled
    case ReaperWakes(cancelled) => !cancelled
    case _ => true
  }

  /** What goes on without any call: shutdown tasks succeed, and the reaper does its work. */
  predicate Background(a: Action) {
    match a
    case TaskEnds(_, ok) => ok
    case ReaperResumes(cancelled) => !cancelled
    case ReaperWakes(cancelled) => !cancelled
    case _ => false
  }

  ghost predicate Reaches(s: State, t: State) {
    Reachability.Reaches(Step, Calm, s, t)
  }

  ghost predicate ReachesAlone(s: State, t: State) {
    Reachability.Reaches(Step, Background, s, t)
  }

  lemma AloneIsCalm(s: State, t: State)
    requires ReachesAlone(s, t)
    ensures Reaches(s, t)
  {
    Reachability.Weaken(Step, Background, Calm, s, t);
  }

  /** No call is in progress. */
  predicate Resting(s: State) {
    s.phase.Idle? || s.phase.FailedUnload?
  }

  /** The background work has come to an end: `t` has no reaper, and nothing else moved on. */
  ghost predicate Settled(s: State, t: State) {
    Invariant(t) && t.phase == s.phase && t.reaper == None && t.built == s.built
  }

  /** Nothing refers to the coordinator any more. */
  predicate Forgotten(s: State, c: nat) {
    s.fence != Some(c) && s.runtime != Some(c) && (s.record.Some? ==> s.record.value.coordinator != c)
  }

  /** The reaper waits for the task that is on record for its coordinator. */
  predicate OnRecord(s: State) {
    s.reaper.Some? && s.record == Some(Record(s.reaper.value.coordinator, s.reaper.value.task))
  }

  /** A reaper whose task is running or has succeeded comes to its end. */
  lemma ReaperFinishes(s: State) returns (t: State)
    requires Invariant(s) && Resting(s) && s.reaper.Some? && !s.reaper.value.sleeping
    requires s.tasks[s.reaper.value.task].status != Failed
    ensures ReachesAlone(s, t) && Settled(s, t)
    ensures OnRecord(s) ==> Forgotten(t, s.reaper.value.coordinator)
  {
    var r := s.reaper.value;
    var ends := TaskEnds(r.task, true);
    var u := if s.tasks[r.task].status == Running then Step(s, ends) else s;
    StepKeepsInvariant(s, ends);
    t := Step(u, ReaperResumes(false));
    StepKeepsInvariant(u, ReaperResumes(false));
    assert u.tasks[r.task].status == Succeeded && u.reaper == Some(r) && u.fence == s.fence && u.record == s.record;
    Reachability.Here(Step, Background, t);
    Reachability.Then(Step, Background, u, ReaperResumes(false), t);
    if u != s {
      Reachability.Then(Step, Background, s, ends, t);
    }
  }

  /** A sleeping reaper that still holds the record retries, and the retry succeeds. */
  lemma OwnReaperRetries(s: State) returns (t: State)
    requires Invariant(s) && Resting(s) && OnRecord(s) && s.reaper.value.sleeping
    ensures ReachesAlone(s, t) && Settled(s, t) && Forgotten(t, s.reaper.value.coordinator)
  {
    var u := Step(s, ReaperWakes(false));
    StepKeepsInvariant(s, ReaperWakes(false));
    t := ReaperFinishes(u);
    Reachability.Then(Step, Background, s, ReaperWakes(false), t);
  }

  lemma SleepingReaperEnds(s: State) returns (t: State)
    requires Invariant(s) && Resting(s) && s.reaper.Some? && s.reaper.value.sleeping
    ensures ReachesAlone(s, t) && Settled(s, t)
  {
    if OnRecord(s) {
      t := OwnReaperRetries(s);
    } else {
      var u := Step(s, ReaperWakes(false));
      StepKeepsInvariant(s, ReaperWakes(false));
      if u.reaper == None {
        t := u;
        Reachability.Here(Step, Background, t);
      } else {
        t := ReplacementEnds(u);
      }
      Reachability.Then(Step, Background, s, ReaperWakes(false), t);
    }
  }

  /** The reaper waits for the task on record. */
  lemma ReplacementEnds(s: State) returns (t: State)
    requires Invariant(s) && Resting(s) && OnRecord(s) && !s.reaper.value.sleeping
    ensures ReachesAlone(s, t) && Settled(s, t) && Forgotten(t, s.reaper.value.coordinator)
  {
    var r := s.reaper.value;
    if s.tasks[r.task].status != Failed {
      t := ReaperFinishes(s);
    } else {
      var u := Step(s, ReaperResumes(false));
      StepKeepsInvariant(s, ReaperResumes(false));
      if u.reaper == None {
        t := u;
        Reachability.Here(Step, Background, t);
      } else {
        t := OwnReaperRetries(u);
      }
      Reachability.Then(Step, Background, s, ReaperResumes(false), t);
    }
  }

  lemma AnyReaperEnds(s: State) returns (t: State)
    requires Invariant(s) && Resting(s)
    ensures ReachesAlone(s, t) && Settled(s, t)
  {
    if s.reaper == None {
      t := s;
      Reachability.Here(Step, Background, s);
    } else if s.reaper.value.sleeping {
      t := SleepingReaperEnds(s);
    } else if s.tasks[s.reaper.value.task].status != Failed {
      t := ReaperFinishes(s);
    } else {
      var u := Step(s, ReaperResumes(false));
      StepKeepsInvariant(s, ReaperResumes(false));
      if u.reaper == None {
        t := u;
        Reachability.Here(Step, Background, t);
      } else {
        t := SleepingReaperEnds(u);
      }
      Reachability.Then(Step, Background, s, ReaperResumes(false), t);
    }
  }

  // ---- Setup ----

  /** Without a fence a setup call constructs the next coordinator. */
  lemma UnfencedSetup(s: State) returns (t: State)
    requires Invariant(s) && s.phase.Idle? && s.fence == None
    ensures Reaches(s, t) && t.built == s.built + 1
  {
    var u := Step(s, CallSetup);
    t := Step(u, ConstructCoordinator);
    Reachability.Here(Step, Calm, t);
    Reachability.Then(Step, Calm, u, ConstructCoordinator, t);
    Reachability.Then(Step, Calm, s, CallSetup, t);
  }

  /** A setup call that waits for a task which runs or has succeeded goes on to construct. */
  lemma ReleaseSucceeds(s: State) returns (t: State)
    requires Invariant(s) && s.phase.Releasing? && s.tasks[s.phase.task].status != Failed
    ensures Reaches(s, t) && t.built == s.built + 1
  {
    var ends := TaskEnds(s.phase.task, true);
    var u := if s.tasks[s.phase.task].status == Running then Step(s, ends) else s;
    StepKeepsInvariant(s, ends);
    assert Finished(u, u.phase.task) && u.phase == s.phase;
    var v := Step(u, WaitEnds(false, false));
    assert v.phase == Released && v.built == s.built;
    t := Step(v, ConstructCoordinator);
    Reachability.Here(Step, Calm, t);
    Reachability.Then(Step, Calm, v, ConstructCoordinator, t);
    Reachability.Then(Step, Calm, u, WaitEnds(false, false), t);
    if u != s {
      Reachability.Then(Step, Calm, s, ends, t);
    }
  }

  /** A setup call that finds a failed task leaves it to the reaper, whose retry frees the entry. */
  lemma ReleaseFails(s: State) returns (t: State)
    requires Invariant(s) && s.phase.Releasing? && s.tasks[s.phase.task].status == Failed
    requires s.reaper == None && s.fence == Some(s.phase.c) && s.record == Some(Record(s.phase.c, s.phase.task))
    ensures Reaches(s, t) && t.built == s.built + 1
  {
    var u := Step(s, WaitEnds(false, false));
    StepKeepsInvariant(s, WaitEnds(false, false));
    assert u.phase.Idle? && u.reaper == Some(Reaper(s.phase.c, s.phase.task, false)) && u.fence == s.fence
      && u.record == s.record;
    var v := ReplacementEnds(u);
    AloneIsCalm(u, v);
    assert v.fence == None;
    t := UnfencedSetup(v);
    Reachability.Through(Step, Calm, u, v, t);
    Reachability.Then(Step, Calm, s, WaitEnds(false, false), t);
  }

  lemma QuietSetup(s: State) returns (t: State)
    requires Invariant(s) && s.phase.Idle? && s.reaper == None && s.fence.Some? && !BlockedFor(s, s.fence.value)
    ensures Reaches(s, t) && t.built == s.built + 1
  {
    var u := Step(s, CallSetup);
    StepKeepsInvariant(s, CallSetup);
    assert u.phase.Releasing? && u.phase.c == s.fence.value && u.fence == s.fence && u.reaper == None
      && u.built == s.built;
    if u.tasks[u.phase.task].status == Failed {
      t := ReleaseFails(u);
    } else {
      t := ReleaseSucceeds(u);
    }
    Reachability.Then(Step, Calm, s, CallSetup, t);
  }

  lemma SetupFromIdle(s: State) returns (t: State)
    requires Invariant(s) && s.phase.Idle?
    ensures Reaches(s, t) && t.built == s.built + 1
  {
    var u := AnyReaperEnds(s);
    AloneIsCalm(s, u);
    if u.fence == None {
      t := UnfencedSetup(u);
    } else if BlockedFor(u, u.fence.value) {
      var ends := TaskEnds(u.record.value.task, true);
      var v := Step(u, ends);
      StepKeepsInvariant(u, ends);
      t := QuietSetup(v);
      Reachability.Then(Step, Calm, u, ends, t);
    } else {
      t := QuietSetup(u);
    }
    Reachability.Through(Step, Calm, s, u, t);
  }

  /**
   However setups, unloads, timeouts, failures and cancellations went before: when no call is
   in progress and shutdowns succeed from now on, a further setup constructs a coordinator.
   */
  lemma SetupIsNeverStuck(actions: seq<Action>)
    requires Run(actions).phase.Idle?
    ensures exists t :: Reaches(Run(actions), t) && t.built == Run(actions).built + 1
  {
    ReachableInvariant(actions);
    var t := SetupFromIdle(Run(actions));
  }

  // ---- A shutdown that timed out ends without a further setup ----

  /** Rollback and unload of `c`: it is fenced, and its shutdown, once begun, is the one on record. */
  ghost predicate ShutdownOnRecord(s: State) {
    match s.phase
    case RollingBack(c) => s.fence == Some(c) && Untouched(s, c)
    case TearingDown(c) => s.fence == Some(c) && Untouched(s, c)
    case RollbackWaiting(c, task) => s.fence == Some(c) && s.record == Some(Record(c, task)) && ReapsOther(s, c)
    case TeardownWaiting(c, task) => s.fence == Some(c) && s.record == Some(Record(c, task)) && ReapsOther(s, c)
    case _ => true
  }

  /** No shutdown of the coordinator was ever begun. */
  ghost predicate Untouched(s: State, c: nat) {
    forall t :: 0 <= t < |s.tasks| ==> s.tasks[t].owner != c
  }

  predicate ReapsOther(s: State, c: nat) {
    s.reaper.Some? ==> s.reaper.value.coordinator != c
  }

  lemma ReaperKeepsShutdownOnRecord(s: State, a: Action)
    requires Invariant(s) && ShutdownOnRecord(s) && (a.ReaperResumes? || a.ReaperWakes?)
    ensures ShutdownOnRecord(Step(s, a))
  {
    var t := Step(s, a);
    assert t.phase == s.phase;
    if s.phase.RollingBack? || s.phase.TearingDown? {
      assert s.reaper.Some? ==> s.reaper.value.coordinator != s.phase.c;
    }
  }

  lemma StepKeepsShutdownOnRecord(s: State, a: Action)
    requires Invariant(s) && ShutdownOnRecord(s)
    ensures ShutdownOnRecord(Step(s, a))
  {
    match a
    case ReaperResumes(_) => ReaperKeepsShutdownOnRecord(s, a);
    case ReaperWakes(_) => ReaperKeepsShutdownOnRecord(s, a);
    case WaitEnds(cancelled, cleanupRaises) =>
      if Waiting(s) {
        WaitEndsExactly(s, cancelled, cleanupRaises);
      }
    case _ =>
  }

  lemma {:induction false} ReachableShutdownOnRecord(s: State, actions: seq<Action>)
    requires Invariant(s) && ShutdownOnRecord(s)
    ensures ShutdownOnRecord(RunFrom(s, actions))
    decreases |actions|
  {
    if actions != [] {
      StepKeepsInvariant(s, actions[0]);
      StepKeepsShutdownOnRecord(s, actions[0]);
      ReachableShutdownOnRecord(Step(s, actions[0]), actions[1..]);
    }
  }

  /** While the reaper works for another coordinator, nothing but a setup call lifts the fence. */
  lemma {:induction false} ForeignReaperKeepsFence(s: State, actions: seq<Action>, c: nat)
    requires Resting(s) && s.fence == Some(c) && ReapsOther(s, c)
    requires forall a :: a in actions ==> Background(a)
    ensures Reachability.RunBy(Step, s, actions).fence == Some(c)
    decreases |actions|
  {
    if actions != [] {
      var t := Step(s, actions[0]);
      assert actions[0] in actions;
      assert Resting(t) && t.fence == Some(c) && ReapsOther(t, c);
      ForeignReaperKeepsFence(t, actions[1..], c);
    }
  }

  /**
   In every run: a rollback or unload of `c` whose wait is cancelled or ends without a successful
   shutdown is finished in the background, without a further setup, exactly if no reaper of another
   coordinator was at work when the wait ended.
   */
  lemma ReleasedWithoutSetupExactly(actions: seq<Action>, cancelled: bool, cleanupRaises: bool)
    requires var s := Run(actions);
      && (s.phase.RollbackWaiting? || s.phase.TeardownWaiting?)
      && (cancelled || !(s.phase.task < |s.tasks| && s.tasks[s.phase.task].status == Succeeded))
    ensures var s := Run(actions);
      var t := Step(s, WaitEnds(cancelled, cleanupRaises));
      (exists u :: ReachesAlone(t, u) && Forgotten(u, s.phase.c)) <==> s.reaper == None
  {
    var s := Run(actions);
    var c, t := s.phase.c, Step(s, WaitEnds(cancelled, cleanupRaises));
    ReachableInvariant(actions);
    ReachableShutdownOnRecord(INITIAL, actions);
    WaitEndsExactly(s, cancelled, cleanupRaises);
    StepKeepsInvariant(s, WaitEnds(cancelled, cleanupRaises));
    if s.reaper == None {
      var u := ReplacementEnds(t);
      assert ReachesAlone(t, u) && Forgotten(u, c);
    } else {
      forall u | ReachesAlone(t, u) ensures !Forgotten(u, c) {
        var later: seq<Action> :| (forall b :: b in later ==> Background(b)) && Reachability.RunBy(Step, t, later) == u;
        ForeignReaperKeepsFence(t, later, c);
      }
    }
  }
}
