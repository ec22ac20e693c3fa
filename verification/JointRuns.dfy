/**
 The lifecycle and the listener of one entry together.  The listener's owner is the coordinator
 that owns the entry; rollback and unload stop the client before they shut the coordinator down.
 */
module JointRuns {
  import opened Wrappers
  import Lifecycle
  import Listener

  datatype State = State(life: Lifecycle.State, listener: Listener.State)

  const INITIAL := State(Lifecycle.INITIAL, Listener.INITIAL)

  datatype Action = Life(life: Lifecycle.Action) | Client(client: Listener.Action)

  /** Rollback and unload, before they start the shutdown: this is where the client is stopped. */
  predicate StopsClient(s: Lifecycle.State) {
    s.phase.RollingBack? || s.phase.TearingDown?
  }

  /** What rollback and unload do after they have awaited the stop of the client. */
  predicate AfterStop(a: Lifecycle.Action) {
    a.RollbackAborts? || a.RollbackShutsDown? || a.TeardownRaises? || a.TeardownShutsDown?
  }

  /** The listener sees the owner change. */
  function OwnerChanges(l: Listener.State, before: Lifecycle.State, after: Lifecycle.State): Listener.State {
    if Lifecycle.Owner(after) == Lifecycle.Owner(before) then l
    else if Lifecycle.Owner(after) == None then Listener.Step(l, Listener.LoseOwnership)
    else Listener.Step(l, Listener.NewRuntime)
  }

  function Step(s: State, a: Action): State {
    match a
    case Life(x) =>
      if AfterStop(x) && s.listener.teardown.Some? then s
      else State(Lifecycle.Step(s.life, x), OwnerChanges(s.listener, s.life, Lifecycle.Step(s.life, x)))
    case Client(x) =>
      if x.NewRuntime? || x.LoseOwnership? || (x.TeardownBegins? && !StopsClient(s.life)) then s
      else s.(listener := Listener.Step(s.listener, x))
  }

  function Run(actions: seq<Action>): State {
    if actions == [] then INITIAL else Step(Run(actions[..|actions| - 1]), actions[|actions| - 1])
  }

  /** Both invariants, one owner, one numbering of coordinators, and a teardown only where it is awaited. */
  ghost predicate Invariant(s: State) {
    && Lifecycle.Invariant(s.life) && Lifecycle.Disowned(s.life) && Listener.Invariant(s.listener)
    && s.listener.owner == Lifecycle.Owner(s.life) && s.listener.coordinators == s.life.built
    && (s.listener.teardown.Some? ==> StopsClient(s.life))
  }

  lemma BuiltByConstruction(s: Lifecycle.State, a: Lifecycle.Action)
    ensures Lifecycle.Step(s, a).built == if a.ConstructCoordinator? && s.phase.Released? then s.built + 1 else s.built
  {
    var t := Lifecycle.Step(s, a);
    match a
    case WaitEnds(cancelled, cleanupRaises) => assert Lifecycle.EndWait(s, cancelled, cleanupRaises).built == s.built;
    case ReaperResumes(cancelled) =>
      if s.reaper.Some? {
        assert Lifecycle.ResumeReaper(s, s.reaper.value, cancelled).built == s.built;
      }
    case _ =>
  }

  /** While the client is being stopped, only what follows the stop leaves the phase. */
  lemma PhaseWaits(s: Lifecycle.State, a: Lifecycle.Action)
    requires StopsClient(s) && !AfterStop(a)
    ensures Lifecycle.Step(s, a).phase == s.phase
  {
    match a
    case ReaperResumes(cancelled) =>
      if s.reaper.Some? {
        assert Lifecycle.ResumeReaper(s, s.reaper.value, cancelled).phase == s.phase;
      }
    case _ =>
  }

  /** The owner of the entry changes by construction, or is lost. */
  lemma OwnerStep(s: Lifecycle.State, a: Lifecycle.Action)
    requires Lifecycle.Invariant(s) && Lifecycle.Disowned(s)
    ensures var before, after := Lifecycle.Owner(s), Lifecycle.Owner(Lifecycle.Step(s, a));
      if a.ConstructCoordinator? && s.phase.Released? then before == None && after == Some(s.built)
      else after == before || after == None
  {
    Lifecycle.RuntimeOnlyConstructed(s, a);
    BuiltByConstruction(s, a);
    if Lifecycle.Owner(s) == None && a != Lifecycle.ConstructCoordinator {
      Lifecycle.NobodyStaysNobody(s, a);
    }
  }

  lemma LifeStepKeepsInvariant(s: State, a: Lifecycle.Action)
    requires Invariant(s)
    ensures Invariant(Step(s, Life(a)))
  {
    if !(AfterStop(a) && s.listener.teardown.Some?) {
      Lifecycle.StepKeepsInvariant(s.life, a);
      Lifecycle.StepKeepsDisowned(s.life, a);
      OwnerStep(s.life, a);
      BuiltByConstruction(s.life, a);
      Listener.StepKeepsInvariant(s.listener, Listener.LoseOwnership);
      Listener.StepKeepsInvariant(s.listener, Listener.NewRuntime);
      if s.listener.teardown.Some? {
        PhaseWaits(s.life, a);
      }
    }
  }

  lemma ClientStepFrame(s: Listener.State, a: Listener.Action)
    requires !a.NewRuntime? && !a.LoseOwnership?
    ensures var t := Listener.Step(s, a);
      && t.owner == s.owner && t.coordinators == s.coordinators
      && (t.teardown.Some? && s.teardown == None ==> a.TeardownBegins?)
  {
    match a
    case CleanupJudges(ok) =>
      if s.cleanup.Draining? && s.cleanup.next < |s.cleanup.snapshot| {
        var t := Listener.JudgeNext(s, s.cleanup, ok);
        assert t.owner == s.owner && t.coordinators == s.coordinators && t.teardown == s.teardown;
      }
    case _ =>
  }

  lemma {:induction false} ReachableInvariant(actions: seq<Action>)
    ensures Invariant(Run(actions))
  {
    if actions != [] {
      var n := |actions| - 1;
      var s, a := Run(actions[..n]), actions[n];
      ReachableInvariant(actions[..n]);
      match a
      case Life(x) => LifeStepKeepsInvariant(s, x);
      case Client(x) =>
        if !x.NewRuntime? && !x.LoseOwnership? {
          Listener.StepKeepsInvariant(s.listener, x);
          ClientStepFrame(s.listener, x);
        }
    }
  }

  /**
   Nothing else is held up: the lifecycle waits only between the start and the end of a client's stop in
   a rollback or unload, and the listener only to begin that stop where one is due.
   */
  lemma OnlyStopsAreAwaited(s: State, x: Lifecycle.Action, y: Listener.Action)
    requires Invariant(s)
    ensures
      var leaves := x == Lifecycle.RollbackAborts || x == Lifecycle.RollbackShutsDown || x == Lifecycle.TeardownRaises
        || x == Lifecycle.TeardownShutsDown;
      var stopping := s.life.phase.RollingBack? || s.life.phase.TearingDown?;
      (leaves && stopping && s.listener.teardown.Some?) || Step(s, Life(x)).life == Lifecycle.Step(s.life, x)
    ensures
      var stopping := s.life.phase.RollingBack? || s.life.phase.TearingDown?;
      var due := y != Listener.NewRuntime && y != Listener.LoseOwnership && (y == Listener.TeardownBegins ==> stopping);
      due ==> Step(s, Client(y)) == State(s.life, Listener.Step(s.listener, y))
    ensures var t := Step(s, Life(x));
      t.listener == s.listener.(owner := Lifecycle.Owner(t.life), coordinators := t.life.built)
  {
    LifeStepKeepsInvariant(s, x);
    var after := Lifecycle.Owner(Step(s, Life(x)).life);
    if after != s.listener.owner && after.Some? {
      OwnerStep(s.life, x);
    }
  }

  /** A coordinator is only constructed while no client of an earlier one is being stopped. */
  lemma ConstructionFindsNoTeardown(actions: seq<Action>)
    requires Run(actions).life.phase.Released?
    ensures Run(actions).listener.teardown == None && Run(actions).listener.owner == None
  {
    ReachableInvariant(actions);
  }

  /**
   In every joint run a client is published only for the coordinator that is the entry's runtime
   and is not fenced, with nothing deferred and every earlier client confirmed stopped.
   */
  lemma PublishedOnlyByOwner(actions: seq<Action>, a: Action)
    requires Step(Run(actions), a).listener.clients != Run(actions).listener.clients
    ensures var s, t := Run(actions), Step(Run(actions), a);
      && t.listener.holder.Starting? && s.life.runtime == Some(t.listener.holder.c)
         && s.life.fence != Some(t.listener.holder.c)
      && s.listener.deferred == [] && t.listener.slot == Some(s.listener.clients)
      && forall x: nat :: x < s.listener.clients ==> x in s.listener.stopped
  {
    ReachableInvariant(actions);
    var s := Run(actions);
    assert a.Client?;
    Listener.PublicationNeedsOwner(s.listener, a.client);
  }
}
