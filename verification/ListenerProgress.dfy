/** The listener never gets stuck: an entry that keeps its coordinator can always get a fresh client. */
module ListenerProgress {
  import opened Wrappers
  import opened DeferredList
  import opened Listener
  import Reachability

  /** The owner stays, and what is awaited from now on succeeds in time. */
  predicate Calm(a: Action) {
    match a
    case NewRuntime => false
    case LoseOwnership => false
    case CleanupCancelled => false
    case ExistingStopEnds(inTime) => inTime
    case DetachEnds(inTime) => inTime
    case CleanupJudges(inTime) => inTime
    case StartEnds(ok) => ok
    case _ => true
  }

  ghost predicate Reaches(s: State, t: State) {
    Reachability.Reaches(Step, Calm, s, t)
  }

  lemma One(s: State, a: Action)
    requires Calm(a)
    ensures Reaches(s, Step(s, a))
  {
    Reachability.Here(Step, Calm, Step(s, a));
    Reachability.Then(Step, Calm, s, a, Step(s, a));
  }

  lemma Two(s: State, a: Action, b: Action)
    requires Calm(a) && Calm(b)
    ensures Reaches(s, Step(Step(s, a), b))
  {
    One(s, a);
    One(Step(s, a), b);
    Reachability.Through(Step, Calm, s, Step(s, a), Step(Step(s, a), b));
  }

  /** Only clients that have been published are referred to. */
  ghost predicate Known(s: State) {
    && (s.slot.Some? ==> s.slot.value < s.clients)
    && (forall x :: x in s.deferred ==> x < s.clients)
    && (!s.holder.Free? ==> s.holder.client < s.clients)
    && (s.teardown.Some? ==> s.teardown.value < s.clients)
    && (s.cleanup.Draining? ==> forall x :: x in s.cleanup.snapshot || x in s.cleanup.pending ==> x < s.clients)
  }

  lemma StopEndsKeepsKnown(s: State, client: nat, stoppedInTime: bool)
    requires client < s.clients && (forall x :: x in s.deferred ==> x < s.clients)
    ensures forall x :: x in StopEnds(s, client, stoppedInTime).deferred ==> x < s.clients
  {
    AppendMissingMembers(s.deferred, [client]);
  }

  lemma ReconciledKnown(current: seq<Handle>, processed: seq<Handle>, retained: seq<Handle>, n: nat)
    requires forall x :: x in current || x in retained ==> x < n
    ensures forall x :: x in Reconciled(current, processed, retained) ==> x < n
  {
    ReconciledMembers(current, processed, retained);
  }

  lemma JudgeKeepsKnown(s: State, stoppedInTime: bool)
    requires Known(s) && s.cleanup.Draining? && s.cleanup.next < |s.cleanup.snapshot|
    ensures Known(JudgeNext(s, s.cleanup, stoppedInTime))
  {
    var d := s.cleanup;
    var client := d.snapshot[d.next];
    assert client in d.snapshot;
    StopEndsKeepsKnown(s, client, stoppedInTime);
    var t := StopEnds(s, client, stoppedInTime);
    var pending := if stoppedInTime && client in s.stopped then d.pending else d.pending + [client];
    assert forall x :: x in pending ==> x < s.clients;
    assert t == s.(slot := t.slot, deferred := t.deferred) && (t.slot == s.slot || t.slot == None);
    if d.next + 1 == |d.snapshot| {
      ReconciledKnown(t.deferred, d.snapshot, pending, s.clients);
    }
  }

  lemma CancelKeepsKnown(s: State)
    requires Known(s) && s.cleanup.Draining?
    ensures Known(Step(s, CleanupCancelled))
  {
    if s.cleanup.next < |s.cleanup.snapshot| {
      assert s.cleanup.snapshot[s.cleanup.next] in s.cleanup.snapshot;
      AppendMissingMembers(s.deferred, [s.cleanup.snapshot[s.cleanup.next]]);
    }
  }

  lemma StopKeepsKnown(s: State, a: Action)
    requires Known(s) && (a.ExistingStopEnds? || a.DetachEnds? || a.TeardownEnds?)
    ensures Known(Step(s, a))
  {
    match a
    case ExistingStopEnds(ok) => if s.holder.StoppingExisting? { StopEndsKeepsKnown(s, s.holder.client, ok); }
    case DetachEnds(ok) => if s.holder.Detaching? { StopEndsKeepsKnown(s, s.holder.client, ok); }
    case TeardownEnds(ok) => if s.teardown.Some? { StopEndsKeepsKnown(s, s.teardown.value, ok); }
  }

  lemma StepKeepsKnown(s: State, a: Action)
    requires Known(s)
    ensures Known(Step(s, a))
  {
    match a
    case ExistingStopEnds(_) => StopKeepsKnown(s, a);
    case DetachEnds(_) => StopKeepsKnown(s, a);
    case TeardownEnds(_) => StopKeepsKnown(s, a);
    case CleanupJudges(ok) =>
      if s.cleanup.Draining? && s.cleanup.next < |s.cleanup.snapshot| { JudgeKeepsKnown(s, ok); }
    case CleanupCancelled => if s.cleanup.Draining? { CancelKeepsKnown(s); }
    case _ =>
  }

  lemma {:induction false} ReachableKnown(actions: seq<Action>)
    ensures Known(Run(actions))
  {
    if actions != [] {
      ReachableKnown(actions[..|actions| - 1]);
      StepKeepsKnown(Run(actions[..|actions| - 1]), actions[|actions| - 1]);
    }
  }

  /** A state of the runs, still owned by the coordinator `c`. */
  ghost predicate Sound(s: State, c: nat) {
    Invariant(s) && Known(s) && s.owner == Some(c)
  }

  lemma StepKeepsSound(s: State, a: Action, c: nat)
    requires Sound(s, c) && Calm(a)
    ensures Sound(Step(s, a), c)
  {
    StepKeepsInvariant(s, a);
    StepKeepsKnown(s, a);
  }

  /** The holder of the lock gets rid of its client and lets go of the lock, or publishes one. */
  lemma StopPhaseEnds(s: State, c: nat) returns (t: State)
    requires Sound(s, c) && (s.holder.StoppingExisting? || s.holder.Detaching?)
    ensures Reaches(s, t) && Sound(t, c) && (t.holder.Free? || t.holder == Starting(c, s.clients))
    ensures t.deferred == s.deferred && t.cleanup == s.cleanup
    ensures s.holder.StoppingExisting? && s.holder.c == c && s.holder.shouldRun ==>
      t.holder == Starting(c, s.clients) && t.slot == Some(s.clients) && t.clients == s.clients + 1
  {
    var stop := StopSucceeds(s.holder.client);
    var ends := if s.holder.StoppingExisting? then ExistingStopEnds(true) else DetachEnds(true);
    StepKeepsSound(s, stop, c);
    StepKeepsSound(Step(s, stop), ends, c);
    t := Step(Step(s, stop), ends);
    Two(s, stop, ends);
  }

  lemma LockIsReleased(s: State, c: nat) returns (t: State)
    requires Sound(s, c)
    ensures Reaches(s, t) && Sound(t, c) && t.holder.Free?
  {
    if s.holder.Free? {
      t := s;
      Reachability.Here(Step, Calm, s);
    } else if s.holder.Starting? {
      var u := Step(s, StartEnds(true));
      StepKeepsSound(s, StartEnds(true), c);
      One(s, StartEnds(true));
      if u.holder.Free? {
        t := u;
      } else {
        t := StopPhaseEnds(u, c);
        t := LastStart(t, c, u);
        Reachability.Through(Step, Calm, s, u, t);
      }
    } else {
      t := StopPhaseEnds(s, c);
      t := LastStart(t, c, s);
    }
  }

  lemma LastStart(s: State, c: nat, before: State) returns (t: State)
    requires Sound(s, c) && Reaches(before, s) && (s.holder.Free? || (s.holder.Starting? && s.holder.c == c))
    ensures Reaches(before, t) && Sound(t, c) && t.holder.Free?
    ensures t == s.(holder := Free)
  {
    if s.holder.Free? {
      t := s;
    } else {
      t := Step(s, StartEnds(true));
      StepKeepsSound(s, StartEnds(true), c);
      One(s, StartEnds(true));
      Reachability.Through(Step, Calm, before, s, t);
    }
  }

  /** A running cleanup pass comes to its end; a pass that has retained nothing so far retains nothing. */
  lemma {:induction false} CleanupPassEnds(s: State, c: nat) returns (t: State)
    requires Sound(s, c) && s.cleanup.Draining? && s.holder.Free?
    ensures Reaches(s, t) && Sound(t, c) && t.cleanup.Inactive? && t.holder.Free?
    ensures s.cleanup.pending == [] && s.deferred == s.cleanup.snapshot ==> t.deferred == []
    decreases |s.cleanup.snapshot| - s.cleanup.next
  {
    var client := s.cleanup.snapshot[s.cleanup.next];
    assert client in s.cleanup.snapshot;
    var u := Step(s, StopSucceeds(client));
    StepKeepsSound(s, StopSucceeds(client), c);
    var v := Step(u, CleanupJudges(true));
    StepKeepsSound(u, CleanupJudges(true), c);
    Two(s, StopSucceeds(client), CleanupJudges(true));
    if v.cleanup.Draining? {
      t := CleanupPassEnds(v, c);
      Reachability.Through(Step, Calm, s, v, t);
    } else {
      t := v;
      var left := Reconciled(s.deferred, s.cleanup.snapshot, s.cleanup.pending);
      assert left != [] ==> left[0] in left;
      ReconciledMembers(s.deferred, s.cleanup.snapshot, s.cleanup.pending);
    }
  }

  lemma DeferredListEmpties(s: State, c: nat) returns (t: State)
    requires Sound(s, c) && s.holder.Free? && s.cleanup.Inactive?
    ensures Reaches(s, t) && Sound(t, c) && t.holder.Free? && t.deferred == []
  {
    if s.deferred == [] {
      t := s;
      Reachability.Here(Step, Calm, s);
    } else {
      var u := Step(s, CleanupBegins);
      StepKeepsSound(s, CleanupBegins, c);
      One(s, CleanupBegins);
      t := CleanupPassEnds(u, c);
      Reachability.Through(Step, Calm, s, u, t);
    }
  }

  lemma AllCleanedUp(s: State, c: nat) returns (t: State)
    requires Sound(s, c) && s.holder.Free?
    ensures Reaches(s, t) && Sound(t, c) && t.holder.Free? && t.deferred == []
  {
    if s.cleanup.Draining? {
      var u := CleanupPassEnds(s, c);
      t := DeferredListEmpties(u, c);
      Reachability.Through(Step, Calm, s, u, t);
    } else {
      t := DeferredListEmpties(s, c);
    }
  }

  /** With the lock free and nothing deferred, a reconcile call publishes a new client. */
  lemma FreshClient(s: State, c: nat) returns (t: State)
    requires Sound(s, c) && s.holder.Free? && s.deferred == []
    ensures Reaches(s, t) && Sound(t, c) && t.holder.Free? && t.clients == s.clients + 1 && t.slot == Some(s.clients)
  {
    var u := Step(s, Reconcile(true, false));
    StepKeepsSound(s, Reconcile(true, false), c);
    One(s, Reconcile(true, false));
    if u.holder.StoppingExisting? {
      var v := StopPhaseEnds(u, c);
      Reachability.Through(Step, Calm, s, u, v);
      t := LastStart(v, c, s);
    } else {
      t := LastStart(u, c, s);
    }
  }

  /** A client published after `s` sits in the slot of the same owner, and the lock is free. */
  ghost predicate Served(s: State, t: State) {
    && t.owner == s.owner && t.holder.Free?
    && t.slot.Some? && t.slot.value >= s.clients
  }

  /**
   After every run that leaves the entry with a coordinator: if it keeps the entry and stops
   and starts succeed from now on, a new client gets published, started and kept in the slot.
   */
  lemma ListenerIsNeverStuck(actions: seq<Action>)
    requires Run(actions).owner.Some?
    ensures exists t :: Reaches(Run(actions), t) && Served(Run(actions), t)
  {
    ReachableInvariant(actions);
    ReachableKnown(actions);
    var t := ClientFrom(Run(actions), Run(actions).owner.value);
  }

  lemma ClientFrom(s: State, c: nat) returns (t: State)
    requires Sound(s, c)
    ensures Reaches(s, t) && Served(s, t)
  {
    var u := LockIsReleased(s, c);
    var v := AllCleanedUp(u, c);
    Reachability.Through(Step, Calm, s, u, v);
    ClientsGrow(s, v);
    t := FreshClient(v, c);
    Reachability.Through(Step, Calm, s, v, t);
  }

  lemma ClientsGrow(s: State, t: State)
    requires Reaches(s, t)
    ensures s.clients <= t.clients
  {
    var actions: seq<Action> :| (forall b :: b in actions ==> Calm(b)) && Reachability.RunBy(Step, s, actions) == t;
    ClientsGrowAlong(s, actions);
  }

  lemma {:induction false} ClientsGrowAlong(s: State, actions: seq<Action>)
    ensures s.clients <= Reachability.RunBy(Step, s, actions).clients
    decreases |actions|
  {
    if actions != [] {
      ClientsGrowAlong(Step(s, actions[0]), actions[1..]);
    }
  }

  // ---- Switching the listener off ----

  /** The lock holder is stopping a client that nothing is to replace. */
  ghost predicate SwitchingOff(s: State) {
    s.holder.StoppingExisting? && !s.holder.shouldRun && (s.slot == None || s.slot == Some(s.holder.client))
  }

  /** Nobody holds the lock, and there is no client. */
  predicate SwitchedOff(s: State) {
    s.holder.Free? && s.slot == None
  }

  lemma StepKeepsOff(s: State, a: Action)
    requires !a.Reconcile? && (SwitchingOff(s) || SwitchedOff(s))
    ensures var t := Step(s, a);
      && t.clients == s.clients
      && (if SwitchedOff(s) || a.ExistingStopEnds? then SwitchedOff(t) else SwitchingOff(t))
  {
    match a
    case CleanupJudges(ok) =>
      if s.cleanup.Draining? && s.cleanup.next < |s.cleanup.snapshot| {
        var t := JudgeNext(s, s.cleanup, ok);
        assert t.clients == s.clients && t.holder == s.holder && (t.slot == s.slot || t.slot == None);
      }
    case _ =>
  }

  lemma {:induction false} RunKeepsOff(s: State, actions: seq<Action>)
    requires SwitchingOff(s) || SwitchedOff(s)
    requires forall a :: a in actions ==> !a.Reconcile?
    ensures var t := Reachability.RunBy(Step, s, actions);
      && t.clients == s.clients && (SwitchingOff(t) || SwitchedOff(t))
      && (SwitchedOff(s) || (exists a :: a in actions && a.ExistingStopEnds?) ==> SwitchedOff(t))
    decreases |actions|
  {
    if actions != [] {
      assert actions[0] in actions && forall a :: a in actions[1..] ==> a in actions;
      assert actions == [actions[0]] + actions[1..];
      StepKeepsOff(s, actions[0]);
      RunKeepsOff(Step(s, actions[0]), actions[1..]);
    }
  }

  /**
   After a reconcile call for a listener that should not run, whatever else happens before the next
   call, no client is published, and once the awaited stop has ended the slot is empty and the lock
   is free.
   */
  lemma SwitchingOffEmptiesSlot(s: State, matches: bool, actions: seq<Action>)
    requires s.holder.Free? && s.owner.Some? && s.deferred == []
    requires forall a :: a in actions ==> !a.Reconcile?
    ensures var t := Reachability.RunBy(Step, Step(s, Reconcile(false, matches)), actions);
      && t.clients == s.clients
      && (s.slot == None || (exists a :: a in actions && a.ExistingStopEnds?) ==> SwitchedOff(t))
  {
    RunKeepsOff(Step(s, Reconcile(false, matches)), actions);
  }
}
