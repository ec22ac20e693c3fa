/**
 The local MQTT listener of one config entry as a step system: the slot that holds the
 published client, the list of clients whose stop is still draining, the lock that
 serialises reconciliation, and the unload and cleanup tasks that run beside it.

 Clients and coordinators are numbered in the order of their creation.  Whether a stop
 succeeds, fails or times out is chosen by the environment; a waiter can only report
 success for a client whose stop task has really succeeded.
 */
module Listener {
  import opened Wrappers
  import opened DeferredList

  /** What the holder of the reconcile lock is awaiting. */
  datatype Holder =
    | Free
    | StoppingExisting(c: nat, client: nat, shouldRun: bool)
    | Starting(c: nat, client: nat)
    | Detaching(c: nat, client: nat)

  /** The cleanup task: the clients of its snapshot up to `next` have been judged. */
  datatype Cleanup = Inactive | Draining(snapshot: seq<nat>, next: nat, pending: seq<nat>)

  datatype State = State(
    // Number of clients published so far.
    clients: nat,
    // Clients whose stop task has succeeded.
    stopped: set<nat>,
    slot: Option<nat>,
    deferred: seq<nat>,
    // The coordinator that owns the entry, if any, and the number constructed so far.
    owner: Option<nat>,
    coordinators: nat,
    holder: Holder,
    // The client that unload or setup rollback is stopping.
    teardown: Option<nat>,
    cleanup: Cleanup)

  const INITIAL := State(0, {}, None, [], None, 0, Free, None, Inactive)

  datatype Action =
    | NewRuntime
    | LoseOwnership
    | StopSucceeds(client: nat)
    | Reconcile(shouldRun: bool, matches: bool)
    | ExistingStopEnds(stoppedInTime: bool)
    | StartEnds(ok: bool)
    | DetachEnds(stoppedInTime: bool)
    | TeardownBegins
    | TeardownEnds(stoppedInTime: bool)
    | CleanupBegins
    | CleanupJudges(stoppedInTime: bool)
    | CleanupCancelled

  /** The slot no longer refers to this client. */
  function Vacate(s: State, client: nat): State {
    if s.slot == Some(client) then s.(slot := None) else s
  }

  /** `_defer_supplemental_local_mqtt`: out of the slot, into the deferred list. */
  function Defer(s: State, client: nat): State {
    Vacate(s, client).(deferred := AppendMissing(s.deferred, [client]))
  }

  /** The end of a bounded stop: success only if the stop task has succeeded. */
  function StopEnds(s: State, client: nat, stoppedInTime: bool): State {
    if stoppedInTime && client in s.stopped then Vacate(s, client) else Defer(s, client)
  }

  /** Put a new client in the slot and start it. */
  function Publish(s: State, c: nat): State {
    s.(clients := s.clients + 1, slot := Some(s.clients), holder := Starting(c, s.clients))
  }

  /** The locked start, from taking the lock to its first await. */
  function BeginReconcile(s: State, c: nat, shouldRun: bool, matches: bool): State {
    if s.deferred != [] then s
    else if s.slot.Some? then
      if shouldRun && matches then s else s.(holder := StoppingExisting(c, s.slot.value, shouldRun))
    else if shouldRun then Publish(s, c)
    else s
  }

  function JudgeNext(s: State, d: Cleanup, stoppedInTime: bool): State
    requires d.Draining? && d.next < |d.snapshot|
  {
    var client := d.snapshot[d.next];
    var t := StopEnds(s, client, stoppedInTime);
    var pending := if stoppedInTime && client in s.stopped then d.pending else d.pending + [client];
    if d.next + 1 < |d.snapshot| then t.(cleanup := Draining(d.snapshot, d.next + 1, pending))
    else t.(cleanup := Inactive, deferred := Reconciled(t.deferred, d.snapshot, pending))
  }

  /** One action; an action that is not enabled leaves the state as it is. */
  function Step(s: State, a: Action): State {
    match a
    case NewRuntime =>
      if s.owner == None && s.teardown == None
      then s.(owner := Some(s.coordinators), coordinators := s.coordinators + 1) else s
    case LoseOwnership => s.(owner := None)
    case StopSucceeds(client) => if client < s.clients then s.(stopped := s.stopped + {client}) else s
    case Reconcile(shouldRun, matches) =>
      if s.holder.Free? && s.owner.Some? then BeginReconcile(s, s.owner.value, shouldRun, matches) else s
    case ExistingStopEnds(stoppedInTime) =>
      if !s.holder.StoppingExisting? then s
      else
        var t := StopEnds(s, s.holder.client, stoppedInTime).(holder := Free);
        if stoppedInTime && s.holder.client in s.stopped && s.owner == Some(s.holder.c) && s.holder.shouldRun
        then Publish(t, s.holder.c) else t
    case StartEnds(ok) =>
      if !s.holder.Starting? then s
      else if ok && s.owner == Some(s.holder.c) then s.(holder := Free)
      else s.(holder := Detaching(s.holder.c, s.holder.client))
    case DetachEnds(stoppedInTime) =>
      if s.holder.Detaching? then StopEnds(s, s.holder.client, stoppedInTime).(holder := Free) else s
    case TeardownBegins =>
      if s.owner == None && s.teardown == None then s.(teardown := s.slot) else s
    case TeardownEnds(stoppedInTime) =>
      if s.teardown.Some? then StopEnds(s, s.teardown.value, stoppedInTime).(teardown := None) else s
    case CleanupBegins =>
      if s.cleanup.Inactive? && s.deferred != [] then s.(cleanup := Draining(s.deferred, 0, [])) else s
    case CleanupJudges(stoppedInTime) =>
      if s.cleanup.Draining? && s.cleanup.next < |s.cleanup.snapshot| then JudgeNext(s, s.cleanup, stoppedInTime) else s
    case CleanupCancelled =>
      if s.cleanup.Draining? && s.cleanup.next < |s.cleanup.snapshot|
      then Defer(s, s.cleanup.snapshot[s.cleanup.next]).(cleanup := Inactive) else s
  }

  function Run(actions: seq<Action>): State {
    if actions == [] then INITIAL else Step(Run(actions[..|actions| - 1]), actions[|actions| - 1])
  }

  // ---- The invariant ----

  /** Every client not confirmed stopped is in the slot or in the deferred list. */
  ghost predicate NothingLost(s: State) {
    forall x: nat :: x < s.clients && x !in s.stopped ==> s.slot == Some(x) || x in s.deferred
  }

  /** Between the check of the list and the publication nobody can have deferred a client. */
  ghost predicate LockIsSafe(s: State) {
    && (s.slot.Some? ==> s.slot.value < s.clients)
    && (s.holder.StoppingExisting? ==>
          && (s.slot == None || s.slot == Some(s.holder.client))
          && (s.owner == Some(s.holder.c) ==> s.deferred == []))
    && (s.teardown.Some? ==> s.owner == None)
    && (s.owner.Some? ==> s.owner.value < s.coordinators)
    && (s.holder.StoppingExisting? ==> s.holder.c < s.coordinators)
  }

  /** While cleanup runs, its snapshot stays deferred, and what it has let go is stopped. */
  ghost predicate CleanupIsSafe(s: State) {
    s.cleanup.Draining? ==>
      && s.cleanup.next < |s.cleanup.snapshot|
      && (forall i :: 0 <= i < |s.cleanup.snapshot| ==> s.cleanup.snapshot[i] in s.deferred)
      && (forall i :: 0 <= i < s.cleanup.next ==>
           s.cleanup.snapshot[i] in s.stopped || s.cleanup.snapshot[i] in s.cleanup.pending)
      && (forall x :: x in s.cleanup.pending ==> x in s.cleanup.snapshot)
  }

  ghost predicate Invariant(s: State) {
    NothingLost(s) && LockIsSafe(s) && CleanupIsSafe(s) && Distinct(s.deferred)
  }

  lemma DeferKeeps(s: State, client: nat)
    ensures var t := Defer(s, client);
      && (forall x :: x in t.deferred <==> x in s.deferred || x == client)
      && (Distinct(s.deferred) ==> Distinct(t.deferred))
      && t.deferred != []
      && (NothingLost(s) ==> NothingLost(t))
  {
    AppendMissingMembers(s.deferred, [client]);
    assert client in Defer(s, client).deferred;
  }

  lemma StopEndsKeeps(s: State, client: nat, stoppedInTime: bool)
    requires NothingLost(s) && Distinct(s.deferred)
    ensures var t := StopEnds(s, client, stoppedInTime);
      && NothingLost(t) && Distinct(t.deferred)
      && (forall x :: x in s.deferred ==> x in t.deferred)
      && t.slot != Some(client) && (t.slot == s.slot || t.slot == None)
      && (stoppedInTime && client in s.stopped ==> t.deferred == s.deferred)
      && t == s.(slot := t.slot, deferred := t.deferred)
  {
    DeferKeeps(s, client);
  }

  lemma JudgeKeepsInvariant(s: State, stoppedInTime: bool)
    requires Invariant(s) && s.cleanup.Draining?
    ensures Invariant(JudgeNext(s, s.cleanup, stoppedInTime))
  {
    var d := s.cleanup;
    var client := d.snapshot[d.next];
    var t := StopEnds(s, client, stoppedInTime);
    StopEndsKeeps(s, client, stoppedInTime);
    assert client in s.deferred;
    if d.next + 1 == |d.snapshot| {
      var pending := if stoppedInTime && client in s.stopped then d.pending else d.pending + [client];
      ReconciledMembers(t.deferred, d.snapshot, pending);
      var u := JudgeNext(s, d, stoppedInTime);
      forall x: nat | x < u.clients && x !in u.stopped ensures u.slot == Some(x) || x in u.deferred {
        if x in d.snapshot {
          var i :| 0 <= i < |d.snapshot| && d.snapshot[i] == x;
          assert i < d.next || i == d.next;
        }
      }
    }
  }

  lemma ExistingStopKeepsInvariant(s: State, stoppedInTime: bool)
    requires Invariant(s) && s.holder.StoppingExisting?
    ensures Invariant(Step(s, ExistingStopEnds(stoppedInTime)))
  {
    StopEndsKeeps(s, s.holder.client, stoppedInTime);
  }

  lemma DetachKeepsInvariant(s: State, stoppedInTime: bool)
    requires Invariant(s) && s.holder.Detaching?
    ensures Invariant(Step(s, DetachEnds(stoppedInTime)))
  {
    StopEndsKeeps(s, s.holder.client, stoppedInTime);
  }

  lemma TeardownKeepsInvariant(s: State, stoppedInTime: bool)
    requires Invariant(s) && s.teardown.Some?
    ensures Invariant(Step(s, TeardownEnds(stoppedInTime)))
  {
    StopEndsKeeps(s, s.teardown.value, stoppedInTime);
  }

  lemma CancelKeepsInvariant(s: State)
    requires Invariant(s) && s.cleanup.Draining?
    ensures Invariant(Step(s, CleanupCancelled))
  {
    DeferKeeps(s, s.cleanup.snapshot[s.cleanup.next]);
  }

  lemma ReconcileKeepsInvariant(s: State, shouldRun: bool, matches: bool)
    requires Invariant(s)
    ensures Invariant(Step(s, Reconcile(shouldRun, matches)))
  {}

  /** The actions that touch neither the slot nor the deferred list. */
  lemma OthersKeepInvariant(s: State, a: Action)
    requires Invariant(s)
    requires a.NewRuntime? || a.LoseOwnership? || a.StopSucceeds? || a.StartEnds? || a.TeardownBegins?
      || a.CleanupBegins?
    ensures Invariant(Step(s, a))
  {}

  lemma StepKeepsInvariant(s: State, a: Action)
    requires Invariant(s)
    ensures Invariant(Step(s, a))
  {
    match a
    case Reconcile(shouldRun, matches) => ReconcileKeepsInvariant(s, shouldRun, matches);
    case ExistingStopEnds(ok) => if s.holder.StoppingExisting? { ExistingStopKeepsInvariant(s, ok); }
    case DetachEnds(ok) => if s.holder.Detaching? { DetachKeepsInvariant(s, ok); }
    case TeardownEnds(ok) => if s.teardown.Some? { TeardownKeepsInvariant(s, ok); }
    case CleanupJudges(ok) => if s.cleanup.Draining? { JudgeKeepsInvariant(s, ok); }
    case CleanupCancelled => if s.cleanup.Draining? { CancelKeepsInvariant(s); }
    case _ => OthersKeepInvariant(s, a);
  }

  lemma {:induction false} ReachableInvariant(actions: seq<Action>)
    ensures Invariant(Run(actions))
  {
    if actions != [] {
      ReachableInvariant(actions[..|actions| - 1]);
      StepKeepsInvariant(Run(actions[..|actions| - 1]), actions[|actions| - 1]);
    }
  }

  // ---- The results, over every run ----

  /** A started client that is not confirmed stopped is always in the slot or deferred. */
  lemma NoClientIsLost(actions: seq<Action>, x: nat)
    requires x < Run(actions).clients && x !in Run(actions).stopped
    ensures Run(actions).slot == Some(x) || x in Run(actions).deferred
  {
    ReachableInvariant(actions);
  }

  /** At most one client is neither stopped nor deferred. */
  lemma AtMostOneLiveClient(actions: seq<Action>, x: nat, y: nat)
    requires x < Run(actions).clients && x !in Run(actions).stopped && x !in Run(actions).deferred
    requires y < Run(actions).clients && y !in Run(actions).stopped && y !in Run(actions).deferred
    ensures x == y
  {
    ReachableInvariant(actions);
  }

  // ---- What becomes of the client in the slot ----

  /**
   A reconcile call that gets the lock starts stopping the client in the slot, and no other, exactly
   if it should not run or does not match; a client that should run and matches is left alone, and
   so is everything while the lock is taken, nobody owns the entry or a client is deferred.
   */
  lemma ReconcileDecides(s: State, shouldRun: bool, matches: bool)
    ensures var t := Step(s, Reconcile(shouldRun, matches));
      if !s.holder.Free? || s.owner == None || s.deferred != [] then t == s
      else if s.slot == None then
        if shouldRun then
          t == s.(clients := s.clients + 1, slot := Some(s.clients), holder := Starting(s.owner.value, s.clients))
        else t == s
      else if shouldRun && matches then t == s
      else t == s.(holder := StoppingExisting(s.owner.value, s.slot.value, shouldRun))
  {}

  /** A start that fails or outlives its owner is followed by a stop of the same client. */
  lemma StartEndsExactly(s: State, ok: bool)
    requires s.holder.Starting?
    ensures var t, h := Step(s, StartEnds(ok)), s.holder;
      t == s.(holder := if ok && s.owner == Some(h.c) then Free else Detaching(h.c, h.client))
  {}

  /** Once a stop has been awaited, the client is out of the slot, and stopped or deferred. */
  ghost predicate Cleared(s: State, client: nat) {
    s.slot != Some(client) && (client in s.stopped || client in s.deferred)
  }

  lemma StopEndsClears(s: State, client: nat, stoppedInTime: bool)
    ensures Cleared(StopEnds(s, client, stoppedInTime), client)
  {
    AppendMissingMembers(s.deferred, [client]);
  }

  /**
   However a stop is awaited, it defers its client exactly if the wait ran out or the stop has not
   succeeded, and it touches no other client, in the slot or deferred.
   */
  lemma StopEndsExactly(s: State, client: nat, stoppedInTime: bool, x: nat)
    ensures var t := StopEnds(s, client, stoppedInTime);
      && (x in t.deferred <==> x in s.deferred || (x == client && (!stoppedInTime || client !in s.stopped)))
      && (t.slot == Some(x) <==> s.slot == Some(x) && x != client)
      && t == s.(slot := t.slot, deferred := t.deferred)
  {
    AppendMissingMembers(s.deferred, [client]);
  }

  /** Each of the three stops is awaited for its own client, and ends whoever awaits it. */
  lemma StopsAreAwaited(s: State, stoppedInTime: bool)
    ensures s.teardown.Some? ==>
      Step(s, TeardownEnds(stoppedInTime)) == StopEnds(s, s.teardown.value, stoppedInTime).(teardown := None)
    ensures s.holder.Detaching? ==>
      Step(s, DetachEnds(stoppedInTime)) == StopEnds(s, s.holder.client, stoppedInTime).(holder := Free)
    ensures s.holder.StoppingExisting? ==>
      var t := StopEnds(s, s.holder.client, stoppedInTime);
      var restarts := stoppedInTime && s.holder.client in s.stopped && s.owner == Some(s.holder.c)
        && s.holder.shouldRun;
      Step(s, ExistingStopEnds(stoppedInTime)) ==
        if restarts then t.(clients := s.clients + 1, slot := Some(s.clients),
          holder := Starting(s.holder.c, s.clients))
        else t.(holder := Free)
  {}

  /** One cleanup task at a time: it takes the whole list, and a further request does not restart it. */
  lemma CleanupIsSingleFlight(s: State)
    ensures Step(s, CleanupBegins) ==
      if s.cleanup.Inactive? && s.deferred != [] then s.(cleanup := Draining(s.deferred, 0, [])) else s
  {}

  /** A cancelled cleanup task lets no client go, and makes room for the next one. */
  lemma CancelledCleanupKeepsAll(s: State)
    requires Invariant(s) && s.cleanup.Draining?
    ensures var t := Step(s, CleanupCancelled);
      && t == s.(cleanup := Inactive, slot := t.slot, deferred := t.deferred)
      && (forall x :: x in t.deferred <==> x in s.deferred)
      && (t.slot.Some? || (s.slot.Some? && s.slot.value in t.deferred) || s.slot.None?)
      && t.slot != Some(s.cleanup.snapshot[s.cleanup.next])
  {
    DeferKeeps(s, s.cleanup.snapshot[s.cleanup.next]);
  }

  /** Ownership: a new runtime follows only a released one whose client has been torn down. */
  lemma OwnersAreSeparate(s: State, a: Action)
    ensures Step(s, a).owner != s.owner ==>
      (a == LoseOwnership && Step(s, a) == s.(owner := None))
      || (a == NewRuntime && s.owner == None && s.teardown == None
          && Step(s, a) == s.(owner := Some(s.coordinators), coordinators := s.coordinators + 1))
    ensures Step(s, LoseOwnership).owner == None
    ensures s.owner == None && s.teardown == None ==> Step(s, NewRuntime).owner == Some(s.coordinators)
  {}

  /** Rollback and unload take the client in the slot and clear it; so does the detaching of a failed start. */
  lemma TeardownClearsSlot(s: State, stoppedInTime: bool)
    ensures Step(s, TeardownBegins) ==
      if s.owner == None && s.teardown == None then s.(teardown := s.slot) else s
    ensures s.teardown.Some? ==> Cleared(Step(s, TeardownEnds(stoppedInTime)), s.teardown.value)
    ensures s.holder.Detaching? ==>
      var t := Step(s, DetachEnds(stoppedInTime)); Cleared(t, s.holder.client) && t.holder == Free
  {
    if s.teardown.Some? {
      StopEndsClears(s, s.teardown.value, stoppedInTime);
    }
    if s.holder.Detaching? {
      StopEndsClears(s, s.holder.client, stoppedInTime);
    }
  }

  /** Publication, seen from any state that the invariant allows. */
  lemma PublicationNeedsOwner(s: State, a: Action)
    requires Invariant(s) && Step(s, a).clients != s.clients
    ensures var t := Step(s, a);
      && t.holder.Starting? && s.owner == Some(t.holder.c) && t.slot == Some(s.clients)
      && s.deferred == [] && t.deferred == []
      && forall x: nat :: x < s.clients ==> x in s.stopped
  {}

  /**
   A client is published only by the coordinator that owns the entry at that moment, while
   nothing is deferred, and only when every earlier client is confirmed stopped.
   */
  lemma PublicationIsExclusive(actions: seq<Action>, a: Action)
    requires Step(Run(actions), a).clients != Run(actions).clients
    ensures var s, t := Run(actions), Step(Run(actions), a);
      && s.deferred == [] && t.deferred == []
      && t.slot == Some(s.clients) && t.holder.Starting? && s.owner == Some(t.holder.c)
      && forall x: nat :: x < s.clients ==> x in s.stopped
  {
    ReachableInvariant(actions);
    PublicationNeedsOwner(Run(actions), a);
  }
}
