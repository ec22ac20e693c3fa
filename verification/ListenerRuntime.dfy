/**
 The listener handlers as they change the client slot and the deferred list of the runtime
 bucket in place.  Each method is the code between two awaits.
 */
module ListenerRuntime {
  import opened Wrappers
  import opened DeferredList
  import opened Listener

  class Entry {
    // The slot of the bucket that holds the published client.
    var slots: map<string, nat>
    const lists: Bucket
    var clients: nat
    var stopped: set<nat>
    var owner: Option<nat>
    var coordinators: nat
    var holder: Holder
    var teardown: Option<nat>
    var cleanup: Cleanup

    function View(): State
      reads this, lists
    {
      State(clients, stopped, if SLOT in slots then Some(slots[SLOT]) else None, lists.Items(LocalMqttClients),
            owner, coordinators, holder, teardown, cleanup)
    }

    ghost predicate Valid()
      reads this, lists
    {
      lists.Valid() && Invariant(View())
    }

    /** The client may be running, and nobody is draining it. */
    ghost predicate Live(x: nat)
      reads this, lists
    {
      x < clients && x !in stopped && x !in lists.Items(LocalMqttClients)
    }

    /** No client is lost: a live one is in the slot; so there is at most one. */
    ghost predicate Exclusive()
      reads this, lists
    {
      && (forall x: nat :: Live(x) ==> SLOT in slots && slots[SLOT] == x)
      && (forall x: nat, y: nat :: Live(x) && Live(y) ==> x == y)
    }

    constructor ()
      ensures Valid() && View() == INITIAL && fresh(lists)
    {
      slots, clients, stopped, owner, coordinators := map[], 0, {}, None, 0;
      holder, teardown, cleanup := Free, None, Inactive;
      lists := new Bucket();
    }

    /** `_defer_supplemental_local_mqtt` */
    method DeferClient(client: nat)
      requires lists.Valid()
      modifies this`slots, lists
      ensures lists.Valid() && View() == Defer(old(View()), client)
    {
      if SLOT in slots && slots[SLOT] == client {
        slots := slots - {SLOT};
      }
      lists.Append(LocalMqttClients, client);
    }

    /** What follows the bounded wait of `_async_stop_local_mqtt_client`. */
    method FinishStop(client: nat, stoppedInTime: bool) returns (ok: bool)
      requires lists.Valid()
      modifies this`slots, lists
      ensures lists.Valid() && (ok <==> stoppedInTime && client in stopped)
      ensures View() == StopEnds(old(View()), client, stoppedInTime)
      ensures (SLOT in slots ==> slots[SLOT] != client) && (!ok ==> client in lists.Items(LocalMqttClients))
    {
      ok := stoppedInTime && client in stopped;
      if !ok {
        DeferClient(client);
        AppendMissingMembers(old(lists.Items(LocalMqttClients)), [client]);
      } else if SLOT in slots && slots[SLOT] == client {
        slots := slots - {SLOT};
      }
    }

    /** `_async_start_new_local_mqtt_client` up to the start of the client */
    method PublishClient(c: nat)
      modifies this`slots, this`holder, this`clients
      ensures View() == Publish(old(View()), c)
    {
      slots := slots[SLOT := clients];
      holder := Starting(c, clients);
      clients := clients + 1;
    }

    method TakeLock(shouldRun: bool, matches: bool)
      modifies this`slots, this`holder, this`clients
      ensures View() == Step(old(View()), Reconcile(shouldRun, matches))
    {
      if !holder.Free? || owner.None? || lists.Items(LocalMqttClients) != [] {
        return;
      }
      if SLOT in slots {
        if !(shouldRun && matches) {
          holder := StoppingExisting(owner.value, slots[SLOT], shouldRun);
        }
      } else if shouldRun {
        PublishClient(owner.value);
      }
    }

    /**
     `_async_start_local_mqtt_locked` up to its first await: a client is published exactly if one
     should run, the lock is free, the entry is owned, and no client is deferred or in the slot;
     at that moment every earlier client has stopped.  A client in the slot is kept exactly if it
     should run and matches, and otherwise that client is being stopped.
     */
    method ReconcileLocked(shouldRun: bool, matches: bool)
      requires Valid()
      modifies this`slots, this`holder, this`clients
      ensures Valid() && View() == Step(old(View()), Reconcile(shouldRun, matches))
      ensures clients == old(clients) + 1 <==>
        (shouldRun && old(holder).Free? && owner.Some? && lists.Items(LocalMqttClients) == [] && SLOT !in old(slots))
      ensures clients != old(clients) ==>
        SLOT in slots && slots[SLOT] == old(clients) && forall x: nat :: x < old(clients) ==> x in stopped
      ensures old(holder).Free? && owner.Some? && lists.Items(LocalMqttClients) == [] && SLOT in old(slots) ==>
        && SLOT in slots && slots[SLOT] == old(slots)[SLOT]
        && holder == if shouldRun && matches then Free else StoppingExisting(owner.value, slots[SLOT], shouldRun)
      ensures Exclusive()
    {
      ghost var s := View();
      TakeLock(shouldRun, matches);
      ReconcileKeepsInvariant(s, shouldRun, matches);
    }

    method FinishExisting(stoppedInTime: bool)
      requires lists.Valid()
      modifies this, lists
      ensures lists.Valid() && View() == Step(old(View()), ExistingStopEnds(stoppedInTime))
    {
      if !holder.StoppingExisting? {
        return;
      }
      var c, shouldRun := holder.c, holder.shouldRun;
      var ok := FinishStop(holder.client, stoppedInTime);
      holder := Free;
      if ok && owner == Some(c) && shouldRun {
        PublishClient(c);
      }
    }

    /**
     The rest of `_async_reconcile_existing_local_mqtt`, and the start that may follow: a new
     client is published only after a confirmed stop, for the coordinator that still owns the
     entry, and then all earlier clients have stopped and none is deferred.
     */
    method ExistingStopped(stoppedInTime: bool)
      requires Valid() && holder.StoppingExisting?
      modifies this, lists
      ensures Valid() && View() == Step(old(View()), ExistingStopEnds(stoppedInTime))
      ensures clients == old(clients) + 1 <==>
        (stoppedInTime && old(holder).client in stopped && owner == Some(old(holder).c) && old(holder).shouldRun)
      ensures clients != old(clients) ==>
        lists.Items(LocalMqttClients) == [] && forall x: nat :: x < old(clients) ==> x in stopped
      ensures Exclusive()
    {
      ghost var s := View();
      ExistingStopKeepsInvariant(s, stoppedInTime);
      FinishExisting(stoppedInTime);
    }

    /**
     `_async_start_new_local_mqtt_client` after the start of the client: the lock is released only
     after a successful start for the coordinator that still owns the entry.
     */
    method StartFinished(ok: bool)
      modifies this`holder
      ensures View() == Step(old(View()), StartEnds(ok))
      ensures old(holder).Starting? ==>
        holder == if ok && owner == Some(old(holder).c) then Free else Detaching(old(holder).c, old(holder).client)
    {
      if holder.Starting? {
        holder := if ok && owner == Some(holder.c) then Free else Detaching(holder.c, holder.client);
      }
    }

    /** `_async_detach_local_mqtt_client` after its wait */
    method DetachFinished(stoppedInTime: bool)
      requires lists.Valid()
      modifies this, lists
      ensures lists.Valid() && View() == Step(old(View()), DetachEnds(stoppedInTime))
    {
      if holder.Detaching? {
        var _ := FinishStop(holder.client, stoppedInTime);
        holder := Free;
      }
    }

    /** `_async_stop_supplemental_local_mqtt` after one more client of its snapshot */
    method CleanupJudged(stoppedInTime: bool)
      requires lists.Valid() && cleanup.Draining? && cleanup.next < |cleanup.snapshot|
      modifies this, lists
      ensures lists.Valid() && View() == Step(old(View()), CleanupJudges(stoppedInTime))
    {
      var snapshot, next, pending := cleanup.snapshot, cleanup.next, cleanup.pending;
      var ok := FinishStop(snapshot[next], stoppedInTime);
      if !ok {
        pending := pending + [snapshot[next]];
      }
      if next + 1 < |snapshot| {
        cleanup := Draining(snapshot, next + 1, pending);
      } else {
        cleanup := Inactive;
        lists.Reconcile(LocalMqttClients, snapshot, pending);
      }
    }

    method Dispatch(a: Action)
      requires lists.Valid()
      modifies this, lists
      ensures lists.Valid() && View() == Step(old(View()), a)
    {
      match a {
        case NewRuntime =>
          if owner.None? && teardown.None? {
            owner := Some(coordinators);
            coordinators := coordinators + 1;
          }
        case LoseOwnership => owner := None;
        case StopSucceeds(client) => if client < clients { stopped := stopped + {client}; }
        case Reconcile(shouldRun, matches) => TakeLock(shouldRun, matches);
        case ExistingStopEnds(ok) => FinishExisting(ok);
        case StartEnds(ok) => StartFinished(ok);
        case DetachEnds(ok) => DetachFinished(ok);
        case TeardownBegins =>
          if owner.None? && teardown.None? {
            teardown := if SLOT in slots then Some(slots[SLOT]) else None;
          }
        case TeardownEnds(ok) =>
          if teardown.Some? {
            var _ := FinishStop(teardown.value, ok);
            teardown := None;
          }
        case CleanupBegins =>
          if cleanup.Inactive? && lists.Items(LocalMqttClients) != [] {
            cleanup := Draining(lists.Items(LocalMqttClients), 0, []);
          }
        case CleanupJudges(ok) =>
          if cleanup.Draining? && cleanup.next < |cleanup.snapshot| { CleanupJudged(ok); }
        case CleanupCancelled =>
          if cleanup.Draining? && cleanup.next < |cleanup.snapshot| {
            DeferClient(cleanup.snapshot[cleanup.next]);
            cleanup := Inactive;
          }
      }
    }

    /** Any block between two awaits: no client is lost, and at most one that may run is not deferred. */
    method Perform(a: Action)
      requires Valid()
      modifies this, lists
      ensures Valid() && View() == Step(old(View()), a) && Exclusive()
    {
      ghost var s := View();
      StepKeepsInvariant(s, a);
      Dispatch(a);
    }
  }

  const SLOT := "local_mqtt_client"
}
