/**
 The option handlers as they change the entry and its runtime bucket in place.  The bucket is a
 dictionary: what is not stored under its key, or has the wrong type there, counts as absent.
 */
module OptionRuntime {
  import opened Wrappers
  import opened OptionReconcile
  import opened OptionFields
  import opened OptionPush

  datatype Slot = PendingKeys | DevicePendingKeys | AdoptedOptions | OptionsSnapshot | ReconcileTask

  datatype Item = Keys(keys: set<Key>) | Values(values: Options) | Task(state: TaskState)

  type Dictionary = map<Slot, Item>

  function KeysAt(bucket: Dictionary, slot: Slot): Option<set<Key>> {
    if slot in bucket && bucket[slot].Keys? then Some(bucket[slot].keys) else None
  }

  function ValuesAt(bucket: Dictionary, slot: Slot): Option<Options> {
    if slot in bucket && bucket[slot].Values? then Some(bucket[slot].values) else None
  }

  function TaskAt(bucket: Dictionary): TaskState {
    if ReconcileTask in bucket && bucket[ReconcileTask].Task? then bucket[ReconcileTask].state else NoTask
  }

  class Entry {
    const defaults: Options
    var options: Options
    var owned: bool
    var queued: nat
    var bucket: Dictionary
    ghost var batches: seq<Batch>
    ghost var written: set<Key>

    ghost function View(): State
      reads this
    {
      var stored := ValuesAt(bucket, OptionsSnapshot);
      var snapshot := if stored.Some? then stored.value else map[];
      State(defaults, owned, options, snapshot, ValuesAt(bucket, AdoptedOptions),
            queued, KeysAt(bucket, PendingKeys), KeysAt(bucket, DevicePendingKeys), TaskAt(bucket), batches, written)
    }

    /** Pending keys have a task, and only what a form or the token generator wrote goes to the device. */
    ghost predicate Valid()
      reads this
    {
      Sound(View())
    }

    constructor (defaults: Options, options: Options)
      requires RECONCILED_KEYS <= defaults.Keys
      ensures Valid() && Initial(View()) && this.defaults == defaults && this.options == options
    {
      this.defaults, this.options, owned, queued := defaults, options, true, 0;
      bucket := map[OptionsSnapshot := Values(options)];
      batches, written := [], {};
    }

    /** `_schedule_layer5_start_if_ready` with changed keys */
    method ScheduleReconcile(changed: set<Key>, deviceKeys: Option<set<Key>>)
      modifies this`bucket
      ensures View() == Schedule(old(View()), changed, deviceKeys)
    {
      if !owned {
        return;
      }
      var pending := KeysAt(bucket, PendingKeys);
      if pending.None? {
        pending := Some({});
      }
      bucket := bucket[PendingKeys := Keys(pending.value + changed)];
      var devicePending := KeysAt(bucket, DevicePendingKeys);
      if devicePending.None? {
        devicePending := Some({});
      }
      var requested := (if deviceKeys.None? then changed else deviceKeys.value) * LOCAL_MQTT_KEYS;
      bucket := bucket[DevicePendingKeys := Keys(devicePending.value + requested)];
      if TaskAt(bucket).NoTask? {
        bucket := bucket[ReconcileTask := Task(Queued)];
      }
    }

    /** `_async_entry_updated` of an owned entry */
    method EntryUpdated(previous: Option<Options>)
      requires owned
      modifies this`bucket
      ensures View() == Update(old(View()), previous)
    {
      var base := previous;
      if base.None? {
        base := ValuesAt(bucket, OptionsSnapshot);
      }
      bucket := bucket[OptionsSnapshot := Values(options)];
      var changed := ChangedKeys(if base.Some? then base.value else map[], options);
      if changed == {} {
        return;
      }
      var adopted := ValuesAt(bucket, AdoptedOptions);
      bucket := bucket - {AdoptedOptions};
      var marked: set<Key> := {};
      if adopted.Some? {
        marked := set k | k in adopted.value && k in options && options[k] == adopted.value[k];
      }
      assert marked == MarkedKeys(old(View()));
      var local := changed * LOCAL_MQTT_KEYS;
      if local != {} {
        ScheduleReconcile(changed, Some(local - marked));
      } else if BleTransport in changed {
        ScheduleReconcile(changed, None);
      }
    }

    method StoreForm(input: Options) returns (reload: bool)
      modifies this
      ensures View() == Submit(old(View()), input)
      ensures reload <==> NeedsReload(Submitted(old(View()), input))
    {
      ghost var s := View();
      var previous: Options := map k | k in defaults :: if k in options then options[k] else defaults[k];
      var merged: Options := map k | k in defaults :: if k in input && Editable(k) then input[k] else previous[k];
      assert previous == Resolved(s) && merged == Merged(s, input);
      var changed := ChangedKeys(previous, merged);
      written := written + ChangedKeys(options, merged);
      options := merged;
      assert View() == Stored(s, input);
      reload := exists k :: k in changed && k.ReloadOption?;
      if owned && changed != {} && !reload {
        EntryUpdated(Some(previous));
      }
    }

    /**
     `async_step_init` of the options form: what was entered is stored, and every changed key that
     matters is pending afterwards, unless another one needs a reload.
     */
    method SubmitForm(input: Options) returns (reload: bool)
      requires Valid()
      modifies this
      ensures Valid() && View() == Step(old(View()), UserSubmits(input))
      ensures reload <==> exists name :: FormChanges(old(View()), input, ReloadOption(name))
      ensures forall k :: k in defaults ==>
        k in options && Some(options[k]) ==
          if k in input && k != MqttToken && k != MqttQos then Some(input[k]) else InForce(old(View()), k)
      ensures forall k ::
        owned && !reload && FormChanges(old(View()), input, k) && (ConfiguresDevice(k) || k == BleTransport) ==>
        k in OrEmpty(View().pending)
    {
      ghost var s := View();
      reload := StoreForm(input);
      StepKeepsSound(s, UserSubmits(input));
      ReloadExactly(s, input);
      forall k ensures k in defaults ==>
        k in options && Some(options[k]) ==
          if k in input && k != MqttToken && k != MqttQos then Some(input[k]) else InForce(s, k)
      {
        FormFields(s, input, k);
      }
      forall k | owned && !reload && FormChanges(s, input, k) && (ConfiguresDevice(k) || k == BleTransport)
        ensures k in OrEmpty(View().pending)
      {
        FormSchedules(s, input, k);
      }
    }

    /** The update callback of a readback: exactly what differs from the snapshot becomes pending. */
    method RunQueuedUpdate()
      requires Valid() && queued > 0
      modifies this
      ensures Valid() && View() == Step(old(View()), QueuedUpdate)
      ensures owned ==> View().snapshot == options
      ensures forall k :: owned && k in RECONCILED_KEYS ==>
        (k in OrEmpty(View().pending) <==>
           k in OrEmpty(old(View()).pending) || Lookup(old(View()).snapshot, k) != Lookup(options, k))
    {
      ghost var s := View();
      StepKeepsSound(s, QueuedUpdate);
      if owned {
        QueuedUpdateExactly(s);
      }
      queued := queued - 1;
      assert View() == s.(queued := s.queued - 1);
      if owned {
        EntryUpdated(None);
      }
    }

    method StoreReadback(config: Config)
      modifies this
      ensures View() == Adopt(old(View()), config)
    {
      if !owned || !Enabled(defaults, options) {
        return;
      }
      var news := News(options, ReadbackOptions(config));
      if news == map[] {
        return;
      }
      var adopted := ValuesAt(bucket, AdoptedOptions);
      if adopted.None? {
        adopted := Some(map[]);
      }
      bucket := bucket[AdoptedOptions := Values(adopted.value + news)];
      options := options + news;
      queued := queued + 1;
    }

    /**
     `_adopt_device_local_mqtt_config`: the options take over a valid readback of an opted-in
     entry; nothing becomes pending before the update callback that it queues.
     */
    method AdoptReadback(config: Config)
      requires Valid()
      modifies this
      ensures Valid() && View() == Step(old(View()), DeviceReadback(config))
      ensures options == if TakesReadbacks(old(View())) then Reported(old(options), config) else old(options)
      ensures queued == old(queued) + (if options != old(options) then 1 else 0)
      ensures View().pending == old(View()).pending && View().devicePending == old(View()).devicePending
    {
      ghost var s := View();
      StoreReadback(config);
      StepKeepsSound(s, DeviceReadback(config));
      ReadbackFields(s, config);
    }

    method DrainTurn() returns (pushes: bool, listener: bool, ble: bool)
      modifies this
      ensures View() == Drain(old(View()))
      ensures pushes <==> |batches| > |old(batches)| && batches[|batches| - 1].pushed != {}
      ensures listener <==> owned && OrEmpty(old(View()).pending) * LISTENER_KEYS != {}
      ensures ble <==> owned && BleTransport in OrEmpty(old(View()).pending)
    {
      pushes, listener, ble := false, false, false;
      if !owned {
        bucket := bucket - {ReconcileTask};
        return;
      }
      var changed := KeysAt(bucket, PendingKeys);
      bucket := bucket - {PendingKeys};
      if changed.None? || changed.value == {} {
        bucket := bucket - {ReconcileTask};
        return;
      }
      var devicePending := KeysAt(bucket, DevicePendingKeys);
      bucket := bucket - {DevicePendingKeys};
      var device := (if devicePending.Some? then devicePending.value else changed.value) * LOCAL_MQTT_KEYS;
      pushes := device != {};
      listener := changed.value * LISTENER_KEYS != {};
      ble := BleTransport in changed.value;
      batches := batches + [Batch(changed.value, device)];
      bucket := if listener || ble then bucket[ReconcileTask := Task(Awaiting)] else bucket - {ReconcileTask};
    }

    /**
     One turn of the loop in `_async_reconcile_entry_options`, up to its next await: which
     operations it starts, and that it pushes only what was written.
     */
    method ReconcileTurn() returns (pushes: bool, listener: bool, ble: bool)
      requires Valid() && !View().task.NoTask?
      modifies this
      ensures Valid() && View() == Step(old(View()), TaskRuns)
      ensures pushes ==> |batches| > |old(batches)| && batches[|batches| - 1].pushed * written != {}
      ensures pushes <==> owned && exists k :: k in OrEmpty(old(View()).devicePending) && ConfiguresDevice(k)
      ensures listener <==> owned && exists k :: k in OrEmpty(old(View()).pending) && ServesListener(k)
      ensures ble <==> owned && BleTransport in OrEmpty(old(View()).pending)
    {
      ghost var s := View();
      FlagsByKey(s);
      pushes, listener, ble := DrainTurn();
      StepKeepsSound(s, TaskRuns);
      if pushes {
        PushedIsWritten(View(), |batches| - 1);
      }
    }

    /** `_clear_option_reconcile_runtime_state`, when the entry is fenced or unloaded */
    method Leave()
      requires Valid()
      modifies this
      ensures Valid() && View() == Step(old(View()), LoseOwnership)
      ensures !owned && View().pending == None && View().devicePending == None && View().adopted == None
    {
      ghost var s := View();
      owned := false;
      bucket := bucket - {PendingKeys, DevicePendingKeys, AdoptedOptions};
      StepKeepsSound(s, LoseOwnership);
    }
  }

  lemma PushedIsWritten(s: State, i: nat)
    requires Explained(s) && i < |s.batches|
    ensures s.batches[i].pushed <= s.written
  {}

  lemma QueuedUpdateExactly(s: State)
    requires s.queued > 0 && s.owned
    ensures var t := Step(s, QueuedUpdate);
      t.snapshot == t.options && forall k :: k in RECONCILED_KEYS ==>
        (k in OrEmpty(t.pending) <==> k in OrEmpty(s.pending) || Differs(s.snapshot, s.options, k))
  {
    var u := s.(queued := s.queued - 1);
    UpdateFrame(u, None);
    forall k | k in RECONCILED_KEYS
      ensures k in OrEmpty(Update(u, None).pending) <==> k in OrEmpty(s.pending) || Differs(s.snapshot, s.options, k)
    {
      UpdateSchedules(u, None, k);
    }
  }
}
