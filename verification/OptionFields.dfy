/** What each option handler stores and schedules, key by key. */
module OptionFields {
  import opened Wrappers
  import opened OptionReconcile

  /** The settings of the broker connection, all of which are configured on the device. */
  predicate ConfiguresDevice(k: Key) {
    match k
    case BleTransport => false
    case ReloadOption(_) => false
    case OtherOption(_) => false
    case _ => true
  }

  /** The listener needs all of them but the token. */
  predicate ServesListener(k: Key) {
    ConfiguresDevice(k) && k != MqttToken
  }

  lemma KeyGroups(k: Key)
    ensures k in LOCAL_MQTT_KEYS <==> ConfiguresDevice(k)
    ensures k in LISTENER_KEYS <==> ServesListener(k)
    ensures k in RECONCILED_KEYS <==> ConfiguresDevice(k) || k == BleTransport
  {}

  /** Python's `dict.get` */
  function Lookup(options: Options, k: Key): Option<Setting> {
    if k in options then Some(options[k]) else None
  }

  /** The value that counts for a key: the stored one, or else the default. */
  function InForce(s: State, k: Key): Option<Setting> {
    if k in s.options then Some(s.options[k]) else if k in s.defaults then Some(s.defaults[k]) else None
  }

  /** The owner of the entry may take over readbacks. */
  predicate TakesReadbacks(s: State) {
    s.owned && MqttEnable in s.defaults && InForce(s, MqttEnable) == Some(Flag(true))
  }

  /** The options with the configuration that the device reports. */
  function Reported(options: Options, config: Config): Options {
    match (config.enable, config.port)
    case (Some(false), _) => options[MqttEnable := Flag(false)]
    case (Some(true), Some(port)) =>
      if config.ip == "" || port < 1 || port > 65535 then options
      else
        options[MqttEnable := Flag(true)][MqttIp := Text(config.ip)][MqttPort := Number(port)]
               [MqttUsername := Text(config.userName)][MqttPassword := Text(config.password)]
               [MqttToken := Text(config.token)]
    case _ => options
  }

  lemma ReportedIsMerged(options: Options, config: Config)
    ensures options + ReadbackOptions(config) == Reported(options, config)
  {}

  lemma NewsIsWhatChanges(options: Options, values: Options)
    ensures options + News(options, values) == options + values
    ensures News(options, values) == map[] <==> options + values == options
  {
    assert forall k :: k in News(options, values) ==> (options + values)[k] == values[k];
    if options + values == options {
      assert forall k :: k in values ==> k in options && options[k] == (options + values)[k] == values[k];
    }
  }

  /**
   A valid readback that enables the broker leaves its six settings equal to the reported ones, one
   that disables it changes only the switch, and any other changes nothing; a changed key is marked
   with its value, and an update is queued if anything changed.
   */
  lemma ReadbackFields(s: State, config: Config)
    ensures var t := Step(s, DeviceReadback(config));
      && t.options == (if TakesReadbacks(s) then Reported(s.options, config) else s.options)
      && t == s.(options := t.options, adopted := t.adopted,
           queued := if t.options == s.options then s.queued else s.queued + 1)
      && (t.options == s.options ==> t == s)
      && forall k :: k in t.options ==>
           (if k in s.options && t.options[k] == s.options[k] then Mark(t, k) == Mark(s, k)
             else Mark(t, k) == Some(t.options[k]))
  {
    assert TakesReadbacks(s) <==> s.owned && OptedIn(s);
    ReportedIsMerged(s.options, config);
    NewsIsWhatChanges(s.options, ReadbackOptions(config));
  }

  /** The value with which a key is marked as read back. */
  function Mark(s: State, k: Key): Option<Setting> {
    if s.adopted.Some? && k in s.adopted.value then Some(s.adopted.value[k]) else None
  }

  /**
   A submitted form stores what was entered, and for every other option what was in force; the token
   and the quality of service cannot be entered.
   */
  lemma FormFields(s: State, input: Options, k: Key)
    ensures var t := Step(s, UserSubmits(input));
      && (k in t.options <==> k in s.defaults)
      && (k in s.defaults ==>
            Some(t.options[k]) ==
              if k in input && k != MqttToken && k != MqttQos then Some(input[k]) else InForce(s, k))
  {
    UpdateFrame(Stored(s, input), Some(Resolved(s)));
  }

  /** The form changed the key. */
  predicate FormChanges(s: State, input: Options, k: Key) {
    k in s.defaults && Step(s, UserSubmits(input)).options[k] != InForce(s, k).value
  }

  /** A submission needs a reload exactly if it changes an option that only a reload applies. */
  lemma ReloadExactly(s: State, input: Options)
    ensures NeedsReload(Submitted(s, input)) <==> exists n :: FormChanges(s, input, ReloadOption(n))
  {
    UpdateFrame(Stored(s, input), Some(Resolved(s)));
    forall j ensures FormChanges(s, input, j) <==> j in Submitted(s, input) {
      assert Step(s, UserSubmits(input)).options == Merged(s, input);
    }
    if NeedsReload(Submitted(s, input)) {
      var r :| r in Submitted(s, input) && r.ReloadOption?;
      assert FormChanges(s, input, ReloadOption(r.name));
    }
  }

  /**
   A submission makes exactly the changed keys pending, if it changes one that is applied in place
   and none that needs a reload; with a reload, or without a change, it only stores.
   */
  lemma FormSchedules(s: State, input: Options, k: Key)
    requires s.owned && (ConfiguresDevice(k) || k == BleTransport)
    ensures var t := Step(s, UserSubmits(input));
      && (k in OrEmpty(t.pending) <==>
            k in OrEmpty(s.pending) ||
            (FormChanges(s, input, k) && !exists n :: FormChanges(s, input, ReloadOption(n))))
      && ((exists n :: FormChanges(s, input, ReloadOption(n))) ==> t == s.(options := t.options, written := t.written))
  {
    KeyGroups(k);
    UpdateFrame(Stored(s, input), Some(Resolved(s)));
    ReloadExactly(s, input);
    forall j ensures FormChanges(s, input, j) <==> j in Submitted(s, input) {
      assert Step(s, UserSubmits(input)).options == Merged(s, input);
    }
    if Applied(s, input) {
      UpdateSchedules(Stored(s, input), Some(Resolved(s)), k);
    }
  }

  /** An update that sees no change of a connection or Bluetooth option schedules nothing. */
  lemma OtherOptionsScheduleNothing(s: State, previous: Option<Options>)
    requires var base := if previous.Some? then previous.value else s.snapshot;
      forall k :: Differs(base, s.options, k) ==> !ConfiguresDevice(k) && k != BleTransport
    ensures var t := Update(s, previous);
      t == s.(snapshot := s.options, adopted := t.adopted) && (t.adopted == s.adopted || t.adopted == None)
  {
    var changed := ChangedKeys(if previous.Some? then previous.value else s.snapshot, s.options);
    forall k | k in changed ensures k !in LOCAL_MQTT_KEYS && k != BleTransport {
      KeyGroups(k);
    }
    assert changed * LOCAL_MQTT_KEYS == {};
  }

  /** A restart after cleanup concerns the listener only: nothing is pushed to the device for it. */
  lemma RestartConcernsListener(s: State, k: Key)
    requires s.owned
    ensures var t := Step(s, RestartListener);
      && (k in OrEmpty(t.pending) <==> k in OrEmpty(s.pending) || ServesListener(k))
      && OrEmpty(t.devicePending) == OrEmpty(s.devicePending) && !t.task.NoTask?
  {
    KeyGroups(k);
  }

  /** One task at a time: only its own turns move it on, and a new one is started only where none is left. */
  lemma OneTaskAtATime(s: State, a: Action)
    requires a != TaskRuns && Step(s, a).task != s.task
    ensures s.owned && s.task == NoTask && Step(s, a).task == Queued && Step(s, a).pending.Some?
  {
    match a
    case UserSubmits(input) =>
      UpdateStartsOneTask(Stored(s, input), Some(Resolved(s)));
    case QueuedUpdate =>
      UpdateStartsOneTask(s.(queued := s.queued - 1), None);
    case _ =>
  }

  lemma UpdateStartsOneTask(s: State, previous: Option<Options>)
    ensures Update(s, previous).task != s.task ==>
      s.owned && s.task == NoTask && Update(s, previous).task == Queued && Update(s, previous).pending.Some?
  {}

  /**
   A turn of the task takes all pending keys at once, pushes if a device key is among those to be
   pushed, and awaits the listener or Bluetooth exactly if one of their keys is pending.
   */
  lemma TurnTakesAll(s: State)
    requires s.owned && !s.task.NoTask? && OrEmpty(s.pending) != {} && s.devicePending.Some?
    ensures var t := Step(s, TaskRuns);
      && t.pending == None && t.devicePending == None
      && |t.batches| == |s.batches| + 1 && t.batches[..|s.batches|] == s.batches
      && t.batches[|s.batches|].keys == s.pending.value
      && (forall k :: k in t.batches[|s.batches|].pushed <==> k in s.devicePending.value && ConfiguresDevice(k))
      && (t.task == Awaiting <==> exists k :: k in s.pending.value && (ServesListener(k) || k == BleTransport))
      && (t.task != Awaiting ==> t.task.NoTask?)
  {
    forall k ensures (k in LOCAL_MQTT_KEYS <==> ConfiguresDevice(k)) && (k in LISTENER_KEYS <==> ServesListener(k)) {
      KeyGroups(k);
    }
    var common := s.pending.value * LISTENER_KEYS;
    if k :| k in s.pending.value && ServesListener(k) {
      assert k in common;
    }
    if common != {} {
      var k :| k in common;
      assert k in s.pending.value && ServesListener(k);
    }
  }

  /** A turn with nothing left to do ends the task. */
  lemma IdleTurnEndsTask(s: State)
    requires !s.task.NoTask? && OrEmpty(s.pending) == {}
    ensures Step(s, TaskRuns) == s.(task := NoTask, pending := if s.owned then None else s.pending)
  {}

  /** The token generator stores its token and nothing else; it schedules nothing by itself. */
  lemma TokenIsStored(s: State, token: string, k: Key)
    ensures var t := Step(s, TokenGenerated(token));
      && Lookup(t.options, k) == (if k == MqttToken then Some(Text(token)) else Lookup(s.options, k))
      && t == s.(options := t.options, written := t.written)
  {}

  /** Fencing and unloading drop what is pending and what is marked; the stored options stay. */
  lemma LossDropsPending(s: State)
    ensures Step(s, LoseOwnership) == s.(owned := false, pending := None, devicePending := None, adopted := None)
  {}

  /** Late callbacks of a released entry find nothing to do: none stores, marks, schedules or pushes anything. */
  lemma ReleasedEntryStaysQuiet(s: State, a: Action)
    requires !s.owned && (a.QueuedUpdate? || a.DeviceReadback? || a.RestartListener? || a.TaskRuns?)
    ensures Step(s, a) == s.(queued := Step(s, a).queued, task := Step(s, a).task)
    ensures Step(s, a).queued <= s.queued && (Step(s, a).task == s.task || Step(s, a).task == NoTask)
  {}

  /** Which operations a turn starts, by the keys that are pending. */
  lemma FlagsByKey(s: State)
    ensures OrEmpty(s.pending) * LISTENER_KEYS != {} <==> exists k :: k in OrEmpty(s.pending) && ServesListener(k)
    ensures OrEmpty(s.devicePending) * LOCAL_MQTT_KEYS != {} <==>
      exists k :: k in OrEmpty(s.devicePending) && ConfiguresDevice(k)
  {
    forall k ensures (k in LOCAL_MQTT_KEYS <==> ConfiguresDevice(k)) && (k in LISTENER_KEYS <==> ServesListener(k)) {
      KeyGroups(k);
    }
    var listener, device := OrEmpty(s.pending) * LISTENER_KEYS, OrEmpty(s.devicePending) * LOCAL_MQTT_KEYS;
    if k :| k in OrEmpty(s.pending) && ServesListener(k) {
      assert k in listener;
    }
    if k :| k in OrEmpty(s.devicePending) && ConfiguresDevice(k) {
      assert k in device;
    }
    if listener != {} {
      var k :| k in listener;
    }
    if device != {} {
      var k :| k in device;
    }
  }
}
