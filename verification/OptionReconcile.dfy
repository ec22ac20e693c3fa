/**
 Option changes of a loaded entry.  The options form and readbacks from the device change the
 options; an update callback adds the changed keys to a pending set, and a single background
 task drains the set batch by batch.

 One action is one atomic block between two awaits.  No step raises or is cancelled; losing
 the entry is `LoseOwnership`.  The fields `batches` and `written` only record history.
 */
module OptionReconcile {
  import opened Wrappers

  datatype Key =
    | MqttEnable | MqttIp | MqttPassword | MqttPort | MqttTopicFilter | MqttQos | MqttToken | MqttUsername
    | BleTransport
    | ReloadOption(name: string)
    | OtherOption(name: string)

  datatype Setting = Flag(on: bool) | Number(n: int) | Text(s: string)

  type Options = map<Key, Setting>

  /** The keys that are configured on the device itself. */
  const LOCAL_MQTT_KEYS: set<Key> :=
    {MqttEnable, MqttIp, MqttPassword, MqttPort, MqttTopicFilter, MqttQos, MqttToken, MqttUsername}

  /** The keys that the broker listener depends on: all of them but the token. */
  const LISTENER_KEYS: set<Key> :=
    {MqttEnable, MqttIp, MqttPassword, MqttPort, MqttTopicFilter, MqttQos, MqttUsername}

  /** The keys that lead to a reconciliation. */
  const RECONCILED_KEYS: set<Key> := LOCAL_MQTT_KEYS + {BleTransport}

  const MAX_TCP_PORT := 65535

  datatype TaskState = NoTask | Queued | Awaiting

  /** One drained batch, and the device keys for which it pushed configuration to the device. */
  datatype Batch = Batch(keys: set<Key>, pushed: set<Key>)

  /** The configuration that the device reports. */
  datatype Config = Config(
    enable: Option<bool>, ip: string, port: Option<int>, userName: string, password: string, token: string)

  datatype State = State(
    // What an option counts as while it is not stored: the entry's data, or the form's default.
    defaults: Options,
    owned: bool,
    options: Options,
    snapshot: Options,
    adopted: Option<Options>,
    // Update callbacks of readbacks that have not run yet.
    queued: nat,
    pending: Option<set<Key>>,
    devicePending: Option<set<Key>>,
    task: TaskState,
    batches: seq<Batch>,
    // The keys that anything but a readback has written.
    written: set<Key>)

  datatype Action =
    | UserSubmits(input: Options)
    | DeviceReadback(config: Config)
    | QueuedUpdate
    | TokenGenerated(token: string)
    | RestartListener
    | TaskRuns
    | LoseOwnership

  predicate Differs(o: Options, p: Options, k: Key) {
    (k in o) != (k in p) || (k in o && o[k] != p[k])
  }

  function ChangedKeys(o: Options, p: Options): set<Key> {
    set k | k in o.Keys + p.Keys && Differs(o, p, k)
  }

  function OrEmpty(s: Option<set<Key>>): set<Key> {
    if s.Some? then s.value else {}
  }

  /** `_schedule_layer5_start_if_ready` with a nonempty set of changed keys. */
  function Schedule(s: State, changed: set<Key>, deviceKeys: Option<set<Key>>): State {
    if !s.owned then s
    else
      var requested := (if deviceKeys.Some? then deviceKeys.value else changed) * LOCAL_MQTT_KEYS;
      s.(pending := Some(OrEmpty(s.pending) + changed),
         devicePending := Some(OrEmpty(s.devicePending) + requested),
         task := if s.task.NoTask? then Queued else s.task)
  }

  /** The key's current value is the one last read back from the device. */
  predicate Marked(s: State, k: Key) {
    s.adopted.Some? && k in s.adopted.value && k in s.options && s.options[k] == s.adopted.value[k]
  }

  function MarkedKeys(s: State): set<Key> {
    if s.adopted.Some? then set k | k in s.adopted.value && Marked(s, k) else {}
  }

  /** `_async_entry_updated`, with or without `previous_options_override` */
  function Update(s: State, previous: Option<Options>): State {
    var changed := ChangedKeys(if previous.Some? then previous.value else s.snapshot, s.options);
    var t := s.(snapshot := s.options);
    if changed == {} then t
    else
      var u := t.(adopted := None);
      var local := changed * LOCAL_MQTT_KEYS;
      if local != {} then Schedule(u, changed, Some(local - MarkedKeys(s)))
      else if BleTransport in changed then Schedule(u, changed, None)
      else u
  }

  /** The options as the form shows them. */
  function Resolved(s: State): Options {
    map k | k in s.defaults :: if k in s.options then s.options[k] else s.defaults[k]
  }

  /** The form has no field for the token and the quality of service. */
  predicate Editable(k: Key) {
    k != MqttToken && k != MqttQos
  }

  /** The options that a submitted form leads to. */
  function Merged(s: State, input: Options): Options {
    map k | k in s.defaults :: if k in input && Editable(k) then input[k] else Resolved(s)[k]
  }

  function Submitted(s: State, input: Options): set<Key> {
    ChangedKeys(Resolved(s), Merged(s, input))
  }

  /** Some changed option is only applied by reloading the entry. */
  predicate NeedsReload(changed: set<Key>) {
    exists k :: k in changed && k.ReloadOption?
  }

  /** The submission is applied in place. */
  predicate Applied(s: State, input: Options) {
    s.owned && Submitted(s, input) != {} && !NeedsReload(Submitted(s, input))
  }

  /** The state with the submitted form stored. */
  function Stored(s: State, input: Options): State {
    s.(options := Merged(s, input), written := s.written + ChangedKeys(s.options, Merged(s, input)))
  }

  function Submit(s: State, input: Options): State {
    if Applied(s, input) then Update(Stored(s, input), Some(Resolved(s))) else Stored(s, input)
  }

  /** The options that a valid readback asks for. */
  function ReadbackOptions(config: Config): Options {
    if config.enable.None? then map[]
    else if !config.enable.value then map[MqttEnable := Flag(false)]
    else if config.ip == "" || config.port.None? || !(1 <= config.port.value <= MAX_TCP_PORT) then map[]
    else
      map[MqttEnable := Flag(true), MqttIp := Text(config.ip), MqttPort := Number(config.port.value),
          MqttUsername := Text(config.userName), MqttPassword := Text(config.password), MqttToken := Text(config.token)]
  }

  /** What of a readback differs from the options. */
  function News(options: Options, values: Options): Options {
    map k | k in values && (k !in options || options[k] != values[k]) :: values[k]
  }

  /** `local_mqtt_opt_in` */
  predicate OptedIn(s: State) {
    Enabled(s.defaults, s.options)
  }

  /** The stored choice counts; without one, the entry's data or the default. */
  predicate Enabled(defaults: Options, options: Options) {
    && MqttEnable in defaults
    && (if MqttEnable in options then options[MqttEnable] else defaults[MqttEnable]) == Flag(true)
  }

  /** `_adopt_device_local_mqtt_config` */
  function Adopt(s: State, config: Config): State {
    var news := if s.owned && OptedIn(s) then News(s.options, ReadbackOptions(config)) else map[];
    if news == map[] then s
    else
      s.(options := s.options + news,
         adopted := Some((if s.adopted.Some? then s.adopted.value else map[]) + news),
         queued := s.queued + 1)
  }

  /** One turn of `_async_reconcile_entry_options`, up to its next await or its return. */
  function Drain(s: State): State {
    if !s.owned || OrEmpty(s.pending) == {} then s.(pending := if s.owned then None else s.pending, task := NoTask)
    else
      var changed := s.pending.value;
      var device := if s.devicePending.Some? then s.devicePending.value else changed;
      s.(pending := None, devicePending := None,
         batches := s.batches + [Batch(changed, device * LOCAL_MQTT_KEYS)],
         // Without an operation to await, the next turn finds nothing pending and returns.
         task := if changed * LISTENER_KEYS != {} || BleTransport in changed then Awaiting else NoTask)
  }

  function Step(s: State, a: Action): State {
    match a
    case UserSubmits(input) => Submit(s, input)
    case DeviceReadback(config) => Adopt(s, config)
    case QueuedUpdate =>
      if s.queued == 0 then s
      else
        var t := s.(queued := s.queued - 1);
        if s.owned then Update(t, None) else t
    case TokenGenerated(token) => s.(options := s.options[MqttToken := Text(token)], written := s.written + {MqttToken})
    case RestartListener => Schedule(s, LISTENER_KEYS, Some({}))
    case TaskRuns => if s.task.NoTask? then s else Drain(s)
    case LoseOwnership => s.(owned := false, pending := None, devicePending := None, adopted := None)
  }

  function Run(s: State, actions: seq<Action>): State
    decreases |actions|
  {
    if actions == [] then s else Run(Step(s, actions[0]), actions[1..])
  }

  /** An entry that has just been set up with some options. */
  predicate Initial(s: State) {
    && RECONCILED_KEYS <= s.defaults.Keys
    && s.owned && s.snapshot == s.options && s.adopted == None && s.queued == 0
    && s.pending == None && s.devicePending == None && s.task.NoTask? && s.batches == [] && s.written == {}
  }

  // ---- Nothing scheduled is lost ----

  /** Pending keys of an owned entry have an unfinished task, and device keys come with pending keys. */
  ghost predicate TaskCoversPending(s: State) {
    && RECONCILED_KEYS <= s.defaults.Keys
    && (s.owned && OrEmpty(s.pending) != {} ==> !s.task.NoTask?)
    && (s.owned && OrEmpty(s.pending) != {} ==> s.devicePending.Some?)
    && (s.owned && OrEmpty(s.devicePending) != {} ==> OrEmpty(s.pending) != {})
  }

  /** The key is still pending, or was drained in a batch from number `n` on. */
  ghost predicate Accounted(s: State, k: Key, n: nat) {
    k in OrEmpty(s.pending) || exists j :: n <= j < |s.batches| && k in s.batches[j].keys
  }

  /** The push of the key is still pending, or was made in a batch from number `n` on. */
  ghost predicate PushAccounted(s: State, k: Key, n: nat) {
    k in OrEmpty(s.devicePending) || exists j :: n <= j < |s.batches| && k in s.batches[j].pushed
  }

  ghost predicate Drained(s: State, k: Key, n: nat) {
    exists j :: n <= j < |s.batches| && k in s.batches[j].keys
  }

  ghost predicate Pushed(s: State, k: Key, n: nat) {
    exists j :: n <= j < |s.batches| && k in s.batches[j].pushed
  }

  lemma UpdateKeepsCover(s: State, previous: Option<Options>)
    requires TaskCoversPending(s)
    ensures TaskCoversPending(Update(s, previous))
  {
    var changed := ChangedKeys(if previous.Some? then previous.value else s.snapshot, s.options);
    var t := Update(s, previous);
    UpdateFrame(s, previous);
    if changed != {} && s.owned && (changed * LOCAL_MQTT_KEYS != {} || BleTransport in changed) {
      var k :| k in changed;
      assert k in OrEmpty(t.pending) && t.devicePending.Some? && !t.task.NoTask?;
    } else {
      assert t.pending == s.pending && t.devicePending == s.devicePending && t.task == s.task;
    }
  }

  lemma RestartKeepsCover(s: State)
    requires TaskCoversPending(s)
    ensures TaskCoversPending(Step(s, RestartListener))
  {
    assert MqttIp in LISTENER_KEYS;
    assert s.owned ==> MqttIp in OrEmpty(Step(s, RestartListener).pending);
  }

  lemma OtherKeysKeepCover(s: State, t: State)
    requires TaskCoversPending(s)
    requires t.defaults == s.defaults && t.owned == s.owned && t.pending == s.pending
    requires t.devicePending == s.devicePending && t.task == s.task
    ensures TaskCoversPending(t)
  {}

  lemma DrainKeepsCover(s: State)
    requires TaskCoversPending(s)
    ensures TaskCoversPending(Drain(s))
  {}

  lemma StepKeepsCover(s: State, a: Action)
    requires TaskCoversPending(s)
    ensures TaskCoversPending(Step(s, a))
  {
    match a
    case UserSubmits(input) =>
      if Applied(s, input) {
        UpdateKeepsCover(Stored(s, input), Some(Resolved(s)));
      }
    case QueuedUpdate =>
      if s.queued > 0 && s.owned {
        UpdateKeepsCover(s.(queued := s.queued - 1), None);
      }
    case RestartListener => RestartKeepsCover(s);
    case DeviceReadback(config) => OtherKeysKeepCover(s, Adopt(s, config));
    case TokenGenerated(_) => OtherKeysKeepCover(s, Step(s, a));
    case TaskRuns => DrainKeepsCover(s);
    case LoseOwnership =>
  }

  lemma {:induction false} PendingHasTask(s: State, actions: seq<Action>)
    requires TaskCoversPending(s)
    ensures TaskCoversPending(Run(s, actions))
    decreases |actions|
  {
    if actions != [] {
      StepKeepsCover(s, actions[0]);
      PendingHasTask(Step(s, actions[0]), actions[1..]);
    }
  }

  /** An update changes only the snapshot, the marks and what is pending, and pending keys only grow. */
  lemma UpdateFrame(s: State, previous: Option<Options>)
    ensures var t := Update(s, previous);
      && t.options == s.options && t.owned == s.owned && t.batches == s.batches
      && t.queued == s.queued && t.written == s.written && t.defaults == s.defaults
      && t.snapshot == s.options && (t.adopted == None || t.adopted == s.adopted)
      && OrEmpty(s.pending) <= OrEmpty(t.pending) && OrEmpty(s.devicePending) <= OrEmpty(t.devicePending)
  {}

  /** No step but a turn of the task takes pending keys away or adds a batch. */
  lemma StepFrame(s: State, a: Action)
    requires s.owned && a != LoseOwnership && a != TaskRuns
    ensures var t := Step(s, a);
      && t.owned && t.batches == s.batches
      && OrEmpty(s.pending) <= OrEmpty(t.pending) && OrEmpty(s.devicePending) <= OrEmpty(t.devicePending)
  {
    match a
    case UserSubmits(input) => UpdateFrame(Stored(s, input), Some(Resolved(s)));
    case QueuedUpdate =>
      if s.queued > 0 {
        UpdateFrame(s.(queued := s.queued - 1), None);
      }
    case _ =>
  }

  lemma StepKeepsAccounted(s: State, a: Action, k: Key, n: nat)
    requires Accounted(s, k, n) && n <= |s.batches| && s.owned && a != LoseOwnership
    ensures var t := Step(s, a); Accounted(t, k, n) && t.owned && n <= |t.batches|
  {
    var t := Step(s, a);
    if a != TaskRuns {
      StepFrame(s, a);
    } else if k in OrEmpty(s.pending) {
      if !s.task.NoTask? {
        assert t.batches[|s.batches|].keys == s.pending.value;
      }
    } else {
      var j :| n <= j < |s.batches| && k in s.batches[j].keys;
      assert t.batches[j] == s.batches[j];
    }
  }

  lemma {:induction false} StaysAccounted(s: State, actions: seq<Action>, k: Key, n: nat)
    requires Accounted(s, k, n) && n <= |s.batches| && s.owned && LoseOwnership !in actions
    ensures Accounted(Run(s, actions), k, n) && Run(s, actions).owned
    decreases |actions|
  {
    if actions != [] {
      StepKeepsAccounted(s, actions[0], k, n);
      StaysAccounted(Step(s, actions[0]), actions[1..], k, n);
    }
  }

  lemma StepKeepsPushAccounted(s: State, a: Action, k: Key, n: nat)
    requires PushAccounted(s, k, n) && n <= |s.batches| && k in LOCAL_MQTT_KEYS
    requires TaskCoversPending(s) && s.owned && a != LoseOwnership
    ensures var t := Step(s, a); PushAccounted(t, k, n) && t.owned && n <= |t.batches|
  {
    var t := Step(s, a);
    if a != TaskRuns {
      StepFrame(s, a);
    } else if k in OrEmpty(s.devicePending) {
      if !s.task.NoTask? {
        assert t.batches[|s.batches|].pushed == s.devicePending.value * LOCAL_MQTT_KEYS;
      }
    } else {
      var j :| n <= j < |s.batches| && k in s.batches[j].pushed;
      assert t.batches[j] == s.batches[j];
    }
  }

  lemma {:induction false} PushStaysAccounted(s: State, actions: seq<Action>, k: Key, n: nat)
    requires PushAccounted(s, k, n) && n <= |s.batches| && k in LOCAL_MQTT_KEYS
    requires TaskCoversPending(s) && s.owned && LoseOwnership !in actions
    ensures PushAccounted(Run(s, actions), k, n) && Run(s, actions).owned
    decreases |actions|
  {
    if actions != [] {
      StepKeepsPushAccounted(s, actions[0], k, n);
      StepKeepsCover(s, actions[0]);
      PushStaysAccounted(Step(s, actions[0]), actions[1..], k, n);
    }
  }

  /** An update puts exactly the changed keys among the pending ones, if one of them matters. */
  lemma UpdateSchedules(s: State, previous: Option<Options>, k: Key)
    requires s.owned && k in RECONCILED_KEYS
    ensures var base := if previous.Some? then previous.value else s.snapshot;
      k in OrEmpty(Update(s, previous).pending) <==> k in OrEmpty(s.pending) || k in ChangedKeys(base, s.options)
  {
    var changed := ChangedKeys(if previous.Some? then previous.value else s.snapshot, s.options);
    assert k in changed && k in LOCAL_MQTT_KEYS ==> k in changed * LOCAL_MQTT_KEYS;
  }

  /**
   Every listener, device or Bluetooth key that a form changes in place is drained in a later
   batch while the coordinator owns the entry, at the latest when the task is done.
   */
  lemma SubmittedKeysAreDrained(s: State, input: Options, later: seq<Action>, k: Key)
    requires TaskCoversPending(s) && LoseOwnership !in later
    requires Applied(s, input) && k in Submitted(s, input) && k in RECONCILED_KEYS
    ensures var t := Run(Submit(s, input), later);
      Accounted(t, k, |s.batches|) && (t.task.NoTask? ==> Drained(t, k, |s.batches|))
  {
    var u := Stored(s, input);
    var t := Submit(s, input);
    UpdateSchedules(u, Some(Resolved(s)), k);
    PendingHasTask(s, [UserSubmits(input)]);
    assert Run(s, [UserSubmits(input)]) == t;
    StaysAccounted(t, later, k, |s.batches|);
    PendingHasTask(t, later);
  }

  // ---- A readback reaches the listener only if its own update comes first ----

  datatype Reader = ByQueue | BySubmission

  /** Which kind of update runs first and looks at the options. */
  function FirstUpdate(s: State, actions: seq<Action>): Option<Reader>
    decreases |actions|
  {
    if actions == [] then None
    else if actions[0] == QueuedUpdate && s.queued > 0 && s.owned then Some(ByQueue)
    else if actions[0].UserSubmits? && Applied(s, actions[0].input) then Some(BySubmission)
    else FirstUpdate(Step(s, actions[0]), actions[1..])
  }

  /** The action does not write the key, and gives nobody another reason to reconcile it. */
  predicate Leaves(s: State, a: Action, k: Key) {
    match a
    case UserSubmits(input) => k in input && Editable(k) && k in s.options ==> input[k] == s.options[k]
    case DeviceReadback(config) => k !in News(s.options, ReadbackOptions(config))
    case TokenGenerated(_) => k != MqttToken
    case RestartListener => false
    case LoseOwnership => false
    case _ => true
  }

  predicate LeaveAlone(s: State, actions: seq<Action>, k: Key)
    decreases |actions|
  {
    actions == [] || (Leaves(s, actions[0], k) && LeaveAlone(Step(s, actions[0]), actions[1..], k))
  }

  /** The key is stored, and nothing about it has been scheduled since batch `n`. */
  ghost predicate Unscheduled(s: State, k: Key, n: nat) {
    && s.owned && k in s.options && k in s.defaults && k in RECONCILED_KEYS && n <= |s.batches|
    && !Accounted(s, k, n)
  }

  lemma SubmissionLeaves(s: State, input: Options, k: Key)
    requires k in s.options && k in s.defaults && Leaves(s, UserSubmits(input), k)
    ensures k in Merged(s, input) && Merged(s, input)[k] == s.options[k] == Resolved(s)[k]
    ensures k !in Submitted(s, input)
  {}

  /** A step that leaves the key alone and is no update changes nothing about it. */
  lemma LeavingStep(s: State, a: Action, k: Key, n: nat)
    requires Unscheduled(s, k, n) && Leaves(s, a, k)
    requires !(a == QueuedUpdate && s.queued > 0) && !(a.UserSubmits? && Applied(s, a.input))
    ensures var t := Step(s, a);
      Unscheduled(t, k, n) && t.options[k] == s.options[k] && t.snapshot == s.snapshot && t.defaults == s.defaults
  {
    var t := Step(s, a);
    match a
    case UserSubmits(input) => SubmissionLeaves(s, input, k);
    case TaskRuns =>
      forall j | n <= j < |t.batches| ensures k !in t.batches[j].keys {
        if j < |s.batches| {
          assert t.batches[j] == s.batches[j];
        }
      }
    case _ =>
  }

  /** A submission that leaves the key alone makes the snapshot agree on it without scheduling it. */
  lemma SubmissionOvertakes(s: State, input: Options, k: Key, n: nat)
    requires Unscheduled(s, k, n) && Leaves(s, UserSubmits(input), k) && Applied(s, input)
    ensures var t := Submit(s, input); Unscheduled(t, k, n) && !Differs(t.snapshot, t.options, k)
  {
    var u := Stored(s, input);
    SubmissionLeaves(s, input, k);
    UpdateSchedules(u, Some(Resolved(s)), k);
    UpdateFrame(u, Some(Resolved(s)));
  }

  /** A queued update schedules the key exactly if the snapshot disagrees on it. */
  lemma QueuedUpdateReads(s: State, k: Key, n: nat)
    requires Unscheduled(s, k, n) && s.queued > 0
    ensures var t := Step(s, QueuedUpdate);
      && t.owned && n <= |t.batches|
      && (Differs(s.snapshot, s.options, k) ==> Accounted(t, k, n))
      && (!Differs(s.snapshot, s.options, k) ==> Unscheduled(t, k, n) && !Differs(t.snapshot, t.options, k))
  {
    var u := s.(queued := s.queued - 1);
    var t := Update(u, None);
    UpdateSchedules(u, None, k);
    UpdateFrame(u, None);
    assert t == Step(s, QueuedUpdate);
    assert k !in OrEmpty(s.pending) && forall j :: n <= j < |s.batches| ==> k !in s.batches[j].keys;
    assert k in OrEmpty(t.pending) <==> Differs(s.snapshot, s.options, k);
    assert !Differs(t.snapshot, t.options, k);
  }

  /** Once the snapshot agrees on the key, nothing will ever schedule it. */
  lemma {:induction false} NeverScheduled(s: State, actions: seq<Action>, k: Key, n: nat)
    requires Unscheduled(s, k, n) && !Differs(s.snapshot, s.options, k) && LeaveAlone(s, actions, k)
    ensures !Accounted(Run(s, actions), k, n)
    decreases |actions|
  {
    if actions != [] {
      var a := actions[0];
      if a == QueuedUpdate && s.queued > 0 {
        QueuedUpdateReads(s, k, n);
      } else if a.UserSubmits? && Applied(s, a.input) {
        SubmissionOvertakes(s, a.input, k, n);
      } else {
        LeavingStep(s, a, k, n);
      }
      NeverScheduled(Step(s, a), actions[1..], k, n);
    }
  }

  /**
   A changed key that no update has seen yet, as a readback leaves it, is reconciled if and
   only if a queued update runs before any submission that is applied in place.
   */
  lemma {:induction false} ReadbackDrainedExactly(s: State, actions: seq<Action>, k: Key, n: nat)
    requires Unscheduled(s, k, n) && Differs(s.snapshot, s.options, k) && LeaveAlone(s, actions, k)
    ensures Accounted(Run(s, actions), k, n) <==> FirstUpdate(s, actions) == Some(ByQueue)
    decreases |actions|
  {
    if actions != [] {
      var a := actions[0];
      if a == QueuedUpdate && s.queued > 0 {
        QueuedUpdateReads(s, k, n);
        LeavesOwned(Step(s, a), actions[1..], k);
        StaysAccounted(Step(s, a), actions[1..], k, n);
      } else if a.UserSubmits? && Applied(s, a.input) {
        SubmissionOvertakes(s, a.input, k, n);
        NeverScheduled(Step(s, a), actions[1..], k, n);
      } else {
        LeavingStep(s, a, k, n);
        ReadbackDrainedExactly(Step(s, a), actions[1..], k, n);
      }
    }
  }

  lemma {:induction false} LeavesOwned(s: State, actions: seq<Action>, k: Key)
    requires LeaveAlone(s, actions, k)
    ensures LoseOwnership !in actions
    decreases |actions|
  {
    if actions != [] {
      LeavesOwned(Step(s, actions[0]), actions[1..], k);
      assert actions == [actions[0]] + actions[1..];
    }
  }

  /** Everything has run, the readback's address is stored, and no batch has told the listener of it. */
  ghost predicate AddressLost(s: State, t: State) {
    && t.owned && t.queued == 0 && t.pending == None && t.task.NoTask? && t.snapshot == t.options
    && MqttIp in t.options && MqttIp in s.options && t.options[MqttIp] != s.options[MqttIp]
    && forall j :: 0 <= j < |t.batches| ==> MqttIp !in t.batches[j].keys
  }

  const ENABLE_BLE: Options := map[BleTransport := Flag(true)]

  /** A readback of another address; before its update runs, the user switches Bluetooth on. */
  function OvertakenRun(config: Config): seq<Action> {
    [DeviceReadback(config), UserSubmits(ENABLE_BLE), QueuedUpdate, TaskRuns, TaskRuns]
  }

  lemma RunFive(s: State, a: seq<Action>)
    requires |a| == 5
    ensures Run(s, a) == Step(Step(Step(Step(Step(s, a[0]), a[1]), a[2]), a[3]), a[4])
  {
    assert a[1..][1..] == a[2..] && a[2..][1..] == a[3..] && a[3..][1..] == a[4..] && a[4..][1..] == [];
    assert Run(s, a) == Run(Step(Step(s, a[0]), a[1]), a[2..]);
    var t := Step(Step(s, a[0]), a[1]);
    assert Run(t, a[2..]) == Run(Step(Step(t, a[2]), a[3]), a[4..]);
    var u := Step(Step(t, a[2]), a[3]);
    assert Run(u, a[4..]) == Run(Step(u, a[4]), []) == Step(u, a[4]);
  }

  lemma BluetoothOvertakes(s: State)
    requires s.owned && RECONCILED_KEYS <= s.defaults.Keys && Resolved(s)[BleTransport] == Flag(false)
    requires s.pending == None && s.devicePending == None && s.task.NoTask? && s.batches == []
    ensures var t := Submit(s, ENABLE_BLE);
      && Applied(s, ENABLE_BLE) && t.snapshot == t.options == Merged(s, ENABLE_BLE) && t.owned && t.queued == s.queued
      && t.pending == Some({BleTransport}) && t.devicePending == Some({}) && t.task == Queued && t.batches == []
  {
    assert Submitted(s, ENABLE_BLE) == {BleTransport};
    assert {BleTransport} * LOCAL_MQTT_KEYS == {};
    assert {} + {BleTransport} == {BleTransport} && {} + {} * LOCAL_MQTT_KEYS == {};
  }

  /** The readback is valid and tells of another address. */
  predicate MovesAddress(s: State, config: Config) {
    && OptedIn(s) && config.enable == Some(true) && config.ip != ""
    && config.port.Some? && 1 <= config.port.value <= MAX_TCP_PORT
    && MqttIp in s.options && s.options[MqttIp] != Text(config.ip)
  }

  lemma ReadbackArrives(s: State, config: Config)
    requires Initial(s) && MovesAddress(s, config)
    ensures var r := Adopt(s, config);
      && r == s.(options := r.options, adopted := r.adopted, queued := 1)
      && MqttIp in r.options && r.options[MqttIp] == Text(config.ip)
      && Resolved(r)[BleTransport] == Resolved(s)[BleTransport]
  {
    var news := News(s.options, ReadbackOptions(config));
    assert MqttIp in ReadbackOptions(config) && ReadbackOptions(config)[MqttIp] == Text(config.ip);
    assert MqttIp in news && news != map[];
    assert BleTransport !in news;
  }

  lemma OneBatchIsDrained(s: State)
    requires s.owned && s.queued == 1 && s.snapshot == s.options
    requires s.pending == Some({BleTransport}) && s.devicePending == Some({}) && s.task == Queued && s.batches == []
    ensures var t := Step(Step(Step(s, QueuedUpdate), TaskRuns), TaskRuns);
      && t.owned && t.queued == 0 && t.pending == None && t.task.NoTask? && t.snapshot == t.options == s.options
      && t.batches == [Batch({BleTransport}, {})]
  {
    assert ChangedKeys(s.snapshot, s.options) == {};
    var u := Step(s, QueuedUpdate);
    assert u == s.(queued := 0);
    var v := Step(u, TaskRuns);
    assert {} * LOCAL_MQTT_KEYS == {};
    assert v.batches == [Batch({BleTransport}, {})] && v.task == Awaiting && v.pending == None;
  }

  /** From every fresh, opted-in entry a valid readback of another address can be lost for good. */
  lemma OvertakenReadbackIsLost(s: State, config: Config)
    requires Initial(s) && MovesAddress(s, config) && Resolved(s)[BleTransport] == Flag(false)
    ensures AddressLost(s, Run(s, OvertakenRun(config)))
  {
    RunFive(s, OvertakenRun(config));
    var r := Step(s, DeviceReadback(config));
    ReadbackArrives(s, config);
    BluetoothOvertakes(r);
    var u := Step(r, UserSubmits(ENABLE_BLE));
    assert u.options[MqttIp] == Text(config.ip);
    OneBatchIsDrained(u);
  }

  /** The run above exists: an address that the device reports need not reach the listener. */
  lemma ReadbackCanBeLost() returns (s: State, config: Config)
    ensures Initial(s) && AddressLost(s, Run(s, OvertakenRun(config)))
  {
    var off := map k | k in RECONCILED_KEYS :: if k == MqttEnable then Flag(true) else Flag(false);
    var options: Options := map[MqttIp := Text("a")];
    s := State(off, true, options, options, None, 0, None, None, NoTask, [], {});
    config := Config(Some(true), "b", Some(1883), "", "", "");
    assert Text("a") != Text("b") by { assert "a"[0] != "b"[0]; }
    assert BleTransport in off && MqttEnable in off && Resolved(s)[BleTransport] == Flag(false);
    OvertakenReadbackIsLost(s, config);
  }
}
