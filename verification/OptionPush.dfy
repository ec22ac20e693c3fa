/** Which option changes are pushed to the device: those of the user, and never a mere readback. */
module OptionPush {
  import opened Wrappers
  import opened OptionReconcile

  /**
   An update requests the push of exactly the changed device keys whose value is not marked as
   read back: against the snapshot for a queued update, against the form for a submission.
   */
  lemma PushRequestedExactly(s: State, previous: Option<Options>, k: Key)
    requires s.owned && k in LOCAL_MQTT_KEYS
    ensures var base := if previous.Some? then previous.value else s.snapshot;
      k in OrEmpty(Update(s, previous).devicePending)
      <==> k in OrEmpty(s.devicePending) || (k in ChangedKeys(base, s.options) && !Marked(s, k))
  {
    var changed := ChangedKeys(if previous.Some? then previous.value else s.snapshot, s.options);
    var local, t := changed * LOCAL_MQTT_KEYS, Update(s, previous);
    assert k in changed <==> k in local;
    assert k in MarkedKeys(s) <==> Marked(s, k);
    if local != {} {
      assert OrEmpty(t.devicePending) == OrEmpty(s.devicePending) + (local - MarkedKeys(s)) * LOCAL_MQTT_KEYS;
    } else {
      assert OrEmpty(t.devicePending) == OrEmpty(s.devicePending);
    }
  }

  /** A mark on the key, if there is one, is of its current value. */
  ghost predicate MarkIsCurrent(s: State, k: Key) {
    && (s.adopted.Some? && k in s.adopted.value ==> Marked(s, k))
    && (!s.owned ==> s.adopted == None)
  }

  /** No submission of the run asks for a reload, which would end it. */
  predicate NoReloads(s: State, actions: seq<Action>)
    decreases |actions|
  {
    || actions == []
    || ((actions[0].UserSubmits? ==> !NeedsReload(Submitted(s, actions[0].input)))
        && NoReloads(Step(s, actions[0]), actions[1..]))
  }

  lemma SubmissionKeepsMark(s: State, input: Options, k: Key)
    requires MarkIsCurrent(s, k) && k in s.defaults && !NeedsReload(Submitted(s, input))
    ensures MarkIsCurrent(Submit(s, input), k)
  {
    if Applied(s, input) {
      assert k in ChangedKeys(Resolved(s), Merged(s, input)) <==> k in Submitted(s, input);
      var t := Update(Stored(s, input), Some(Resolved(s)));
      assert t.adopted == None && t.owned;
    } else if s.owned && k in s.options {
      assert k !in Submitted(s, input);
      assert Merged(s, input)[k] == Resolved(s)[k] == s.options[k];
    }
  }

  lemma QueuedUpdateKeepsMark(s: State, k: Key)
    requires MarkIsCurrent(s, k)
    ensures MarkIsCurrent(Step(s, QueuedUpdate), k)
  {
    if s.queued > 0 && s.owned {
      UpdateFrame(s.(queued := s.queued - 1), None);
    }
  }

  lemma ReadbackKeepsMark(s: State, config: Config, k: Key)
    requires MarkIsCurrent(s, k)
    ensures MarkIsCurrent(Adopt(s, config), k)
  {}

  lemma StepKeepsMark(s: State, a: Action, k: Key)
    requires MarkIsCurrent(s, k) && k in s.defaults && k != MqttToken
    requires a.UserSubmits? ==> !NeedsReload(Submitted(s, a.input))
    ensures MarkIsCurrent(Step(s, a), k) && Step(s, a).defaults == s.defaults
  {
    match a
    case UserSubmits(input) => SubmissionKeepsMark(s, input, k);
    case QueuedUpdate => QueuedUpdateKeepsMark(s, k);
    case DeviceReadback(config) => ReadbackKeepsMark(s, config, k);
    case _ =>
  }

  lemma {:induction false} MarksStayCurrent(s: State, actions: seq<Action>, k: Key)
    requires MarkIsCurrent(s, k) && k in s.defaults && k != MqttToken && NoReloads(s, actions)
    ensures MarkIsCurrent(Run(s, actions), k)
    decreases |actions|
  {
    if actions != [] {
      StepKeepsMark(s, actions[0], k);
      MarksStayCurrent(Step(s, actions[0]), actions[1..], k);
    }
  }

  /**
   In every run without a reload, each device setting that the user changes in the form is
   pushed to the device in a later batch: no mark of a readback can be in the way.
   */
  lemma SubmittedSettingsArePushed(s: State, actions: seq<Action>, input: Options, later: seq<Action>, k: Key)
    requires Initial(s) && NoReloads(s, actions) && LoseOwnership !in later
    requires Applied(Run(s, actions), input) && k in Submitted(Run(s, actions), input) && k in LOCAL_MQTT_KEYS
    ensures var n, t := |Run(s, actions).batches|, Run(Submit(Run(s, actions), input), later);
      PushAccounted(t, k, n) && (t.task.NoTask? ==> Pushed(t, k, n))
  {
    var r := Run(s, actions);
    PendingHasTask(s, actions);
    assert Editable(k);
    MarksStayCurrent(s, actions, k);
    var u := Stored(r, input);
    assert !Marked(u, k) by {
      assert Resolved(r)[k] != Merged(r, input)[k];
    }
    PushRequestedExactly(u, Some(Resolved(r)), k);
    var t := Submit(r, input);
    UpdateFrame(u, Some(Resolved(r)));
    PendingHasTask(r, [UserSubmits(input)]);
    assert Run(r, [UserSubmits(input)]) == t;
    PushStaysAccounted(t, later, k, |r.batches|);
    PendingHasTask(t, later);
  }

  // ---- Readback is never echoed ----

  /** Every difference not explained by a readback was written by something else. */
  ghost predicate Explained(s: State) {
    && (s.owned ==>
          forall k :: k in LOCAL_MQTT_KEYS && Differs(s.snapshot, s.options, k) ==> Marked(s, k) || k in s.written)
    && (forall k :: k in OrEmpty(s.devicePending) ==> k in s.written)
    && (forall i, k :: 0 <= i < |s.batches| && k in s.batches[i].pushed ==> k in s.written)
    && (s.owned ==> (OrEmpty(s.pending) != {} ==> s.devicePending.Some?))
  }

  /** Updates push only what was written, if what they compare with is explained. */
  lemma UpdateKeepsExplained(s: State, previous: Option<Options>)
    requires s.owned
    requires forall k :: k in OrEmpty(s.devicePending) ==> k in s.written
    requires forall i, k :: 0 <= i < |s.batches| && k in s.batches[i].pushed ==> k in s.written
    requires OrEmpty(s.pending) != {} ==> s.devicePending.Some?
    requires var base := if previous.Some? then previous.value else s.snapshot;
      forall k :: k in LOCAL_MQTT_KEYS && Differs(base, s.options, k) ==> Marked(s, k) || k in s.written
    ensures Explained(Update(s, previous))
  {
    var t := Update(s, previous);
    UpdateFrame(s, previous);
    assert t.snapshot == t.options;
    forall k | k in OrEmpty(t.devicePending) ensures k in t.written {
      assert k in LOCAL_MQTT_KEYS || k in OrEmpty(s.devicePending);
      if k in LOCAL_MQTT_KEYS {
        PushRequestedExactly(s, previous, k);
      }
    }
  }

  lemma SubmissionKeepsExplained(s: State, input: Options)
    requires Explained(s)
    ensures Explained(Submit(s, input))
  {
    var u := Stored(s, input);
    forall k | k in LOCAL_MQTT_KEYS && k !in u.written
      ensures !Differs(s.options, u.options, k)
    {}
    if Applied(s, input) {
      forall k | k in LOCAL_MQTT_KEYS && Differs(Resolved(s), u.options, k) ensures k in u.written {
        assert k in s.defaults;
      }
      UpdateKeepsExplained(u, Some(Resolved(s)));
    } else {
      forall k | s.owned && k in LOCAL_MQTT_KEYS && Differs(u.snapshot, u.options, k)
        ensures Marked(u, k) || k in u.written
      {
        if k !in u.written {
          assert Differs(s.snapshot, s.options, k);
        }
      }
    }
  }

  lemma ReadbackKeepsExplained(s: State, config: Config)
    requires Explained(s)
    ensures Explained(Adopt(s, config))
  {
    var t := Adopt(s, config);
    forall k | s.owned && k in LOCAL_MQTT_KEYS && Differs(t.snapshot, t.options, k)
      ensures Marked(t, k) || k in t.written
    {
      if k !in News(s.options, ReadbackOptions(config)) {
        assert Differs(s.snapshot, s.options, k);
      }
    }
  }

  lemma DrainKeepsExplained(s: State)
    requires Explained(s)
    ensures Explained(Drain(s))
  {
    var t := Drain(s);
    forall i, k | 0 <= i < |t.batches| && k in t.batches[i].pushed ensures k in t.written {
      if i < |s.batches| {
        assert t.batches[i] == s.batches[i];
      }
    }
    forall k | s.owned && k in LOCAL_MQTT_KEYS && Differs(t.snapshot, t.options, k)
      ensures Marked(t, k) || k in t.written
    {
      assert Differs(s.snapshot, s.options, k) && Marked(t, k) == Marked(s, k);
    }
  }

  lemma TokenKeepsExplained(s: State, token: string)
    requires Explained(s)
    ensures Explained(Step(s, TokenGenerated(token)))
  {
    var t := Step(s, TokenGenerated(token));
    forall k | s.owned && k in LOCAL_MQTT_KEYS && Differs(t.snapshot, t.options, k)
      ensures Marked(t, k) || k in t.written
    {
      if k != MqttToken {
        assert Differs(s.snapshot, s.options, k) && Marked(t, k) == Marked(s, k);
      }
    }
  }

  lemma RestartKeepsExplained(s: State)
    requires Explained(s)
    ensures Explained(Step(s, RestartListener))
  {
    var t := Step(s, RestartListener);
    assert OrEmpty(t.devicePending) == OrEmpty(s.devicePending);
    assert t.owned == s.owned && t.options == s.options && t.snapshot == s.snapshot && t.adopted == s.adopted;
    assert forall k :: Marked(t, k) == Marked(s, k);
  }

  lemma QueuedUpdateKeepsExplained(s: State)
    requires Explained(s)
    ensures Explained(Step(s, QueuedUpdate))
  {
    if s.queued > 0 {
      var u := s.(queued := s.queued - 1);
      assert forall k :: Marked(u, k) == Marked(s, k);
      if s.owned {
        UpdateKeepsExplained(u, None);
      }
    }
  }

  lemma LossKeepsExplained(s: State)
    requires Explained(s)
    ensures Explained(Step(s, LoseOwnership))
  {}

  lemma StepKeepsExplained(s: State, a: Action)
    requires Explained(s)
    ensures Explained(Step(s, a))
  {
    match a
    case QueuedUpdate => QueuedUpdateKeepsExplained(s);
    case UserSubmits(input) => SubmissionKeepsExplained(s, input);
    case DeviceReadback(config) => ReadbackKeepsExplained(s, config);
    case TaskRuns => DrainKeepsExplained(s);
    case TokenGenerated(token) => TokenKeepsExplained(s, token);
    case RestartListener => RestartKeepsExplained(s);
    case LoseOwnership => LossKeepsExplained(s);
  }

  /** What every step keeps: pending keys have a task, and pushes are explained. */
  ghost predicate Sound(s: State) {
    TaskCoversPending(s) && Explained(s)
  }

  lemma StepKeepsSound(s: State, a: Action)
    requires Sound(s)
    ensures Sound(Step(s, a))
  {
    StepKeepsCover(s, a);
    StepKeepsExplained(s, a);
  }

  lemma {:induction false} RunKeepsExplained(s: State, actions: seq<Action>)
    requires Explained(s)
    ensures Explained(Run(s, actions))
    decreases |actions|
  {
    if actions != [] {
      StepKeepsExplained(s, actions[0]);
      RunKeepsExplained(Step(s, actions[0]), actions[1..]);
    }
  }

  /** Configuration is only pushed for keys that a form or the token generator has written. */
  lemma OnlyWrittenKeysArePushed(s: State, actions: seq<Action>, i: nat, k: Key)
    requires Initial(s)
    requires i < |Run(s, actions).batches| && k in Run(s, actions).batches[i].pushed
    ensures k in Run(s, actions).written
  {
    RunKeepsExplained(s, actions);
  }

  lemma {:induction false} NothingWritten(s: State, actions: seq<Action>)
    requires forall i :: 0 <= i < |actions| ==> !actions[i].UserSubmits? && !actions[i].TokenGenerated?
    ensures Run(s, actions).written == s.written
    decreases |actions|
  {
    if actions != [] {
      NothingWritten(Step(s, actions[0]), actions[1..]);
    }
  }

  /** Readbacks on their own, in any number and order, never cause a push back to the device. */
  lemma ReadbackIsNeverEchoed(s: State, actions: seq<Action>, i: nat)
    requires Initial(s)
    requires forall j :: 0 <= j < |actions| ==> !actions[j].UserSubmits? && !actions[j].TokenGenerated?
    requires i < |Run(s, actions).batches|
    ensures Run(s, actions).batches[i].pushed == {}
  {
    NothingWritten(s, actions);
    RunKeepsExplained(s, actions);
  }

  /**
   A form submitted without a change still stores its defaults; the next queued update takes
   them for changes and has them pushed, so that "written" cannot be narrowed to "changed".
   */
  lemma FilledInDefaultIsPushed(s: State, k: Key)
    requires s.owned && s.queued > 0 && Submitted(s, map[]) == {}
    requires k in LOCAL_MQTT_KEYS && k in s.defaults && k !in s.options && k !in s.snapshot
    requires s.adopted.Some? ==> k !in s.adopted.value
    ensures k in OrEmpty(Step(Step(s, UserSubmits(map[])), QueuedUpdate).devicePending)
  {
    var t := Step(s, UserSubmits(map[]));
    assert t == Stored(s, map[]) && k in t.options;
    var u := t.(queued := t.queued - 1);
    assert k in ChangedKeys(u.snapshot, u.options) && !Marked(u, k);
    PushRequestedExactly(u, None, k);
  }
}
