/** Every interleaving of a cleanup loop with appends to its list. */
module CleanupRuns {
  import opened Wrappers
  import opened DeferredList

  /** A pass of a cleanup loop: the items it took, how many are judged, and which it retains. */
  datatype Pass = Pass(snapshot: seq<Handle>, judged: nat, retained: seq<Handle>)

  /**
   The sets record history: what was ever deferred; what was confirmed stopped since it was last
   deferred; what was deferred again after the running pass had judged it stopped; and what a
   pass has dropped in that situation.
   */
  datatype State = State(
    items: seq<Handle>, pass: Option<Pass>,
    deferred: set<Handle>, stopped: set<Handle>, reopened: set<Handle>, lost: set<Handle>)

  datatype Action =
    | Defer(item: Handle)
    | Begin(own: set<Handle>)
    | Judge(isStopped: bool)
    | Finish
    | Cancelled

  function Without(s: seq<Handle>, own: set<Handle>): seq<Handle> {
    if s == [] then []
    else Without(s[..|s| - 1], own) + if s[|s| - 1] in own then [] else [s[|s| - 1]]
  }

  /** The running pass has judged the item stopped. */
  predicate JudgedStopped(s: State, x: Handle) {
    && s.pass.Some? && s.pass.value.judged <= |s.pass.value.snapshot|
    && x in s.pass.value.snapshot[..s.pass.value.judged] && x !in s.pass.value.retained
  }

  function Step(s: State, a: Action): State {
    match a
    case Defer(x) =>
      s.(items := AppendMissing(s.items, [x]), deferred := s.deferred + {x}, stopped := s.stopped - {x},
         reopened := if JudgedStopped(s, x) then s.reopened + {x} else s.reopened, lost := s.lost - {x})
    // The task that runs the loop does not wait for itself.
    case Begin(own) => if s.pass.None? then s.(pass := Some(Pass(Without(s.items, own), 0, []))) else s
    case Judge(isStopped) =>
      if s.pass.Some? && s.pass.value.judged < |s.pass.value.snapshot| then
        var p := s.pass.value;
        var item := p.snapshot[p.judged];
        if isStopped then s.(pass := Some(p.(judged := p.judged + 1)), stopped := s.stopped + {item})
        else s.(pass := Some(p.(judged := p.judged + 1, retained := p.retained + [item])))
      else s
    case Finish =>
      if s.pass.Some? && s.pass.value.judged == |s.pass.value.snapshot| then
        s.(items := Reconciled(s.items, s.pass.value.snapshot, s.pass.value.retained), pass := None,
           reopened := {}, lost := s.lost + s.reopened)
      else s
    case Cancelled => s.(pass := None, reopened := {})
  }

  function Run(s: State, actions: seq<Action>): State
    decreases |actions|
  {
    if actions == [] then s else Run(Step(s, actions[0]), actions[1..])
  }

  /** Every deferred resource is accounted for in one way. */
  ghost predicate ItemsKept(s: State) {
    && Distinct(s.items)
    && (forall x :: x in s.items ==> x in s.deferred)
    && (forall x :: x in s.deferred ==> x in s.items || x in s.stopped || x in s.lost)
    && (forall x :: x in s.lost ==> x in s.deferred && x !in s.items && x !in s.stopped)
  }

  /** The running pass: what it took is still listed, and what it judged is retained, stopped or reopened. */
  ghost predicate PassKept(s: State) {
    && (s.pass.None? ==> s.reopened == {})
    && (s.pass.Some? ==>
          var p := s.pass.value;
          && p.judged <= |p.snapshot| && Distinct(p.snapshot)
          && (forall x :: x in p.snapshot ==> x in s.items)
          && (forall x :: x in p.retained ==> x in p.snapshot[..p.judged])
          && (forall x :: x in s.reopened ==> JudgedStopped(s, x) && x !in s.stopped)
          && (forall x :: x in p.snapshot[..p.judged] ==> x in p.retained || x in s.stopped || x in s.reopened))
  }

  ghost predicate Kept(s: State) {
    ItemsKept(s) && PassKept(s)
  }

  lemma {:induction false} WithoutMembers(s: seq<Handle>, own: set<Handle>)
    ensures forall x :: x in Without(s, own) <==> x in s && x !in own
    ensures Distinct(s) ==> Distinct(Without(s, own))
  {
    if s != [] {
      var n := |s| - 1;
      WithoutMembers(s[..n], own);
      assert s == s[..n] + [s[n]];
    }
  }

  lemma DeferKeepsAll(s: State, x: Handle)
    requires Kept(s)
    ensures Kept(Step(s, Defer(x)))
  {
    AppendMissingMembers(s.items, [x]);
    var t := Step(s, Defer(x));
    forall y | t.pass.Some? && y in t.pass.value.snapshot[..t.pass.value.judged]
      ensures y in t.pass.value.retained || y in t.stopped || y in t.reopened
    {
      assert y in s.pass.value.retained || y in s.stopped || y in s.reopened;
    }
  }

  lemma JudgeKeepsAll(s: State, isStopped: bool)
    requires Kept(s)
    ensures Kept(Step(s, Judge(isStopped)))
  {
    if s.pass.Some? && s.pass.value.judged < |s.pass.value.snapshot| {
      var p, t := s.pass.value, Step(s, Judge(isStopped));
      var item := p.snapshot[p.judged];
      assert p.snapshot[..p.judged + 1] == p.snapshot[..p.judged] + [item];
      assert item in p.snapshot && item in s.items && item !in p.snapshot[..p.judged];
      forall y | y in t.pass.value.snapshot[..p.judged + 1]
        ensures y in t.pass.value.retained || y in t.stopped || y in t.reopened
      {
        if y in p.snapshot[..p.judged] {
          assert y in p.retained || y in s.stopped || y in s.reopened;
        }
      }
    }
  }

  lemma FinishKeepsAll(s: State)
    requires Kept(s)
    ensures Kept(Step(s, Finish))
  {
    if s.pass.Some? && s.pass.value.judged == |s.pass.value.snapshot| {
      var p := s.pass.value;
      assert p.snapshot[..p.judged] == p.snapshot;
      ReconciledMembers(s.items, p.snapshot, p.retained);
    }
  }

  lemma BeginKeepsAll(s: State, own: set<Handle>)
    requires Kept(s)
    ensures Kept(Step(s, Begin(own)))
  {
    WithoutMembers(s.items, own);
  }

  lemma StepKeepsAll(s: State, a: Action)
    requires Kept(s)
    ensures Kept(Step(s, a))
  {
    match a
    case Defer(x) => DeferKeepsAll(s, x);
    case Begin(own) => BeginKeepsAll(s, own);
    case Judge(isStopped) => JudgeKeepsAll(s, isStopped);
    case Finish => FinishKeepsAll(s);
    case Cancelled =>
  }

  /** Deferred, not confirmed stopped since, and yet not listed. */
  predicate Unaccounted(s: State, x: Handle) {
    x in s.deferred && x !in s.stopped && x !in s.items
  }

  /**
   However appends, passes, cancellations and failed stops interleave, the list has no duplicates,
   and a resource is out of sight exactly if a pass dropped it that had judged it stopped before
   it was deferred again.
   */
  lemma {:induction false} LostExactly(s: State, actions: seq<Action>, x: Handle)
    requires Kept(s)
    ensures Distinct(Run(s, actions).items) && (Unaccounted(Run(s, actions), x) <==> x in Run(s, actions).lost)
    decreases |actions|
  {
    if actions != [] {
      StepKeepsAll(s, actions[0]);
      LostExactly(Step(s, actions[0]), actions[1..], x);
    }
  }

  /** The run never defers a resource that the pass then running has judged stopped. */
  predicate NeverReopens(s: State, actions: seq<Action>)
    decreases |actions|
  {
    || actions == []
    || ((actions[0].Defer? ==> !JudgedStopped(s, actions[0].item)) && NeverReopens(Step(s, actions[0]), actions[1..]))
  }

  lemma {:induction false} NothingReopened(s: State, actions: seq<Action>)
    requires NeverReopens(s, actions) && s.reopened == {}
    ensures Run(s, actions).lost <= s.lost
    decreases |actions|
  {
    if actions != [] {
      NothingReopened(Step(s, actions[0]), actions[1..]);
    }
  }

  /** In such a run every resource that was ever deferred is still listed or confirmed stopped. */
  lemma NothingDeferredIsLost(s: State, actions: seq<Action>, x: Handle)
    requires Kept(s) && s.lost == {} && s.reopened == {} && NeverReopens(s, actions)
    requires x in Run(s, actions).deferred && x !in Run(s, actions).stopped
    ensures x in Run(s, actions).items
  {
    LostExactly(s, actions, x);
    NothingReopened(s, actions);
  }

  /** And the restriction is needed: deferring a resource again after its verdict loses it. */
  lemma ReopenedIsLost(x: Handle)
    ensures var s := State([x], None, {x}, {}, {}, {});
      var actions := [Begin({}), Judge(true), Defer(x), Finish];
      Kept(s) && Unaccounted(Run(s, actions), x)
  {
    var s := State([x], None, {x}, {}, {}, {});
    WithoutNone([x]);
    var t := Step(s, Begin({}));
    var u := Step(t, Judge(true));
    var v := Step(u, Defer(x));
    assert AppendMissing([x], [x][..0]) == [x];
    assert v.items == [x];
    var w := Step(v, Finish);
    ReconciledMembers(v.items, [x], []);
    var actions := [Begin({}), Judge(true), Defer(x), Finish];
    assert actions[1..][1..] == [Defer(x), Finish] && [Defer(x), Finish][1..] == [Finish] && [Finish][1..] == [];
    assert Run(s, actions) == Run(t, actions[1..]) == Run(u, [Defer(x), Finish]) == Run(v, [Finish]) == w;
  }

  /** The running pass is about to judge the item. */
  predicate IsNext(s: State, x: Handle) {
    s.pass.Some? && s.pass.value.judged < |s.pass.value.snapshot| && s.pass.value.snapshot[s.pass.value.judged] == x
  }

  /** No verdict of the run confirms that the resource has stopped. */
  predicate NeverConfirmed(s: State, actions: seq<Action>, x: Handle)
    decreases |actions|
  {
    || actions == []
    || (!(IsNext(s, x) && actions[0] == Judge(true)) && NeverConfirmed(Step(s, actions[0]), actions[1..], x))
  }

  /** The list alone: a resource that is never confirmed stopped never leaves it, through all passes. */
  lemma {:induction false} UnconfirmedStaysListed(s: State, actions: seq<Action>, x: Handle)
    requires Kept(s) && x in s.items && !JudgedStopped(s, x) && NeverConfirmed(s, actions, x)
    ensures x in Run(s, actions).items
    decreases |actions|
  {
    if actions != [] {
      StepKeepsAll(s, actions[0]);
      UnconfirmedStep(s, actions[0], x);
      UnconfirmedStaysListed(Step(s, actions[0]), actions[1..], x);
    }
  }

  lemma UnconfirmedStep(s: State, a: Action, x: Handle)
    requires Kept(s) && x in s.items && !JudgedStopped(s, x) && !(IsNext(s, x) && a == Judge(true))
    ensures x in Step(s, a).items && !JudgedStopped(Step(s, a), x)
  {
    match a
    case Defer(y) => AppendMissingMembers(s.items, [y]);
    case Finish =>
      if s.pass.Some? {
        var p := s.pass.value;
        ReconciledMembers(s.items, p.snapshot, p.retained);
        assert p.judged == |p.snapshot| ==> p.snapshot[..p.judged] == p.snapshot;
      }
    case Judge(isStopped) =>
      if s.pass.Some? && s.pass.value.judged < |s.pass.value.snapshot| {
        var p := s.pass.value;
        assert p.snapshot[..p.judged + 1] == p.snapshot[..p.judged] + [p.snapshot[p.judged]];
      }
    case _ =>
  }

  /** The history is recorded as it happens: confirmed by a verdict, and until deferred again. */
  lemma HistoryIsRecorded(s: State, a: Action, x: Handle)
    ensures x in Step(s, a).stopped <==> (a == Judge(true) && IsNext(s, x)) || (x in s.stopped && a != Defer(x))
    ensures x in Step(s, a).deferred <==> a == Defer(x) || x in s.deferred
  {}

  lemma {:induction false} RunOfJudgements(s: State, p: Pass, n: nat)
    requires s.pass == Some(p) && p.retained == [] && p.judged + n == |p.snapshot|
    ensures var t := Run(s, seq(n, i => Judge(true)) + [Finish]);
      t.pass == None && t.items == Reconciled(s.items, p.snapshot, [])
    decreases n
  {
    var actions := seq(n, i => Judge(true)) + [Finish];
    if n > 0 {
      assert actions[1..] == seq(n - 1, i => Judge(true)) + [Finish];
      RunOfJudgements(Step(s, actions[0]), p.(judged := p.judged + 1), n - 1);
    } else {
      assert actions[1..] == [] && Run(Step(s, Finish), []) == Step(s, Finish);
    }
  }

  /** An undisturbed pass in which everything stops empties the list, so the loop ends. */
  lemma CleanPassEmptiesTheList(s: State)
    requires s.pass == None
    ensures Run(s, [Begin({})] + seq(|Without(s.items, {})|, i => Judge(true)) + [Finish]).items == []
  {
    var n := |Without(s.items, {})|;
    var actions := [Begin({})] + seq(n, i => Judge(true)) + [Finish];
    var t := Step(s, Begin({}));
    assert actions[1..] == seq(n, i => Judge(true)) + [Finish];
    RunOfJudgements(t, t.pass.value, n);
    WithoutNone(s.items);
    var items := Reconciled(s.items, s.items, []);
    assert items != [] ==> items[0] in items;
    ReconciledMembers(s.items, s.items, []);
  }

  lemma {:induction false} WithoutNone(s: seq<Handle>)
    ensures Without(s, {}) == s
  {
    if s != [] {
      WithoutNone(s[..|s| - 1]);
    }
  }
}
