/**
 Without a freshness window, timestamped frames converge: the payload depends only on which
 observations arrived, not on their order or on how often they were repeated.
 */
module IngestConvergence {
  import opened Wrappers
  import opened Json
  import opened IngestRule
  import opened IngestStep
  import opened IngestRuns

  /** Every frame is timestamped, no window applies, and equal timestamps mean equal frames. */
  ghost predicate Timed(arrivals: seq<Arrival>) {
    && (forall i :: 0 <= i < |arrivals| ==> arrivals[i].window <= 0.0 && arrivals[i].obs.observedAt.Some?)
    && (forall i, j :: 0 <= i < |arrivals| && 0 <= j < |arrivals| ==>
          arrivals[i].obs.observedAt == arrivals[j].obs.observedAt ==> arrivals[i].obs == arrivals[j].obs)
  }

  /** A path is always an object or never, and frames carry no blank leaves. */
  ghost predicate Shaped(arrivals: seq<Arrival>) {
    && (forall i, j, q :: 0 <= i < |arrivals| && 0 <= j < |arrivals| ==>
         SameShape(arrivals[i].At(q), arrivals[j].At(q)))
    && (forall i, q :: 0 <= i < |arrivals| && arrivals[i].At(q).Leaf? ==> !Blank(arrivals[i].At(q).value))
  }

  function Stamp(a: Arrival): real {
    if a.obs.observedAt.Some? then a.obs.observedAt.value else 0.0
  }

  /** Frame `i` carries the path, and no frame carrying it is newer. */
  ghost predicate Newest(arrivals: seq<Arrival>, q: Path, i: int) {
    && 0 <= i < |arrivals|
    && arrivals[i].At(q) != Missing
    && forall j :: 0 <= j < |arrivals| && arrivals[j].At(q) != Missing ==> Stamp(arrivals[j]) <= Stamp(arrivals[i])
  }

  lemma {:induction false} NewestExists(arrivals: seq<Arrival>, q: Path, k: int) returns (i: int)
    requires 0 <= k < |arrivals| && arrivals[k].At(q) != Missing
    ensures Newest(arrivals, q, i)
  {
    i := k;
    for n := 0 to |arrivals|
      invariant 0 <= i < |arrivals| && arrivals[i].At(q) != Missing
      invariant forall j :: 0 <= j < n && arrivals[j].At(q) != Missing ==> Stamp(arrivals[j]) <= Stamp(arrivals[i])
    {
      if arrivals[n].At(q) != Missing && Stamp(arrivals[n]) > Stamp(arrivals[i]) {
        i := n;
      }
    }
  }

  lemma StateIsCompatible(arrivals: seq<Arrival>)
    requires |arrivals| > 0 && Shaped(arrivals)
    ensures Compatible(Run(arrivals[..|arrivals| - 1]).payload, arrivals[|arrivals| - 1].obs.payload)
  {
    var n := |arrivals| - 1;
    var before := Run(arrivals[..n]);
    forall q: Path ensures SameShape(SlotIn(before.payload, q), SlotIn(arrivals[n].obs.payload, q)) {
      if q != [] && before.At(q) != Missing {
        SlotsComeFromFrames(arrivals[..n], q);
        var i :| 0 <= i < n && arrivals[..n][i].At(q) == before.At(q);
        assert SameShape(arrivals[i].At(q), arrivals[n].At(q));
      }
    }
  }

  /** Without a window, a populated leaf is kept from a frame exactly when the frame is older. */
  lemma UnwindowedStep(s: State, a: Arrival, q: Path)
    requires Matched(s) && Compatible(s.payload, a.obs.payload) && q != []
    requires a.window <= 0.0 && a.obs.observedAt.Some?
    requires a.At(q).Leaf? ==> !Blank(a.At(q).value)
    ensures s.At(q).Leaf? ==> q in s.owners
    ensures var t := Ingest(s, a);
      match a.At(q)
      case Missing => t.At(q) == s.At(q) && (s.At(q).Leaf? ==> q in t.owners && t.owners[q] == s.owners[q])
      case Branch => t.At(q) == Branch
      case Leaf(v) =>
        q in t.owners &&
        if s.At(q).Leaf? && !Blank(s.At(q).value) && s.owners[q].observedAt.Some?
          && Stamp(a) < s.owners[q].observedAt.value then
          t.At(q) == s.At(q) && t.owners[q] == s.owners[q]
        else t.At(q) == a.At(q) && t.owners[q] == a.Ctx().incoming
  {
    PathsAreSlots(s.payload, q);
    StepLeafRule(a.Ctx(), s.payload, a.obs.payload, s.owners, q);
    StepOutcome(a.Ctx(), s.payload, a.obs.payload, s.owners, q);
  }

  lemma LastStep(arrivals: seq<Arrival>, q: Path)
    requires |arrivals| > 0 && Timed(arrivals) && Shaped(arrivals) && q != []
    ensures var n := |arrivals| - 1;
      && Run(arrivals) == Ingest(Run(arrivals[..n]), arrivals[n])
      && Matched(Run(arrivals[..n])) && Compatible(Run(arrivals[..n]).payload, arrivals[n].obs.payload)
      && Timed(arrivals[..n]) && Shaped(arrivals[..n])
      && arrivals[n].window <= 0.0 && arrivals[n].obs.observedAt.Some?
      && (arrivals[n].At(q).Leaf? ==> !Blank(arrivals[n].At(q).value))
  {
    StateIsCompatible(arrivals);
    OwnersAreExactlyThePaths(arrivals[..|arrivals| - 1]);
  }

  /** The state holds what frame `i` said, and a leaf has that frame's timestamp. */
  ghost predicate Holds(s: State, a: Arrival, q: Path) {
    && s.At(q) == a.At(q)
    && (a.At(q).Leaf? ==> q in s.owners && s.owners[q].observedAt == a.obs.observedAt)
  }

  /** A last frame that is silent or older leaves the newest frame's value. */
  lemma OlderFrameChangesNothing(arrivals: seq<Arrival>, q: Path, i: int)
    requires Timed(arrivals) && Shaped(arrivals) && q != [] && 0 <= i < |arrivals| - 1
    requires var a := arrivals[|arrivals| - 1]; a.At(q) == Missing || Stamp(a) < Stamp(arrivals[i])
    requires arrivals[i].At(q) != Missing && Holds(Run(arrivals[..|arrivals| - 1]), arrivals[i], q)
    ensures Holds(Run(arrivals), arrivals[i], q)
  {
    var n := |arrivals| - 1;
    LastStep(arrivals, q);
    UnwindowedStep(Run(arrivals[..n]), arrivals[n], q);
    assert SameShape(arrivals[i].At(q), arrivals[n].At(q));
  }

  /** A last frame that is at least as new as the owner takes the path over. */
  lemma NewerFrameTakesOver(arrivals: seq<Arrival>, q: Path)
    requires |arrivals| > 0 && Timed(arrivals) && Shaped(arrivals) && q != []
    requires var a, before := arrivals[|arrivals| - 1], Run(arrivals[..|arrivals| - 1]);
      && a.At(q) != Missing
      && (before.At(q).Leaf? ==>
            q in before.owners && before.owners[q].observedAt.Some? && before.owners[q].observedAt.value <= Stamp(a))
    ensures Holds(Run(arrivals), arrivals[|arrivals| - 1], q)
  {
    var n := |arrivals| - 1;
    LastStep(arrivals, q);
    UnwindowedStep(Run(arrivals[..n]), arrivals[n], q);
  }

  /** What is held before the last frame has a timestamp, and no later one than the newest. */
  lemma {:induction false} OwnerIsNotNewer(arrivals: seq<Arrival>, q: Path, i: int)
    requires |arrivals| > 0 && Timed(arrivals) && Shaped(arrivals) && q != [] && Newest(arrivals, q, i)
    requires Run(arrivals[..|arrivals| - 1]).At(q).Leaf?
    ensures var before := Run(arrivals[..|arrivals| - 1]);
      q in before.owners && before.owners[q].observedAt.Some? && before.owners[q].observedAt.value <= Stamp(arrivals[i])
    decreases |arrivals|, 0
  {
    var n := |arrivals| - 1;
    var earlier := arrivals[..n];
    SlotsComeFromFrames(earlier, q);
    var k :| 0 <= k < n && earlier[k].At(q) == Run(earlier).At(q);
    var j := NewestExists(earlier, q, k);
    assert arrivals[j] == earlier[j];
    NewestFrameWins(earlier, q, j);
  }

  /** The payload holds a path exactly when some frame carried it, with the newest frame's value. */
  lemma {:induction false} NewestFrameWins(arrivals: seq<Arrival>, q: Path, i: int)
    requires Timed(arrivals) && Shaped(arrivals)
    requires q != [] && Newest(arrivals, q, i)
    ensures Run(arrivals).At(q) == arrivals[i].At(q)
    ensures arrivals[i].At(q).Leaf? ==>
      q in Run(arrivals).owners && Run(arrivals).owners[q].observedAt == arrivals[i].obs.observedAt
    decreases |arrivals|, 1
  {
    var n := |arrivals| - 1;
    var a := arrivals[n];
    if a.At(q) == Missing || Stamp(a) < Stamp(arrivals[i]) {
      NewestInPrefix(arrivals, q, i);
      assert arrivals[..n][i] == arrivals[i];
      NewestFrameWins(arrivals[..n], q, i);
      OlderFrameChangesNothing(arrivals, q, i);
    } else {
      assert Stamp(arrivals[i]) == Stamp(a) && arrivals[i].obs == a.obs;
      if Run(arrivals[..n]).At(q).Leaf? {
        OwnerIsNotNewer(arrivals, q, i);
      }
      NewerFrameTakesOver(arrivals, q);
    }
  }

  lemma NewestInPrefix(arrivals: seq<Arrival>, q: Path, i: int)
    requires Newest(arrivals, q, i) && i < |arrivals| - 1
    ensures Newest(arrivals[..|arrivals| - 1], q, i)
  {
    var earlier := arrivals[..|arrivals| - 1];
    assert forall j :: 0 <= j < |earlier| ==> earlier[j] == arrivals[j];
  }

  /** Some arrival brought this observation. */
  ghost predicate Brought(arrivals: seq<Arrival>, o: Observation) {
    exists i :: 0 <= i < |arrivals| && arrivals[i].obs == o
  }

  lemma SlotsAgree(xs: seq<Arrival>, ys: seq<Arrival>, q: Path)
    requires Timed(xs) && Shaped(xs) && Timed(ys) && Shaped(ys)
    requires forall o :: Brought(xs, o) <==> Brought(ys, o)
    requires q != [] && Run(xs).At(q) != Missing
    ensures Run(ys).At(q) == Run(xs).At(q)
  {
    SlotsComeFromFrames(xs, q);
    var k :| 0 <= k < |xs| && xs[k].At(q) == Run(xs).At(q);
    var i := NewestExists(xs, q, k);
    NewestFrameWins(xs, q, i);
    assert Brought(xs, xs[i].obs);
    var j :| 0 <= j < |ys| && ys[j].obs == xs[i].obs;
    forall l | 0 <= l < |ys| && ys[l].At(q) != Missing ensures Stamp(ys[l]) <= Stamp(ys[j]) {
      assert Brought(ys, ys[l].obs);
      var m :| 0 <= m < |xs| && xs[m].obs == ys[l].obs;
      assert Stamp(xs[m]) <= Stamp(xs[i]);
    }
    assert Newest(ys, q, j);
    NewestFrameWins(ys, q, j);
  }

  /** Any two runs that received the same observations end with the same payload. */
  lemma RunsConverge(xs: seq<Arrival>, ys: seq<Arrival>)
    requires Timed(xs) && Shaped(xs) && Timed(ys) && Shaped(ys)
    requires forall o :: Brought(xs, o) <==> Brought(ys, o)
    ensures Run(xs).payload == Run(ys).payload
  {
    forall q: Path ensures SlotIn(Run(xs).payload, q) == SlotIn(Run(ys).payload, q) {
      if q != [] {
        if Run(xs).At(q) != Missing {
          SlotsAgree(xs, ys, q);
        } else if Run(ys).At(q) != Missing {
          SlotsAgree(ys, xs, q);
        }
      }
    }
    SlotsDetermineTree(Run(xs).payload, Run(ys).payload);
  }
}
