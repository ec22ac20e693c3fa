/**
 Whole runs of the ingest gate: sequences of observations applied one after another, each
 with its own clock readings and freshness window, starting from the empty state.
 */
module IngestRuns {
  import opened Wrappers
  import opened Json
  import opened IngestRule
  import opened IngestStep

  datatype Observation = Observation(
    source: DataSource,
    section: string,
    payload: Tree,
    observedAt: Option<real>,
    requestId: Option<string>,
    receivedAt: Option<real>)

  /** One call of the gate: the observation, the caller's arguments and the two clocks. */
  datatype Arrival = Arrival(obs: Observation, receivedAt: Option<real>, window: real, monotonic: real, now: real)
  {
    function ReceivedAt(): real {
      if receivedAt.Some? then receivedAt.value
      else if obs.receivedAt.Some? then obs.receivedAt.value
      else monotonic
    }

    function Ctx(): Context {
      Context(Provenance(obs.source, obs.section, obs.observedAt, ReceivedAt(), obs.requestId), window, now)
    }

    function At(q: Path): Slot {
      SlotIn(obs.payload, q)
    }
  }

  datatype State = State(payload: Tree, owners: Ledger)
  {
    function At(q: Path): Slot {
      SlotIn(payload, q)
    }
  }

  const EMPTY := State(map[], map[])

  function Ingest(s: State, a: Arrival): State {
    State(TopFields(a.Ctx(), s.payload, a.obs.payload, s.owners),
          LedgerAfter(a.Ctx(), s.payload, a.obs.payload, s.owners))
  }

  function RunFrom(s: State, arrivals: seq<Arrival>): State {
    if arrivals == [] then s
    else Ingest(RunFrom(s, arrivals[..|arrivals| - 1]), arrivals[|arrivals| - 1])
  }

  function Run(arrivals: seq<Arrival>): State {
    RunFrom(EMPTY, arrivals)
  }

  // ---- Provenance and payload describe the same fields ----

  ghost predicate Matched(s: State) {
    s.owners.Keys == PathsOf(s.payload)
  }

  lemma IngestKeepsMatched(s: State, a: Arrival)
    requires Matched(s)
    ensures Matched(Ingest(s, a))
  {
    var t := Ingest(s, a);
    forall q: Path ensures q in t.owners <==> q in PathsOf(t.payload) {
      PathsAreSlots(s.payload, q);
      PathsAreSlots(t.payload, q);
      if q == [] {
        PathsAreSlots(a.obs.payload, q);
        assert q !in t.owners;
      } else {
        StepOutcome(a.Ctx(), s.payload, a.obs.payload, s.owners, q);
        assert Find(t.owners, q).Some? <==> q in t.owners;
      }
    }
  }

  lemma {:induction false} RunFromKeepsMatched(s: State, arrivals: seq<Arrival>)
    requires Matched(s)
    ensures Matched(RunFrom(s, arrivals))
  {
    if arrivals != [] {
      RunFromKeepsMatched(s, arrivals[..|arrivals| - 1]);
      IngestKeepsMatched(RunFrom(s, arrivals[..|arrivals| - 1]), arrivals[|arrivals| - 1]);
    }
  }

  /** In every run the owners recorded are exactly those of the paths in the payload. */
  lemma OwnersAreExactlyThePaths(arrivals: seq<Arrival>)
    ensures Run(arrivals).owners.Keys == PathsOf(Run(arrivals).payload)
  {
    assert PathsOf(map[]) == {};
    RunFromKeepsMatched(EMPTY, arrivals);
  }

  lemma MatchedIsOwned(s: State)
    requires Matched(s)
    ensures Owned(s.payload, [], s.owners)
  {
    forall q: Path | q != [] && s.At(q) != Missing ensures [] + q in s.owners {
      PathsAreSlots(s.payload, q);
      assert [] + q == q;
    }
  }

  // ---- Whoever is recorded as the owner of a path delivered what is there ----

  ghost predicate Delivered(arrivals: seq<Arrival>, owner: Provenance, q: Path, slot: Slot) {
    exists i :: 0 <= i < |arrivals| && arrivals[i].Ctx().incoming == owner && arrivals[i].At(q) == slot
  }

  lemma {:induction false} OwnersDelivered(arrivals: seq<Arrival>, q: Path)
    requires q in Run(arrivals).owners
    ensures Run(arrivals).At(q) != Missing
    ensures Delivered(arrivals, Run(arrivals).owners[q], q, Run(arrivals).At(q))
  {
    OwnersAreExactlyThePaths(arrivals);
    PathsAreSlots(Run(arrivals).payload, q);
    if arrivals != [] {
      var n := |arrivals| - 1;
      var before, a := Run(arrivals[..n]), arrivals[n];
      StepOutcome(a.Ctx(), before.payload, a.obs.payload, before.owners, q);
      if Find(Run(arrivals).owners, q) == Find(before.owners, q) && Run(arrivals).At(q) == before.At(q) {
        OwnersDelivered(arrivals[..n], q);
        var i :| 0 <= i < n && arrivals[..n][i].Ctx().incoming == before.owners[q]
          && arrivals[..n][i].At(q) == before.At(q);
        assert arrivals[i].Ctx().incoming == before.owners[q];
      } else {
        assert arrivals[n].Ctx().incoming == Run(arrivals).owners[q];
      }
    }
  }

  lemma SlotsComeFromFrames(arrivals: seq<Arrival>, q: Path)
    requires q != [] && Run(arrivals).At(q) != Missing
    ensures exists i :: 0 <= i < |arrivals| && arrivals[i].At(q) == Run(arrivals).At(q)
  {
    OwnersAreExactlyThePaths(arrivals);
    PathsAreSlots(Run(arrivals).payload, q);
    OwnersDelivered(arrivals, q);
  }

  // ---- Protection of fresh values ----

  /** A strictly lower tier while the owner is younger than the window, or an older timestamp. */
  ghost predicate YieldsTo(a: Arrival, owner: Provenance) {
    || (&& Tier(a.obs.source) < Tier(owner.source)
        && a.window > 0.0 && a.ReceivedAt() - owner.receivedAt < a.window)
    || (a.obs.observedAt.Some? && owner.observedAt.Some? && a.obs.observedAt.value < owner.observedAt.value)
  }

  /** The frame does not turn an object above the path into something else. */
  ghost predicate KeepsObjectsAbove(a: Arrival, q: Path) {
    forall n :: 0 < n < |q| ==> !a.At(q[..n]).Leaf?
  }

  lemma {:induction false} BreachNeedsLeafAbove(c: Context, update: Tree, path: Path, ledger: Ledger, q: Path)
    requires Breached(c, update, path, ledger, q)
    ensures exists n :: 0 < n < |q| && SlotIn(update, q[..n]).Leaf?
    decreases |q|
  {
    var k, r := q[0], q[1..];
    if update[k].Obj? {
      BreachNeedsLeafAbove(c, update[k].fields, path + [k], ledger, r);
      var n :| 0 < n < |r| && SlotIn(update[k].fields, r[..n]).Leaf?;
      assert q[..n + 1] == [k] + r[..n];
      SlotBelow(update, k, r[..n]);
    } else {
      assert q[..1] == [k] + [];
      SlotBelow(update, k, []);
    }
  }

  /**
   From any reachable state, no sequence of frames that all yield to the owner of a
   populated leaf changes its value or its owner.
   */
  lemma {:induction false} FreshLeafIsProtected(s: State, later: seq<Arrival>, q: Path)
    requires Matched(s) && q in s.owners
    requires s.At(q).Leaf? && !Blank(s.At(q).value)
    requires forall i :: 0 <= i < |later| ==> YieldsTo(later[i], s.owners[q]) && KeepsObjectsAbove(later[i], q)
    ensures var t := RunFrom(s, later); t.At(q) == s.At(q) && Find(t.owners, q) == Some(s.owners[q])
    decreases |later|
  {
    if later != [] {
      var n := |later| - 1;
      var before, a := RunFrom(s, later[..n]), later[n];
      FreshLeafIsProtected(s, later[..n], q);
      RunFromKeepsMatched(s, later[..n]);
      MatchedIsOwned(before);
      assert q != [];
      assert Protects(a.Ctx(), Find(before.owners, q));
      ProtectedLeafFate(a.Ctx(), before.payload, a.obs.payload, before.owners, q);
      StepOutcome(a.Ctx(), before.payload, a.obs.payload, before.owners, q);
      assert YieldsTo(a, s.owners[q]) && KeepsObjectsAbove(a, q);
      if Breached(a.Ctx(), a.obs.payload, [], before.owners, q) {
        BreachNeedsLeafAbove(a.Ctx(), a.obs.payload, [], before.owners, q);
        assert false;
      }
    }
  }

  /** For an arbitrary yielding frame the exact condition is that no breach occurs. */
  lemma FreshLeafSurvivesExactly(s: State, a: Arrival, q: Path)
    requires Matched(s) && q in s.owners
    requires s.At(q).Leaf? && !Blank(s.At(q).value)
    requires YieldsTo(a, s.owners[q])
    ensures var t := Ingest(s, a);
      (t.At(q) == s.At(q) && Find(t.owners, q) == Some(s.owners[q]))
      <==> !Breached(a.Ctx(), a.obs.payload, [], s.owners, q)
  {
    MatchedIsOwned(s);
    assert q != [];
    assert Protects(a.Ctx(), Find(s.owners, q));
    ProtectedLeafFate(a.Ctx(), s.payload, a.obs.payload, s.owners, q);
    StepOutcome(a.Ctx(), s.payload, a.obs.payload, s.owners, q);
  }

  /** The first frame of a run is taken over whole, and its sender owns every path. */
  lemma FirstFrame(a: Arrival)
    ensures Run([a]) == Ingest(EMPTY, a)
    ensures Run([a]).payload == a.obs.payload
    ensures forall q :: q in Run([a]).owners ==> Run([a]).owners[q] == a.Ctx().incoming
  {
    assert [a][..0] == [];
    assert RunFrom(EMPTY, [a][..0]) == EMPTY;
    assert Run([a]) == Ingest(EMPTY, a);
    forall k | k in a.obs.payload ensures TopValue(a.Ctx(), Null, a.obs.payload[k], k, map[]) == a.obs.payload[k] {
      if a.obs.payload[k].Obj? {
        FreshObject(a.Ctx(), a.obs.payload[k].fields, [k], Drop(map[], [k]), []);
      }
    }
    forall q | q in Run([a]).owners ensures Run([a]).owners[q] == a.Ctx().incoming {
      OwnersDelivered([a], q);
    }
  }

  /** A frame that yields to the owner of a fresh leaf nevertheless removes it. */
  ghost predicate LosesFreshLeaf(s: State, a: Arrival, q: Path) {
    && q in s.owners && s.At(q).Leaf? && !Blank(s.At(q).value)
    && YieldsTo(a, s.owners[q])
    && Ingest(s, a).At(q) == Missing
  }

  /**
   A breach is real: Bluetooth refreshes a nested field, but the object around it still
   belongs to the HTTP frame that created it, so within the window a cloud frame may
   replace that object and the fresh field with it.
   */
  lemma FreshNestedFieldCanBeLost()
    ensures exists http, ble, cloud, q :: LosesFreshLeaf(Run([http, ble]), cloud, q)
  {
    var http, ble, cloud := NestedFrame(Http, 0.0, Num(1.0)), NestedFrame(Ble, 10.0, Num(1.0)),
      FlatFrame(CloudMqtt, 20.0);
    var inner: Tree := map["x" := Num(1.0)];
    FirstFrame(http);
    OwnersAreExactlyThePaths([http]);
    BreachScenario(Run([http]), http.Ctx().incoming, ble, cloud, "a", map["b" := Obj(inner)], map["b" := Num(5.0)],
      "b", inner, "x");
    SecondFrame(http, ble);
    assert LosesFreshLeaf(Run([http, ble]), cloud, ["a", "b", "x"]);
  }

  function FrameAt(source: DataSource, receivedAt: real, payload: Tree): Arrival {
    Arrival(Observation(source, "", payload, None, None, None), None, 60.0, receivedAt, 0.0)
  }

  function NestedFrame(source: DataSource, receivedAt: real, x: Value): Arrival {
    FrameAt(source, receivedAt, map["a" := Obj(map["b" := Obj(map["x" := x])])])
  }

  function FlatFrame(source: DataSource, receivedAt: real): Arrival {
    FrameAt(source, receivedAt, map["a" := Obj(map["b" := Num(5.0)])])
  }

  lemma BreachScenario(s: State, http: Provenance, ble: Arrival, cloud: Arrival, k: string, middle: Tree, flat: Tree,
      l: string, inner: Tree, x: string)
    requires Matched(s) && s.payload == ble.obs.payload == map[k := Obj(middle)]
      && cloud.obs.payload == map[k := Obj(flat)]
    requires forall q :: q in s.owners ==> s.owners[q] == http
    requires http.source == Http && ble.obs.source == Ble && cloud.obs.source == CloudMqtt
    requires ble.obs.observedAt == None && cloud.obs.observedAt == None
    requires cloud.window > 0.0 && cloud.ReceivedAt() - ble.ReceivedAt() < cloud.window
    requires l in middle && middle[l] == Obj(inner) && x in inner && !inner[x].Obj? && !Blank(inner[x])
    requires l in flat && !flat[l].Obj? && !Blank(flat[l])
    ensures LosesFreshLeaf(Ingest(s, ble), cloud, [k, l, x])
  {
    var p, q := [k, l], [k, l, x];
    ThreeDeep(s.payload, k, l, x);
    PathsAreSlots(s.payload, p);
    RefreshInside(s, ble, p, q);
    BreachTwoDeep(Ingest(s, ble), cloud, middle, flat, k, l, x);
  }

  lemma SecondFrame(a: Arrival, b: Arrival)
    ensures Run([a, b]) == Ingest(Run([a]), b)
  {
    assert [a, b][..1] == [a];
  }

  /** A frame of the same shape takes the leaf and leaves the object above it with its owner. */
  lemma RefreshInside(s: State, a: Arrival, p: Path, q: Path)
    requires Matched(s) && s.payload == a.obs.payload
    requires |p| > 1 && s.At(p) == Branch && |q| > 1 && s.At(q).Leaf? && !Blank(s.At(q).value)
    requires q in s.owners ==> !Protects(a.Ctx(), Some(s.owners[q]))
    ensures Matched(Ingest(s, a))
    ensures Ingest(s, a).At(q) == s.At(q) && Find(Ingest(s, a).owners, q) == Some(a.Ctx().incoming)
    ensures Find(Ingest(s, a).owners, p) == Find(s.owners, p)
  {
    IngestKeepsMatched(s, a);
    PathsAreSlots(s.payload, q);
    var c := a.Ctx();
    assert Compatible(s.payload, a.obs.payload);
    StepLeafRule(c, s.payload, a.obs.payload, s.owners, q);
    StepOutcome(c, s.payload, a.obs.payload, s.owners, q);
    StepOutcome(c, s.payload, a.obs.payload, s.owners, p);
    var k, r := p[0], p[1..];
    assert p == [k] + r;
    SlotBelow(s.payload, k, r);
    var fields := s.payload[k].fields;
    NestedObjectKeepsOwner(c, fields, fields, [k], Find(s.owners, [k]), s.owners, r);
  }

  lemma BreachTwoDeep(s: State, a: Arrival, middle: Tree, flat: Tree, k: string, l: string, x: string)
    requires Matched(s) && [k, l, x] in s.owners
    requires s.At([k, l, x]).Leaf? && !Blank(s.At([k, l, x]).value)
    requires a.obs.payload == map[k := Obj(flat)] && l in flat && !flat[l].Obj? && !Blank(flat[l])
    requires YieldsTo(a, s.owners[[k, l, x]]) && !Protects(a.Ctx(), Find(s.owners, [k, l]))
    ensures Ingest(s, a).At([k, l, x]) == Missing
  {
    var q := [k, l, x];
    FreshLeafSurvivesExactly(s, a, q);
    MatchedIsOwned(s);
    ProtectedLeafFate(a.Ctx(), s.payload, a.obs.payload, s.owners, q);
    assert q[1..] == [l, x];
    assert [k] + [l] == [k, l] && [] + [k] == [k];
    assert Breached(a.Ctx(), flat, [] + [k], s.owners, q[1..]);
    assert Breached(a.Ctx(), a.obs.payload, [], s.owners, q);
  }

  lemma ThreeDeep(t: Tree, a: string, b: string, x: string)
    requires a in t && t[a].Obj? && b in t[a].fields && t[a].fields[b].Obj? && x in t[a].fields[b].fields
    ensures SlotIn(t, [a]) == Branch && SlotIn(t, [a, b]) == Branch
    ensures SlotIn(t, [a, b, x]) == SlotOf(t[a].fields[b].fields[x], [])
  {
    SlotBelow(t, a, []);
    SlotBelow(t, a, [b]);
    SlotBelow(t, a, [b, x]);
    SlotBelow(t[a].fields, b, []);
    SlotBelow(t[a].fields, b, [x]);
    SlotBelow(t[a].fields[b].fields, x, []);
    assert [a] + [] == [a] && [a] + [b] == [a, b] && [a] + [b, x] == [a, b, x];
    assert [b] + [] == [b] && [b] + [x] == [b, x] && [x] + [] == [x];
  }
}
