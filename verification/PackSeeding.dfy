/** The seeding as the coordinator carries it out, override by override. */
module PackSeeding {
  import opened Wrappers
  import opened SerialKeys
  import opened PackOrder
  import opened PackIdentity

  type Overrides = map<nat, Option<string>>

  /** The overrides that `given` adds to `m`, one after the other. */
  function Placed(given: seq<Assignment>, m: Overrides): Overrides {
    if given == [] then m
    else Placed(given[..|given| - 1], m)[given[|given| - 1].index := Some(given[|given| - 1].serial)]
  }

  function Blanked(indices: set<nat>): Overrides {
    map i | i in indices :: None
  }

  predicate Repeated(live: Live, i: nat) {
    1 <= i <= MAX_INDEX && Observed(live, i).Some? && Ambiguous(live, StableKey(Observed(live, i).value, i))
  }

  /** The indices whose live serial is repeated fall back to index identities. */
  function Disabled(live: Live): Overrides {
    map i | 1 <= i <= MAX_INDEX && Repeated(live, i) :: None
  }

  /** The session overrides after seeding one parent. */
  function SeededOverrides(p: Parent, before: Overrides): Overrides {
    if DistinctKeys(p.records) then Placed(Seeded(p), before + Disabled(p.live)) else before
  }

  lemma {:induction false} PlacedAt(given: seq<Assignment>, m: Overrides, k: nat)
    requires DistinctIndices(given)
    ensures Placed(given, m).Keys == m.Keys + Taken(given)
    ensures k < |given| ==>
      given[k].index in Placed(given, m) && Placed(given, m)[given[k].index] == Some(given[k].serial)
    ensures forall i :: i in m && i !in Taken(given) ==> Placed(given, m)[i] == m[i]
  {
    if given != [] {
      var n := |given| - 1;
      assert given == given[..n] + [given[n]];
      PlacedAt(given[..n], m, k);
      assert Taken(given) == Taken(given[..n]) + {given[n].index};
    }
  }

  /**
   No assignment overwrites another: afterwards each assigned index carries its serial, and
   every other index what it had, or none if the live payload repeats its serial.
   */
  lemma OverridesAreTheAssignments(p: Parent, before: Overrides)
    requires RealSerials(p.records) && DistinctKeys(p.records)
    ensures var after, given := SeededOverrides(p, before), Seeded(p);
      && after.Keys == before.Keys + Disabled(p.live).Keys + Taken(given)
      && (forall a :: a in given ==> after[a.index] == Some(a.serial))
      && (forall i :: i in before && i !in Taken(given) ==> after[i] == if Repeated(p.live, i) then None else before[i])
  {
    SeededIndicesDiffer(p);
    var base := before + Disabled(p.live);
    PlacedAll(Seeded(p), base);
    forall i | i in before && i !in Taken(Seeded(p))
      ensures Placed(Seeded(p), base)[i] == if Repeated(p.live, i) then None else before[i]
    {
      assert i in base && base[i] == if Repeated(p.live, i) then None else before[i];
    }
  }

  /** Records whose keys coincide are trusted with nothing: the whole parent is left as it is. */
  lemma RepeatedRecordsSeedNothing(p: Parent, before: Overrides, i: nat, j: nat)
    requires i < j < |p.records|
    requires StableKey(p.records[i].serial, IndexOrOne(p.records[i]))
      == StableKey(p.records[j].serial, IndexOrOne(p.records[j]))
    ensures SeededOverrides(p, before) == before && Seeded(p) == []
  {}

  lemma SeededIndicesDiffer(p: Parent)
    requires RealSerials(p.records)
    ensures DistinctIndices(Seeded(p))
  {
    SeedingIsInjective(p);
  }

  lemma PlacedAll(given: seq<Assignment>, m: Overrides)
    requires DistinctIndices(given)
    ensures Placed(given, m).Keys == m.Keys + Taken(given)
    ensures forall a :: a in given ==> Placed(given, m)[a.index] == Some(a.serial)
    ensures forall i :: i in m && i !in Taken(given) ==> Placed(given, m)[i] == m[i]
  {
    PlacedAt(given, m, 0);
    forall a | a in given ensures Placed(given, m)[a.index] == Some(a.serial) {
      var k :| 0 <= k < |given| && given[k] == a;
      PlacedAt(given, m, k);
    }
  }

  lemma {:induction false} KeyIndicesMember(live: Live, key: string, n: nat, i: nat)
    ensures i in KeyIndices(live, key, n)
        <==> 1 <= i <= n && Observed(live, i).Some? && StableKey(Observed(live, i).value, i) == key
  {
    if n > 0 {
      KeyIndicesMember(live, key, n - 1, i);
    }
  }

  class Coordinator {
    var overrides: Overrides

    method SetOverride(index: nat, serial: Option<string>)
      modifies this
      ensures overrides == old(overrides)[index := serial]
    {
      overrides := overrides[index := serial];
    }

    /** `_observed_battery_pack_indices` */
    method ObserveLive(live: Live) returns (serialIndex: map<string, nat>, keyIndices: map<string, seq<nat>>)
      ensures forall t :: LiveIndex(live, t, MAX_INDEX) == if t in serialIndex then Some(serialIndex[t]) else None
      ensures forall k :: KeyIndices(live, k, MAX_INDEX) == if k in keyIndices then keyIndices[k] else []
    {
      serialIndex, keyIndices := map[], map[];
      for n := 0 to MAX_INDEX
        invariant TokensUpTo(live, n, serialIndex) && KeysUpTo(live, n, keyIndices)
      {
        var index := n + 1;
        var serial := Observed(live, index);
        OneMoreObserved(live, n, serialIndex, keyIndices);
        if serial.Some? {
          serialIndex := serialIndex[Token(serial.value, index) := index];
          var key := StableKey(serial.value, index);
          keyIndices := keyIndices[key := (if key in keyIndices then keyIndices[key] else []) + [index]];
        }
      }
    }

    method DisableAll(indices: seq<nat>)
      modifies this
      ensures overrides == old(overrides) + Blanked(set i | i in indices)
    {
      assert Blanked(set i | i in indices[..0]) == map[];
      for j := 0 to |indices|
        invariant overrides == old(overrides) + Blanked(set i | i in indices[..j])
      {
        SetOverride(indices[j], None);
        assert indices[..j + 1] == indices[..j] + [indices[j]];
      }
      assert indices[..|indices|] == indices;
    }

    /** `_disable_ambiguous_battery_pack_overrides` */
    method DisableAmbiguous(live: Live, keyIndices: map<string, seq<nat>>) returns (ambiguous: set<string>)
      requires forall k :: KeyIndices(live, k, MAX_INDEX) == if k in keyIndices then keyIndices[k] else []
      modifies this
      ensures forall k :: k in ambiguous <==> Ambiguous(live, k)
      ensures overrides == old(overrides) + Disabled(live)
    {
      ambiguous := set k | k in keyIndices && |keyIndices[k]| > 1;
      var todo := ambiguous;
      ghost var done: set<string> := {};
      assert Blanked(IndicesOf(live, done)) == map[];
      while todo != {}
        invariant done + todo == ambiguous
        invariant overrides == old(overrides) + Blanked(IndicesOf(live, done))
      {
        var key :| key in todo;
        assert keyIndices[key] == KeyIndices(live, key, MAX_INDEX);
        DisableAll(keyIndices[key]);
        OneMoreKey(live, done, key);
        BlankedInTwoParts(IndicesOf(live, done), set i | i in keyIndices[key], old(overrides));
        done := done + {key};
        todo := todo - {key};
      }
      assert done == ambiguous;
      AmbiguousIndices(live, ambiguous);
    }

    method SeedStored(p: Parent, records: seq<Record>, serialIndex: map<string, nat>, ambiguous: set<string>)
      returns (matched: set<string>, blocked: set<string>, occupied: set<nat>)
      requires IndexesSerials(p.live, serialIndex) && forall k :: k in ambiguous <==> Ambiguous(p.live, k)
      modifies this
      ensures var first := FirstPass(p, records);
        && matched == KeysOf(first.given) && occupied == Taken(first.given) && blocked == first.blocked + ambiguous
        && overrides == Placed(first.given, old(overrides))
    {
      matched, blocked, occupied := {}, ambiguous, {};
      var stored := Stored(p.records);
      for n := 0 to |records|
        invariant matched == KeysOf(FirstPass(p, records[..n]).given)
        invariant occupied == Taken(FirstPass(p, records[..n]).given)
        invariant blocked == FirstPass(p, records[..n]).blocked + ambiguous
        invariant overrides == Placed(FirstPass(p, records[..n]).given, old(overrides))
      {
        assert records[..n + 1][..n] == records[..n];
        var r := records[n];
        var token := Token(r.serial, IndexOrOne(r));
        var live := if token in serialIndex then Some(serialIndex[token]) else None;
        assert live == LiveFor(p.live, r);
        ghost var first, next := FirstPass(p, records[..n]), FirstPass(p, records[..n + 1]);
        assert next == FirstStep(p, first, r);
        var index := if r.index.Some? then r.index else live;
        if index.Some? && !(live.None? && p.complete) {
          var key := StableKey(r.serial, index.value);
          if key in ambiguous || index.value in p.protected || index.value in occupied
             || (r.index.None? && index.value in stored) {
            blocked := blocked + {key};
          } else {
            SetOverride(index.value, Some(r.serial));
            occupied := occupied + {index.value};
            matched := matched + {key};
            Extended(first.given, Assignment(index.value, r.serial), old(overrides));
          }
        }
      }
      assert records[..|records|] == records;
    }

    method SeedLive(p: Parent, records: seq<Record>, serialIndex: map<string, nat>, matched: set<string>,
        blocked: set<string>, used: set<nat>, ghost first: Seats)
      requires IndexesSerials(p.live, serialIndex) && forall r :: r in records ==> r in p.records
      requires matched == KeysOf(first.given) && used == Used(p, first)
      requires forall k :: k in blocked <==> k in first.blocked || Ambiguous(p.live, k)
      modifies this
      ensures overrides == Placed(SecondPass(p, first, records), old(overrides))
    {
      var free := FreeFrom(used, 1);
      assert used + Taken([]) == used;
      for n := 0 to |records|
        invariant free == FreeFrom(used + Taken(SecondPass(p, first, records[..n])), 1)
        invariant overrides == Placed(SecondPass(p, first, records[..n]), old(overrides))
      {
        assert records[..n + 1][..n] == records[..n];
        var r := records[n];
        var token := Token(r.serial, IndexOrOne(r));
        ghost var extra := SecondPass(p, first, records[..n]);
        assert SecondPass(p, first, records[..n + 1]) == SecondStep(p, first, extra, r);
        StoredIsUsed(p, first, extra, r);
        if token in serialIndex {
          var key := StableKey(r.serial, serialIndex[token]);
          if key !in matched && key !in blocked {
            if r.index.Some? && r.index.value in free {
              assert false; // A stored index is never free.
            } else if free != [] {
              var index := free[0];
              FreeFromRest(used + Taken(extra), 1);
              free := free[1..];
              SetOverride(index, Some(r.serial));
              Extended(extra, Assignment(index, r.serial), old(overrides));
              assert used + Taken(extra + [Assignment(index, r.serial)]) == used + Taken(extra) + {index};
            }
          }
        }
      }
      assert records[..|records|] == records;
    }

    /** One parent's turn in `_seed_battery_pack_registry_identities`. */
    method Seed(p: Parent)
      modifies this
      ensures overrides == SeededOverrides(p, old(overrides))
    {
      if !DistinctKeys(p.records) {
        return;
      }
      var serialIndex, keyIndices := ObserveLive(p.live);
      var ambiguous := DisableAmbiguous(p.live, keyIndices);
      ghost var start := overrides;
      var records := Sorted(p.records);
      var matched, blocked, occupied := SeedStored(p, records, serialIndex, ambiguous);
      ghost var first := FirstPass(p, records);
      var used := p.protected + Stored(p.records) + occupied + Seen(p.live);
      forall r | r in records ensures r in p.records {
        SortedSorts(p.records);
        assert r in multiset(records);
      }
      SeedLive(p, records, serialIndex, matched, blocked, used, first);
      PlacedInTwoParts(first.given, SecondPass(p, first, records), start);
    }
  }

  ghost predicate TokensUpTo(live: Live, n: nat, serialIndex: map<string, nat>) {
    forall t :: LiveIndex(live, t, n) == if t in serialIndex then Some(serialIndex[t]) else None
  }

  ghost predicate KeysUpTo(live: Live, n: nat, keyIndices: map<string, seq<nat>>) {
    forall k :: KeyIndices(live, k, n) == if k in keyIndices then keyIndices[k] else []
  }

  /** One more position of the live payload, with or without a serial. */
  lemma OneMoreObserved(live: Live, n: nat, serialIndex: map<string, nat>, keyIndices: map<string, seq<nat>>)
    requires TokensUpTo(live, n, serialIndex) && KeysUpTo(live, n, keyIndices)
    ensures var i, serial := n + 1, Observed(live, n + 1);
      if serial.None? then TokensUpTo(live, i, serialIndex) && KeysUpTo(live, i, keyIndices)
      else
        var key := StableKey(serial.value, i);
        && TokensUpTo(live, i, serialIndex[Token(serial.value, i) := i])
        && KeysUpTo(live, i, keyIndices[key := (if key in keyIndices then keyIndices[key] else []) + [i]])
  {
    var i, serial := n + 1, Observed(live, n + 1);
    if serial.Some? {
      var token, key := Token(serial.value, i), StableKey(serial.value, i);
      forall t ensures LiveIndex(live, t, i) == if t == token then Some(i) else LiveIndex(live, t, n) {}
      forall k ensures KeyIndices(live, k, i) == KeyIndices(live, k, n) + if k == key then [i] else [] {}
    }
  }

  ghost predicate IndexesSerials(live: Live, serialIndex: map<string, nat>) {
    forall t :: LiveIndex(live, t, MAX_INDEX) == if t in serialIndex then Some(serialIndex[t]) else None
  }

  ghost function IndicesOf(live: Live, keys: set<string>): set<nat> {
    set i | 1 <= i <= MAX_INDEX && Observed(live, i).Some? && StableKey(Observed(live, i).value, i) in keys
  }

  lemma OneMoreKey(live: Live, keys: set<string>, key: string)
    ensures IndicesOf(live, keys + {key}) == IndicesOf(live, keys) + set i | i in KeyIndices(live, key, MAX_INDEX)
  {
    forall i: nat ensures i in IndicesOf(live, keys + {key}) <==>
      i in IndicesOf(live, keys) || i in KeyIndices(live, key, MAX_INDEX) {
      KeyIndicesMember(live, key, MAX_INDEX, i);
    }
  }

  lemma BlankedInTwoParts(a: set<nat>, b: set<nat>, m: Overrides)
    ensures m + Blanked(a) + Blanked(b) == m + Blanked(a + b)
  {}

  lemma AmbiguousIndices(live: Live, keys: set<string>)
    requires forall k :: k in keys <==> Ambiguous(live, k)
    ensures Blanked(IndicesOf(live, keys)) == Disabled(live)
  {
    assert forall i :: i in IndicesOf(live, keys) <==> Repeated(live, i);
  }

  lemma StoredIsUsed(p: Parent, first: Seats, extra: seq<Assignment>, r: Record)
    requires r in p.records
    ensures r.index.Some? ==> r.index.value !in FreeFrom(Used(p, first) + Taken(extra), 1)
  {
    if r.index.Some? {
      FreeFromMember(Used(p, first) + Taken(extra), 1, r.index.value);
    }
  }

  lemma Extended(given: seq<Assignment>, a: Assignment, m: Overrides)
    ensures var more := given + [a];
      && Taken(more) == Taken(given) + {a.index}
      && KeysOf(more) == KeysOf(given) + {StableKey(a.serial, a.index)}
      && Placed(more, m) == Placed(given, m)[a.index := Some(a.serial)]
  {
    assert (given + [a])[..|given|] == given;
  }

  lemma {:induction false} PlacedInTwoParts(given: seq<Assignment>, extra: seq<Assignment>, m: Overrides)
    ensures Placed(given + extra, m) == Placed(extra, Placed(given, m))
  {
    if extra == [] {
      assert given + extra == given;
    } else {
      var n := |extra| - 1;
      assert given + extra == (given + extra[..n]) + [extra[n]];
      Extended(given + extra[..n], extra[n], m);
      PlacedInTwoParts(given, extra[..n], m);
    }
  }
}
