/**
 Migrating the battery-pack devices of an entry from index identifiers to serial
 identifiers.  Several devices may claim the same serial target.
 */
module PackMigration {
  import opened Wrappers
  import opened SerialKeys
  import opened EntityRegistry
  import PackOrder

  /** A device that is still registered under its index, and the serial it is to get. */
  datatype Candidate = Candidate(device: DeviceId, parent: string, oldId: string, index: nat, serial: string)

  function Key(c: Candidate): string {
    StableKey(c.serial, c.index)
  }

  function Target(c: Candidate): string {
    c.parent + "_" + Key(c)
  }

  /** The devices registered under each identifier; one identifier belongs to one device. */
  type Devices = map<string, DeviceId>

  type Owners = map<string, set<DeviceId>>

  /** Another candidate for the same pack has a lower index. */
  predicate Outranked(c: Candidate, candidates: seq<Candidate>) {
    exists d :: d in candidates && d.parent == c.parent && Key(d) == Key(c) && d.index < c.index
  }

  /** `_battery_pack_target_can_migrate` */
  predicate CanMigrate(c: Candidate, candidates: seq<Candidate>, owners: Owners, devices: Devices) {
    var target := Target(c);
    var claims := if target in owners then owners[target] else {};
    if target !in devices then
      if |claims| > 1 then !Outranked(c, candidates) else |claims| == 1
    else devices[target] == c.device
  }

  /**
   The candidates, the claims on each target, and the initial identifiers, as the survey of the
   registry finds them.
   */
  ghost predicate Surveyed(candidates: seq<Candidate>, owners: Owners, devices: Devices) {
    && (forall i, j :: 0 <= i < j < |candidates| ==> candidates[i].device != candidates[j].device)
    && (forall c :: c in candidates ==> c.oldId in devices && devices[c.oldId] == c.device)
    && (forall c :: c in candidates ==> Target(c) in owners && c.device in owners[Target(c)])
  }

  datatype State = State(devices: Devices, migrated: seq<Candidate>)

  /** One turn of the migration loop; `clean` tells whether the entities could be renamed. */
  function Turn(s: State, c: Candidate, clean: bool, candidates: seq<Candidate>, owners: Owners): State {
    if CanMigrate(c, candidates, owners, s.devices) && clean then
      State((s.devices - {c.oldId})[Target(c) := c.device], s.migrated + [c])
    else s
  }

  datatype Visit = Visit(candidate: Candidate, clean: bool)

  function Process(s: State, visits: seq<Visit>, candidates: seq<Candidate>, owners: Owners): State {
    if visits == [] then s
    else
      var n := |visits| - 1;
      Turn(Process(s, visits[..n], candidates, owners), visits[n].candidate, visits[n].clean, candidates, owners)
  }

  /** Some order of the candidates, each at most once. */
  ghost predicate Order(visits: seq<Visit>, candidates: seq<Candidate>) {
    && (forall v :: v in visits ==> v.candidate in candidates)
    && forall i, j :: 0 <= i < j < |visits| ==> visits[i].candidate != visits[j].candidate
  }

  /** What holds after the candidates of `visits`, in this order. */
  ghost predicate Consistent(s: State, start: Devices, visits: seq<Visit>, candidates: seq<Candidate>) {
    && (forall m :: m in s.migrated ==> (m in candidates && Target(m) in s.devices && s.devices[Target(m)] == m.device
         && exists v :: v in visits && v.candidate == m))
    && (forall c :: c in candidates && (forall v :: v in visits ==> v.candidate != c) ==>
         c.oldId in s.devices && s.devices[c.oldId] == c.device)
    && (forall i, j :: 0 <= i < j < |s.migrated| ==> Target(s.migrated[i]) != Target(s.migrated[j]))
    && (forall t :: t in s.devices ==>
          ((t in start && s.devices[t] == start[t]) || exists m :: m in s.migrated && Target(m) == t))
  }

  lemma OneDeviceEach(candidates: seq<Candidate>, owners: Owners, devices: Devices, c: Candidate, d: Candidate)
    requires Surveyed(candidates, owners, devices) && c in candidates && d in candidates && c.device == d.device
    ensures c == d
  {}

  lemma TurnKeepsConsistent(s: State, start: Devices, visits: seq<Visit>, v: Visit, candidates: seq<Candidate>,
      owners: Owners)
    requires Surveyed(candidates, owners, start) && Consistent(s, start, visits, candidates)
    requires v.candidate in candidates && forall u :: u in visits ==> u.candidate != v.candidate
    ensures Consistent(Turn(s, v.candidate, v.clean, candidates, owners), start, visits + [v], candidates)
  {
    var c := v.candidate;
    var t := Turn(s, c, v.clean, candidates, owners);
    assert v in visits + [v] && forall u :: u in visits ==> u in visits + [v];
    if t != s {
      forall m | m in s.migrated
        ensures Target(m) != Target(c) && Target(m) != c.oldId && Target(m) in t.devices
          && t.devices[Target(m)] == m.device
      {
        if m.device == c.device {
          OneDeviceEach(candidates, owners, start, m, c);
        }
      }
      forall d | d in candidates && forall u :: u in visits + [v] ==> u.candidate != d
        ensures d.oldId in t.devices && t.devices[d.oldId] == d.device
      {
        if d.device == c.device {
          OneDeviceEach(candidates, owners, start, d, c);
        }
        assert d.oldId in s.devices && s.devices[d.oldId] == d.device;
        assert d.oldId != c.oldId;
      }
      assert t.migrated[|s.migrated|] == c;
      assert c in t.migrated && forall m :: m in s.migrated ==> m in t.migrated;
    }
  }

  lemma {:induction false} ProcessIsConsistent(start: Devices, visits: seq<Visit>, candidates: seq<Candidate>,
      owners: Owners)
    requires Surveyed(candidates, owners, start) && Order(visits, candidates)
    ensures Consistent(Process(State(start, []), visits, candidates, owners), start, visits, candidates)
  {
    if visits != [] {
      var n := |visits| - 1;
      assert visits == visits[..n] + [visits[n]];
      assert visits[n] in visits;
      ProcessIsConsistent(start, visits[..n], candidates, owners);
      TurnKeepsConsistent(Process(State(start, []), visits[..n], candidates, owners), start, visits[..n], visits[n],
        candidates, owners);
    }
  }

  /** Whatever the order and whichever renamings fail, no target gets two devices. */
  lemma OneDevicePerTarget(start: Devices, visits: seq<Visit>, candidates: seq<Candidate>, owners: Owners)
    requires Surveyed(candidates, owners, start) && Order(visits, candidates)
    ensures var s := Process(State(start, []), visits, candidates, owners);
      forall i, j :: 0 <= i < j < |s.migrated| ==> Target(s.migrated[i]) != Target(s.migrated[j])
  {
    ProcessIsConsistent(start, visits, candidates, owners);
  }

  lemma TwoClaims(s: set<DeviceId>, a: DeviceId, b: DeviceId)
    requires a in s && b in s && a != b
    ensures |s| > 1
  {
    assert |s - {a}| > 0;
  }

  lemma HasClaim(s: set<DeviceId>, a: DeviceId)
    requires a in s
    ensures |s| >= 1
  {}

  /**
   Whatever the order and whichever renamings fail: a candidate migrates although another one
   for the same serial has a lower index only if it owned the target all along.
   */
  lemma {:induction false} OutrankedOwnsTarget(start: Devices, visits: seq<Visit>, candidates: seq<Candidate>,
      owners: Owners, c: Candidate)
    requires Surveyed(candidates, owners, start) && Order(visits, candidates)
    requires c in Process(State(start, []), visits, candidates, owners).migrated && Outranked(c, candidates)
    ensures Target(c) in start && start[Target(c)] == c.device
  {
    var n := |visits| - 1;
    var v := visits[n];
    var s := Process(State(start, []), visits[..n], candidates, owners);
    assert visits == visits[..n] + [v] && v in visits;
    if c in s.migrated {
      OutrankedOwnsTarget(start, visits[..n], candidates, owners, c);
    } else {
      ProcessIsConsistent(start, visits[..n], candidates, owners);
      OutrankedNeedsOwnTarget(s, c, candidates, owners, start);
      if m :| m in s.migrated && Target(m) == Target(c) {
        OneDeviceEach(candidates, owners, start, m, c);
      }
    }
  }

  lemma OutrankedNeedsOwnTarget(s: State, c: Candidate, candidates: seq<Candidate>, owners: Owners, start: Devices)
    requires Surveyed(candidates, owners, start) && c in candidates && Outranked(c, candidates)
    requires CanMigrate(c, candidates, owners, s.devices)
    ensures Target(c) in s.devices && s.devices[Target(c)] == c.device
  {
    var d :| d in candidates && d.parent == c.parent && Key(d) == Key(c) && d.index < c.index;
    assert Target(d) == Target(c) && d.device != c.device;
    TwoClaims(owners[Target(c)], c.device, d.device);
  }

  /** A candidate does not touch a target that is neither its own identifier nor its device's. */
  lemma OthersKeepTarget(s: State, c: Candidate, clean: bool, candidates: seq<Candidate>, owners: Owners,
      target: string)
    requires target in s.devices && s.devices[target] != c.device && c.oldId != target
    ensures var t := Turn(s, c, clean, candidates, owners);
      target in t.devices && t.devices[target] == s.devices[target]
  {}

  /** A target that a device owns beforehand stays with it until its own turn, and is not given away. */
  lemma {:induction false} OwnTargetStays(start: Devices, visits: seq<Visit>, candidates: seq<Candidate>,
      owners: Owners, c: Candidate)
    requires Surveyed(candidates, owners, start) && Order(visits, candidates) && c in candidates
    requires Target(c) in start && start[Target(c)] == c.device
    ensures var s := Process(State(start, []), visits, candidates, owners);
      Target(c) in s.devices && s.devices[Target(c)] == c.device
  {
    if visits != [] {
      var n := |visits| - 1;
      assert visits == visits[..n] + [visits[n]] && visits[n] in visits;
      OwnTargetStays(start, visits[..n], candidates, owners, c);
      var d := visits[n].candidate;
      var s := Process(State(start, []), visits[..n], candidates, owners);
      if d.device == c.device {
        OneDeviceEach(candidates, owners, start, d, c);
      } else {
        OthersKeepTarget(s, d, visits[n].clean, candidates, owners, Target(c));
      }
    }
  }

  /**
   Conversely, a candidate that owns its target beforehand migrates in every order, if its entities
   can be renamed.
   */
  lemma {:induction false} TargetOwnerMigrates(start: Devices, visits: seq<Visit>, candidates: seq<Candidate>,
      owners: Owners, k: nat)
    requires Surveyed(candidates, owners, start) && Order(visits, candidates) && k < |visits|
    requires var c := visits[k].candidate; Target(c) in start && start[Target(c)] == c.device
    ensures visits[k].candidate in Process(State(start, []), visits, candidates, owners).migrated <==> visits[k].clean
  {
    var n := |visits| - 1;
    var c := visits[k].candidate;
    assert visits == visits[..n] + [visits[n]] && visits[k] in visits;
    if k < n {
      TargetOwnerMigrates(start, visits[..n], candidates, owners, k);
      assert visits[n].candidate != c;
    } else {
      OwnTargetStays(start, visits[..n], candidates, owners, c);
      NotYetMigrated(start, visits[..n], candidates, owners, c);
    }
  }

  lemma NotYetMigrated(start: Devices, visits: seq<Visit>, candidates: seq<Candidate>, owners: Owners, c: Candidate)
    requires Surveyed(candidates, owners, start) && Order(visits, candidates)
    requires forall v :: v in visits ==> v.candidate != c
    ensures c !in Process(State(start, []), visits, candidates, owners).migrated
  {
    ProcessIsConsistent(start, visits, candidates, owners);
  }

  /** A target that belongs to a device outside the candidates is never taken over. */
  lemma ForeignTargetIsKept(start: Devices, visits: seq<Visit>, candidates: seq<Candidate>, owners: Owners,
      c: Candidate)
    requires Surveyed(candidates, owners, start) && Order(visits, candidates) && c in candidates
    requires Target(c) in start && forall d :: d in candidates ==> d.device != start[Target(c)]
    ensures var s := Process(State(start, []), visits, candidates, owners);
      c !in s.migrated && Target(c) in s.devices && s.devices[Target(c)] == start[Target(c)]
  {
    ForeignTargetStays(start, visits, candidates, owners, Target(c));
    ProcessIsConsistent(start, visits, candidates, owners);
  }

  lemma {:induction false} ForeignTargetStays(start: Devices, visits: seq<Visit>, candidates: seq<Candidate>,
      owners: Owners, target: string)
    requires Surveyed(candidates, owners, start) && Order(visits, candidates)
    requires target in start && forall d :: d in candidates ==> d.device != start[target]
    ensures var s := Process(State(start, []), visits, candidates, owners);
      target in s.devices && s.devices[target] == start[target]
  {
    if visits != [] {
      var n := |visits| - 1;
      assert visits == visits[..n] + [visits[n]] && visits[n] in visits;
      ForeignTargetStays(start, visits[..n], candidates, owners, target);
      var s := Process(State(start, []), visits[..n], candidates, owners);
      OthersKeepTarget(s, visits[n].candidate, visits[n].clean, candidates, owners, target);
    }
  }

  /** Two live batteries with the serial 2 at indices 1 and 2, registered by index only. */
  function Twins(serial: string): seq<Candidate> {
    [Candidate(1, "P", "P_" + PREFIX + "2", 2, serial), Candidate(2, "P", "P_" + PREFIX + "1", 1, serial)]
  }

  /** Of the twins the one with the higher index migrates, in both orders: its identifier is the target. */
  lemma HigherTwinMigrates(serial: string, first: bool)
    requires Normalized(serial) == "2"
    ensures var twins := Twins(serial);
      var start: Devices := map[twins[0].oldId := 1, twins[1].oldId := 2];
      var owners: Owners := map[twins[0].oldId := {1, 2}];
      var visits := if first then [Visit(twins[0], true), Visit(twins[1], true)]
        else [Visit(twins[1], true), Visit(twins[0], true)];
      && Surveyed(twins, owners, start) && Order(visits, twins) && Outranked(twins[0], twins)
      && twins[0] in Process(State(start, []), visits, twins, owners).migrated
  {
    var twins := Twins(serial);
    var start: Devices := map[twins[0].oldId := 1, twins[1].oldId := 2];
    var owners: Owners := map[twins[0].oldId := {1, 2}];
    var visits := if first then [Visit(twins[0], true), Visit(twins[1], true)]
      else [Visit(twins[1], true), Visit(twins[0], true)];
    TwinsAreSurveyed(serial);
    assert visits[if first then 0 else 1] == Visit(twins[0], true);
    TargetOwnerMigrates(start, visits, twins, owners, if first then 0 else 1);
  }

  lemma TwinsAreSurveyed(serial: string)
    requires Normalized(serial) == "2"
    ensures var twins := Twins(serial);
      && Target(twins[0]) == Target(twins[1]) == twins[0].oldId != twins[1].oldId && Outranked(twins[0], twins)
      && Surveyed(twins, map[twins[0].oldId := {1, 2}], map[twins[0].oldId := 1, twins[1].oldId := 2])
  {
    var twins := Twins(serial);
    assert "P" + "_" + (PREFIX + "2") == "P_" + PREFIX + "2";
    assert twins[0].oldId[|PREFIX| + 2] == '2' && twins[1].oldId[|PREFIX| + 2] == '1';
    assert twins[1] in twins && twins[1].index < twins[0].index;
  }

  /** No candidate stands in the way of `c`: all others for its target have a higher index. */
  ghost predicate Leads(c: Candidate, candidates: seq<Candidate>) {
    forall d :: d in candidates && d != c && Target(d) == Target(c) ==> d.parent == c.parent && d.index > c.index
  }

  lemma LeaderOutranksOthers(c: Candidate, candidates: seq<Candidate>, d: Candidate)
    requires Leads(c, candidates) && c in candidates && d in candidates && Target(d) == Target(c)
    ensures d != c <==> Outranked(d, candidates)
  {
    assert forall e :: e in candidates && e.parent == c.parent && Key(e) == Key(c) ==> Target(e) == Target(c);
    if d != c {
      SameKey(c, d);
    }
  }

  lemma TargetStaysFree(start: Devices, visits: seq<Visit>, candidates: seq<Candidate>, owners: Owners, c: Candidate)
    requires Surveyed(candidates, owners, start) && Order(visits, candidates) && c in candidates
    requires Target(c) !in start && Leads(c, candidates) && forall v :: v in visits ==> v.candidate != c
    ensures Target(c) !in Process(State(start, []), visits, candidates, owners).devices
  {
    ProcessIsConsistent(start, visits, candidates, owners);
    var s := Process(State(start, []), visits, candidates, owners);
    if Target(c) in s.devices {
      var m :| m in s.migrated && Target(m) == Target(c);
      LeaderOutranksOthers(c, candidates, m);
      OutrankedOwnsTarget(start, visits, candidates, owners, m);
    }
  }

  lemma SameKey(c: Candidate, d: Candidate)
    requires Target(c) == Target(d) && c.parent == d.parent
    ensures Key(c) == Key(d)
  {
    assert Target(c)[|c.parent| + 1..] == Key(c) && Target(d)[|d.parent| + 1..] == Key(d);
  }

  lemma LeaderCanMigrate(c: Candidate, candidates: seq<Candidate>, owners: Owners, start: Devices, devices: Devices)
    requires Surveyed(candidates, owners, start) && c in candidates && Leads(c, candidates) && Target(c) !in devices
    ensures CanMigrate(c, candidates, owners, devices)
  {
    LeaderOutranksOthers(c, candidates, c);
    HasClaim(owners[Target(c)], c.device);
  }

  /**
   The candidate with the lowest index does migrate, in every processing order, exactly if
   its entities can be renamed.
   */
  lemma {:induction false} LowestMigrates(start: Devices, visits: seq<Visit>, candidates: seq<Candidate>,
      owners: Owners, k: nat)
    requires Surveyed(candidates, owners, start) && Order(visits, candidates) && k < |visits|
    requires var c := visits[k].candidate; Target(c) !in start && Leads(c, candidates)
    ensures visits[k].candidate in Process(State(start, []), visits, candidates, owners).migrated <==> visits[k].clean
  {
    var n := |visits| - 1;
    var c := visits[k].candidate;
    assert visits == visits[..n] + [visits[n]];
    assert visits[k] in visits;
    var s := Process(State(start, []), visits[..n], candidates, owners);
    if k < n {
      LowestMigrates(start, visits[..n], candidates, owners, k);
      assert visits[n].candidate != c;
    } else {
      TargetStaysFree(start, visits[..n], candidates, owners, c);
      NotYetMigrated(start, visits[..n], candidates, owners, c);
      LeaderCanMigrate(c, candidates, owners, start, s.devices);
    }
  }

  function PrefixesFor(c: Candidate): Prefixes {
    Under(c.oldId, Target(c))
  }

  /** The identifier of the parent's battery with the serial. */
  function SerialIdentifier(parent: string, serial: string, index: nat): string {
    parent + "_" + StableKey(serial, index)
  }

  /** All entities of the candidate's device can be renamed. */
  ghost predicate Renamable(m: Entities, c: Candidate, entry: EntryId) {
    var ids, x := OwnedIds(m, c.device, entry), PrefixesFor(c);
    HavePrefix(m, ids, x) && TargetsFree(m, ids, x)
  }

  class Migration {
    const registry: Registry
    const entry: EntryId
    var devices: Devices
    var remaining: map<string, set<nat>>
    var overrides: map<(string, nat), Option<string>>
    var records: map<string, seq<PackOrder.Record>>

    constructor (registry: Registry, entry: EntryId, devices: Devices, remaining: map<string, set<nat>>)
      ensures this.registry == registry && this.entry == entry && this.devices == devices && this.remaining == remaining
      ensures overrides == map[] && records == map[]
    {
      this.registry, this.entry, this.devices, this.remaining := registry, entry, devices, remaining;
      overrides, records := map[], map[];
    }

    /**
     `_migrate_battery_pack_registry_candidate`: either everything of the device migrates, so that its
     entities and itself are named after the serial, or nothing changes; the latter, if the candidate
     may migrate, exactly because an entity has another name or a new name is taken.
     */
    method Migrate(c: Candidate, candidates: seq<Candidate>, owners: Owners) returns (done: bool)
      requires registry.Valid() && c.parent in remaining
      modifies this, registry
      ensures registry.Valid()
      ensures var target := SerialIdentifier(c.parent, c.serial, c.index);
        && (done <==> CanMigrate(c, candidates, owners, old(devices))
                      && CanBeNamed(old(registry.entities), c.device, entry, c.oldId, target))
        && (done ==>
              && devices == (old(devices) - {c.oldId})[target := c.device]
              && registry.entities.Keys == old(registry.entities).Keys
              && forall id :: id in old(registry.entities) ==>
                   if BelongsTo(old(registry.entities)[id], c.device, entry)
                   then GotName(old(registry.entities)[id], registry.entities[id], c.oldId, target)
                   else registry.entities[id] == old(registry.entities)[id])
      ensures var clean := Renamable(old(registry.entities), c, entry);
        devices == Turn(State(old(devices), []), c, clean, candidates, owners).devices
      ensures done ==>
        && remaining == old(remaining)[c.parent := old(remaining)[c.parent] - {c.index}]
        && overrides == old(overrides)[(c.parent, c.index) := Some(c.serial)]
        && records == old(records)[c.parent :=
             (if c.parent in old(records) then old(records)[c.parent] else [])
               + [PackOrder.Record(c.serial, Some(c.index))]]
      ensures !done ==>
        && registry.entities == old(registry.entities) && devices == old(devices)
        && remaining == old(remaining) && overrides == old(overrides) && records == old(records)
    {
      RenamableByName(registry.entities, c.device, entry, c.oldId, Target(c));
      if !CanMigrate(c, candidates, owners, devices) {
        return false;
      }
      var x := PrefixesFor(c);
      var listing := registry.EntitiesOf(c.device);
      var updates := registry.EntityUpdates(listing, c.device, entry, x);
      if updates.None? {
        return false;
      }
      RenamedByName(registry.entities, c.device, entry, c.oldId, Target(c));
      registry.ApplyUpdates(updates.value, OwnedIds(registry.entities, c.device, entry), x);
      devices := (devices - {c.oldId})[Target(c) := c.device];
      remaining := remaining[c.parent := remaining[c.parent] - {c.index}];
      overrides := overrides[(c.parent, c.index) := Some(c.serial)];
      var earlier := if c.parent in records then records[c.parent] else [];
      records := records[c.parent := earlier + [PackOrder.Record(c.serial, Some(c.index))]];
      done := true;
    }

    /**
     The migration loop of `_async_migrate_battery_pack_identities`: one turn for each candidate in
     this order, each as far as its entities can be named at that moment.  `history` is the registry
     before each turn and at the end.
     */
    method MigrateAll(candidates: seq<Candidate>, owners: Owners)
        returns (ghost visits: seq<Visit>, ghost history: seq<Entities>)
      requires registry.Valid() && forall c :: c in candidates ==> c.parent in remaining
      modifies this, registry
      ensures registry.Valid()
      ensures |visits| == |candidates| && forall k :: 0 <= k < |visits| ==> visits[k].candidate == candidates[k]
      ensures devices == Process(State(old(devices), []), visits, candidates, owners).devices
      ensures HistoryOf(old(devices), visits, history, candidates, owners, entry)
      ensures history[0] == old(registry.entities) && history[|visits|] == registry.entities
    {
      visits, history := [], [registry.entities];
      for i := 0 to |candidates|
        invariant registry.Valid() && forall c :: c in candidates ==> c.parent in remaining
        invariant |visits| == i && forall k :: 0 <= k < i ==> visits[k].candidate == candidates[k]
        invariant devices == Process(State(old(devices), []), visits, candidates, owners).devices
        invariant HistoryOf(old(devices), visits, history, candidates, owners, entry)
        invariant history[0] == old(registry.entities) && history[i] == registry.entities
      {
        var c := candidates[i];
        ghost var visit := Visit(c, Renamable(registry.entities, c, entry));
        var done := MigrateNext(c, candidates, owners, old(devices), visits);
        OneMoreTurn(old(devices), visits, history, visit, registry.entities, candidates, owners, entry);
        visits, history := visits + [visit], history + [registry.entities];
      }
    }

    /** `Migrate` as the turn after `visits`. */
    method MigrateNext(c: Candidate, candidates: seq<Candidate>, owners: Owners, ghost start: Devices,
        ghost visits: seq<Visit>) returns (done: bool)
      requires registry.Valid() && c.parent in remaining
      requires devices == Process(State(start, []), visits, candidates, owners).devices
      modifies this, registry
      ensures registry.Valid() && old(remaining).Keys == remaining.Keys
      ensures var visit := Visit(c, Renamable(old(registry.entities), c, entry));
        && devices == Process(State(start, []), visits + [visit], candidates, owners).devices
        && VisitDone(old(devices), old(registry.entities), registry.entities, visit, candidates, owners, entry)
    {
      ghost var visit := Visit(c, Renamable(registry.entities, c, entry));
      RenamableByName(registry.entities, c.device, entry, c.oldId, Target(c));
      done := Migrate(c, candidates, owners);
      assert (visits + [visit])[..|visits|] == visits;
    }
  }

  /** Turn by turn, what became of the entities. */
  ghost predicate HistoryOf(start: Devices, visits: seq<Visit>, history: seq<Entities>, candidates: seq<Candidate>,
      owners: Owners, entry: EntryId)
  {
    && |history| == |visits| + 1
    && forall k :: 0 <= k < |visits| ==>
         var devices := Process(State(start, []), visits[..k], candidates, owners).devices;
         VisitDone(devices, history[k], history[k + 1], visits[k], candidates, owners, entry)
  }

  lemma OneMoreTurn(start: Devices, visits: seq<Visit>, history: seq<Entities>, v: Visit, after: Entities,
      candidates: seq<Candidate>, owners: Owners, entry: EntryId)
    requires HistoryOf(start, visits, history, candidates, owners, entry)
    requires var devices := Process(State(start, []), visits, candidates, owners).devices;
      VisitDone(devices, history[|visits|], after, v, candidates, owners, entry)
    ensures HistoryOf(start, visits + [v], history + [after], candidates, owners, entry)
  {
    var more, longer := visits + [v], history + [after];
    forall k | 0 <= k < |more|
      ensures VisitDone(Process(State(start, []), more[..k], candidates, owners).devices, longer[k], longer[k + 1],
        more[k], candidates, owners, entry)
    {
      assert more[..k] == visits[..k];
      assert k == |visits| ==> visits[..k] == visits;
    }
  }

  /** One turn did what it could: it is clean exactly if the entities can be named, and then renames them. */
  ghost predicate VisitDone(devices: Devices, before: Entities, after: Entities, v: Visit, candidates: seq<Candidate>,
      owners: Owners, entry: EntryId)
  {
    var c := v.candidate;
    var target := SerialIdentifier(c.parent, c.serial, c.index);
    && (v.clean <==> CanBeNamed(before, c.device, entry, c.oldId, target))
    && if v.clean && CanMigrate(c, candidates, owners, devices) then
         && after.Keys == before.Keys
         && forall id :: id in before ==>
              if BelongsTo(before[id], c.device, entry) then GotName(before[id], after[id], c.oldId, target)
              else after[id] == before[id]
       else after == before
  }

  /** A target that no device is registered under and no candidate claims is unresolved, and refused. */
  lemma UnclaimedIsRefused(c: Candidate, candidates: seq<Candidate>, owners: Owners, devices: Devices)
    requires Target(c) !in devices && (Target(c) !in owners || owners[Target(c)] == {})
    ensures !CanMigrate(c, candidates, owners, devices)
  {}
}
