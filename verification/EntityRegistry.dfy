/**
 Rewriting battery-pack entities in the entity registry: giving all entities of a device a
 new unique-id prefix, and moving the entities of a numeric device to its serial device.
 */
module EntityRegistry {
  import opened Wrappers

  type EntityId = string
  type DeviceId = nat
  type EntryId = nat

  const DOMAIN := "jackery_solarvault"

  datatype Entity = Entity(domain: string, platform: string, uniqueId: string, device: Option<DeviceId>,
      entry: Option<EntryId>)

  /** What the registry requires to be unique. */
  datatype Slot = Slot(domain: string, platform: string, uniqueId: string)

  type Entities = map<EntityId, Entity>

  function SlotOf(e: Entity): Slot {
    Slot(e.domain, e.platform, e.uniqueId)
  }

  ghost predicate Unique(m: Entities) {
    forall a, b :: a in m && b in m && SlotOf(m[a]) == SlotOf(m[b]) ==> a == b
  }

  /** A rewrite of unique ids: `from` and `to` are prefixes. */
  datatype Prefixes = Prefixes(from: string, to: string)

  predicate Owned(e: Entity, device: DeviceId, entry: EntryId) {
    e.device == Some(device) && e.entry == Some(entry) && e.platform == DOMAIN
  }

  function OwnedIds(m: Entities, device: DeviceId, entry: EntryId): set<EntityId> {
    set id | id in m && Owned(m[id], device, entry)
  }

  function MoverIds(m: Entities, device: DeviceId, entry: EntryId, x: Prefixes): set<EntityId> {
    set id | id in m && Owned(m[id], device, entry) && x.from <= m[id].uniqueId
  }

  function Renamed(e: Entity, x: Prefixes): Entity
    requires x.from <= e.uniqueId
  {
    e.(uniqueId := x.to + e.uniqueId[|x.from|..])
  }

  /** Every entity of `ids` can be renamed. */
  ghost predicate HavePrefix(m: Entities, ids: set<EntityId>, x: Prefixes) {
    ids <= m.Keys && forall id :: id in ids ==> x.from <= m[id].uniqueId
  }

  /** The new unique ids are free, or already those of the entities themselves. */
  ghost predicate TargetsFree(m: Entities, ids: set<EntityId>, x: Prefixes)
    requires HavePrefix(m, ids, x)
  {
    forall id, other :: id in ids && other in m && SlotOf(m[other]) == SlotOf(Renamed(m[id], x)) ==> other == id
  }

  function RenamedIn(m: Entities, ids: set<EntityId>, x: Prefixes): Entities
    requires HavePrefix(m, ids, x)
  {
    map id | id in m :: if id in ids then Renamed(m[id], x) else m[id]
  }

  /** The registry after the entities `ids` moved to another device and `gone` were removed. */
  function MovedIn(m: Entities, ids: set<EntityId>, gone: set<EntityId>, device: DeviceId, x: Prefixes): Entities
    requires HavePrefix(m, ids, x)
  {
    map id | id in m && id !in gone :: if id in ids then Renamed(m[id], x).(device := Some(device)) else m[id]
  }

  /** The entities that already have a unique id that one of `ids` is to get. */
  function Duplicates(m: Entities, ids: set<EntityId>, x: Prefixes): set<EntityId>
    requires HavePrefix(m, ids, x)
  {
    set id, other | id in ids && other in m && SlotOf(m[other]) == SlotOf(Renamed(m[id], x)) :: other
  }

  /** The duplicates all belong to the entry and sit on the serial device. */
  ghost predicate DuplicatesOnTarget(m: Entities, ids: set<EntityId>, entry: EntryId, device: DeviceId, x: Prefixes)
    requires HavePrefix(m, ids, x)
  {
    forall other :: other in Duplicates(m, ids, x) ==> m[other].entry == Some(entry) && m[other].device == Some(device)
  }

  // ---- Uniqueness through every step ----

  /** Different entities get different unique ids: the prefix change is injective. */
  lemma RenamingIsInjective(m: Entities, ids: set<EntityId>, x: Prefixes, a: EntityId, b: EntityId)
    requires Unique(m) && HavePrefix(m, ids, x) && a in ids && b in ids
    requires SlotOf(Renamed(m[a], x)) == SlotOf(Renamed(m[b], x))
    ensures a == b
  {
    var s, t := m[a].uniqueId[|x.from|..], m[b].uniqueId[|x.from|..];
    assert (x.to + s)[|x.to|..] == s && (x.to + t)[|x.to|..] == t;
    assert m[a].uniqueId == x.from + s && m[b].uniqueId == x.from + t;
  }

  /** Whatever part of the entities has been renamed so far, the unique ids are unique. */
  lemma PartialRenamingIsUnique(m: Entities, ids: set<EntityId>, part: set<EntityId>, x: Prefixes)
    requires Unique(m) && HavePrefix(m, ids, x) && TargetsFree(m, ids, x) && part <= ids
    ensures Unique(RenamedIn(m, part, x))
  {
    var n := RenamedIn(m, part, x);
    forall a, b | a in n && b in n && SlotOf(n[a]) == SlotOf(n[b]) ensures a == b {
      if a in part && b in part {
        RenamingIsInjective(m, ids, x, a, b);
      }
    }
  }

  /**
   The collision check is exact: it passes if and only if the unique ids stay unique however
   far, and in whatever order, the renaming has got.
   */
  lemma CollisionCheckIsExact(m: Entities, ids: set<EntityId>, x: Prefixes)
    requires Unique(m) && HavePrefix(m, ids, x)
    ensures TargetsFree(m, ids, x) <==> forall part :: part <= ids ==> Unique(RenamedIn(m, part, x))
  {
    if TargetsFree(m, ids, x) {
      forall part | part <= ids ensures Unique(RenamedIn(m, part, x)) {
        PartialRenamingIsUnique(m, ids, part, x);
      }
    } else {
      var id, other :| id in ids && other in m && SlotOf(m[other]) == SlotOf(Renamed(m[id], x)) && other != id;
      var n := RenamedIn(m, {id}, x);
      assert id in n && other in n && SlotOf(n[other]) == SlotOf(n[id]);
      assert {id} <= ids && !Unique(n);
    }
  }

  lemma PartialMoveIsUnique(m: Entities, ids: set<EntityId>, part: set<EntityId>, device: DeviceId, x: Prefixes)
    requires Unique(m) && HavePrefix(m, ids, x) && part <= ids
    ensures Unique(MovedIn(m, part, Duplicates(m, part, x), device, x))
  {
    var n := MovedIn(m, part, Duplicates(m, part, x), device, x);
    assert forall id, other :: id in part && other in n && SlotOf(m[other]) == SlotOf(Renamed(m[id], x)) ==>
      other in part;
    forall a, b | a in n && b in n && SlotOf(n[a]) == SlotOf(n[b]) ensures a == b {
      if a in part && b in part {
        RenamingIsInjective(m, ids, x, a, b);
      }
    }
  }

  /** Renaming back restores the registry. */
  lemma RenamingIsReversible(m: Entities, ids: set<EntityId>, x: Prefixes)
    requires HavePrefix(m, ids, x)
    ensures var n := RenamedIn(m, ids, x);
      HavePrefix(n, ids, Prefixes(x.to, x.from)) && RenamedIn(n, ids, Prefixes(x.to, x.from)) == m
  {
    var n, back := RenamedIn(m, ids, x), Prefixes(x.to, x.from);
    forall id | id in ids ensures x.to <= n[id].uniqueId && Renamed(n[id], back) == m[id] {
      assert n[id].uniqueId[|x.to|..] == m[id].uniqueId[|x.from|..];
    }
  }

  /**
   Moving removes only duplicates, which sit on the serial device and whose unique id lives on
   in a moved entity; every moved entity keeps its entity id.
   */
  lemma MovingKeepsHistory(m: Entities, numeric: DeviceId, serial: DeviceId, entry: EntryId, x: Prefixes)
    requires Unique(m) && numeric != serial
    requires var ids := MoverIds(m, numeric, entry, x);
      HavePrefix(m, ids, x) && DuplicatesOnTarget(m, ids, entry, serial, x)
    ensures var ids := MoverIds(m, numeric, entry, x);
      var n := MovedIn(m, ids, Duplicates(m, ids, x), serial, x);
      && Unique(n) && MoverIds(n, numeric, entry, x) == {}
      && (forall id :: id in ids ==> id in n && n[id].device == Some(serial))
      && (forall id :: id in m && id !in n ==>
           m[id].device == Some(serial) && exists k :: k in ids && SlotOf(n[k]) == SlotOf(m[id]))
      && (forall id :: id in m && id in n && id !in ids ==> n[id] == m[id])
  {
    var ids := MoverIds(m, numeric, entry, x);
    var gone := Duplicates(m, ids, x);
    var n := MovedIn(m, ids, gone, serial, x);
    PartialMoveIsUnique(m, ids, ids, serial, x);
    forall id | id in m && id !in n ensures exists k :: k in ids && SlotOf(n[k]) == SlotOf(m[id]) {
      assert id in gone;
      var k :| k in ids && SlotOf(m[id]) == SlotOf(Renamed(m[k], x));
      assert k !in gone;
      assert SlotOf(n[k]) == SlotOf(m[id]);
    }
  }

  // ---- By name ----

  /** The unique id of an entity under an identifier. */
  predicate HasName(uniqueId: string, identifier: string, tail: string) {
    uniqueId == identifier + "_" + tail
  }

  ghost predicate IsUnder(uniqueId: string, identifier: string) {
    exists tail :: HasName(uniqueId, identifier, tail)
  }

  /** An entity of the integration and the entry on the device. */
  predicate BelongsTo(e: Entity, device: DeviceId, entry: EntryId) {
    e.platform == "jackery_solarvault" && e.entry == Some(entry) && e.device == Some(device)
  }

  /** The other entity has the unique id that the first is to get under the identifier `to`. */
  ghost predicate HoldsNewName(m: Entities, id: EntityId, other: EntityId, from: string, to: string)
    requires id in m && other in m
  {
    && m[other].domain == m[id].domain && m[other].platform == m[id].platform
    && exists tail :: HasName(m[id].uniqueId, from, tail) && HasName(m[other].uniqueId, to, tail)
  }

  function Under(from: string, to: string): Prefixes {
    Prefixes(from + "_", to + "_")
  }

  lemma TailOf(uniqueId: string, from: string)
    ensures IsUnder(uniqueId, from) <==> from + "_" <= uniqueId
    ensures from + "_" <= uniqueId ==> HasName(uniqueId, from, uniqueId[|from| + 1..])
    ensures forall tail :: HasName(uniqueId, from, tail) ==> from + "_" <= uniqueId && tail == uniqueId[|from| + 1..]
  {
    if from + "_" <= uniqueId {
      assert HasName(uniqueId, from, uniqueId[|from| + 1..]);
    }
    forall tail | HasName(uniqueId, from, tail) ensures from + "_" <= uniqueId && tail == uniqueId[|from| + 1..] {
      assert from + "_" + tail == (from + "_") + tail;
    }
  }

  lemma SlotIsNewName(m: Entities, id: EntityId, other: EntityId, from: string, to: string)
    requires id in m && other in m && from + "_" <= m[id].uniqueId
    ensures SlotOf(m[other]) == SlotOf(Renamed(m[id], Under(from, to))) <==> HoldsNewName(m, id, other, from, to)
  {
    TailOf(m[id].uniqueId, from);
    var tail := m[id].uniqueId[|from| + 1..];
    assert Renamed(m[id], Under(from, to)).uniqueId == to + "_" + tail;
    assert HasName(m[id].uniqueId, from, tail);
  }

  /** The entity's new unique id, and everything else, after a rename. */
  ghost predicate GotName(before: Entity, after: Entity, from: string, to: string) {
    && after == before.(uniqueId := after.uniqueId)
    && exists tail :: HasName(before.uniqueId, from, tail) && HasName(after.uniqueId, to, tail)
  }

  /** A rename of a device's entities replaces the identifier in their unique ids, and touches nothing else. */
  lemma RenamedByName(m: Entities, device: DeviceId, entry: EntryId, from: string, to: string)
    requires HavePrefix(m, OwnedIds(m, device, entry), Under(from, to))
    ensures var n := RenamedIn(m, OwnedIds(m, device, entry), Under(from, to));
      && n.Keys == m.Keys
      && forall id :: id in m ==>
           if BelongsTo(m[id], device, entry) then GotName(m[id], n[id], from, to) else n[id] == m[id]
  {
    var n := RenamedIn(m, OwnedIds(m, device, entry), Under(from, to));
    forall id | id in m && BelongsTo(m[id], device, entry) ensures GotName(m[id], n[id], from, to) {
      assert id in OwnedIds(m, device, entry);
      TailOf(m[id].uniqueId, from);
      var tail := m[id].uniqueId[|from| + 1..];
      assert HasName(n[id].uniqueId, to, tail);
    }
  }

  /** All entities of the device are named after the old identifier, and no other entity has a new name. */
  ghost predicate CanBeNamed(m: Entities, device: DeviceId, entry: EntryId, from: string, to: string) {
    forall id :: id in m && BelongsTo(m[id], device, entry) ==>
      && IsUnder(m[id].uniqueId, from)
      && forall other :: other in m && HoldsNewName(m, id, other, from, to) ==> other == id
  }

  lemma RenamableByName(m: Entities, device: DeviceId, entry: EntryId, from: string, to: string)
    ensures var ids, x := OwnedIds(m, device, entry), Under(from, to);
      (HavePrefix(m, ids, x) && TargetsFree(m, ids, x)) <==> CanBeNamed(m, device, entry, from, to)
  {
    var ids, x := OwnedIds(m, device, entry), Under(from, to);
    forall id | id in m ensures id in ids <==> BelongsTo(m[id], device, entry) {}
    forall id | id in ids ensures x.from <= m[id].uniqueId <==> IsUnder(m[id].uniqueId, from) {
      TailOf(m[id].uniqueId, from);
    }
    if HavePrefix(m, ids, x) {
      forall id, other | id in ids && other in m
        ensures SlotOf(m[other]) == SlotOf(Renamed(m[id], x)) <==> HoldsNewName(m, id, other, from, to)
      {
        SlotIsNewName(m, id, other, from, to);
      }
    }
  }

  // ---- Moving by name ----

  /** The entity is moved: it belongs to the numeric device and is named after it. */
  ghost predicate IsMoved(e: Entity, numeric: DeviceId, entry: EntryId, from: string) {
    BelongsTo(e, numeric, entry) && IsUnder(e.uniqueId, from)
  }

  /** The entity has the new name of a moved one. */
  ghost predicate IsDuplicate(m: Entities, other: EntityId, numeric: DeviceId, entry: EntryId, from: string, to: string)
    requires other in m
  {
    exists id :: id in m && IsMoved(m[id], numeric, entry, from) && HoldsNewName(m, id, other, from, to)
  }

  lemma MovedByName(m: Entities, numeric: DeviceId, entry: EntryId, from: string, to: string)
    ensures var ids, x := MoverIds(m, numeric, entry, Under(from, to)), Under(from, to);
      && (forall id :: id in ids <==> id in m && IsMoved(m[id], numeric, entry, from))
      && HavePrefix(m, ids, x)
      && (forall other :: other in Duplicates(m, ids, x) <==>
           other in m && IsDuplicate(m, other, numeric, entry, from, to))
  {
    var ids, x := MoverIds(m, numeric, entry, Under(from, to)), Under(from, to);
    forall id | id in m ensures id in ids <==> IsMoved(m[id], numeric, entry, from) {
      TailOf(m[id].uniqueId, from);
    }
    forall id, other | id in ids && other in m
      ensures SlotOf(m[other]) == SlotOf(Renamed(m[id], x)) <==> HoldsNewName(m, id, other, from, to)
    {
      SlotIsNewName(m, id, other, from, to);
    }
  }

  /**
   A move gives each moved entity its new name on the serial device, takes the duplicates of these
   names away, and touches nothing else.
   */
  ghost predicate Moved(m: Entities, n: Entities, numeric: DeviceId, serial: DeviceId, entry: EntryId, from: string,
      to: string) {
    && n.Keys <= m.Keys
    && forall id :: id in m ==>
         if IsMoved(m[id], numeric, entry, from) then
           id in n && GotName(m[id].(device := Some(serial)), n[id], from, to)
         else if IsDuplicate(m, id, numeric, entry, from, to) then id !in n
         else id in n && n[id] == m[id]
  }

  lemma MoveIsByName(m: Entities, numeric: DeviceId, serial: DeviceId, entry: EntryId, from: string, to: string)
    requires numeric != serial
    requires var ids, x := MoverIds(m, numeric, entry, Under(from, to)), Under(from, to);
      DuplicatesOnTarget(m, ids, entry, serial, x)
    ensures var ids, x := MoverIds(m, numeric, entry, Under(from, to)), Under(from, to);
      Moved(m, MovedIn(m, ids, Duplicates(m, ids, x), serial, x), numeric, serial, entry, from, to)
  {
    var ids, x := MoverIds(m, numeric, entry, Under(from, to)), Under(from, to);
    MovedByName(m, numeric, entry, from, to);
    var n := MovedIn(m, ids, Duplicates(m, ids, x), serial, x);
    forall id | id in ids ensures id in n && GotName(m[id].(device := Some(serial)), n[id], from, to) {
      TailOf(m[id].uniqueId, from);
      var tail := m[id].uniqueId[|from| + 1..];
      assert id !in Duplicates(m, ids, x);
      assert HasName(n[id].uniqueId, to, tail);
    }
  }

  // ---- The registry ----

  /** The entities of a device, in the order in which the registry lists them. */
  ghost predicate Lists(m: Entities, device: DeviceId, listing: seq<EntityId>) {
    && (forall id :: id in listing <==> id in m && m[id].device == Some(device))
    && (forall i, j :: 0 <= i < j < |listing| ==> listing[i] != listing[j])
  }

  datatype Update = Update(id: EntityId, uniqueId: string)

  datatype Move = Move(id: EntityId, uniqueId: string, duplicate: Option<EntityId>)

  class Registry {
    var entities: Entities

    ghost predicate Valid()
      reads this
    {
      Unique(entities)
    }

    /** `async_get_entity_id` */
    function Find(slot: Slot): (id: Option<EntityId>)
      requires Valid()
      reads this
      ensures id.Some? ==> id.value in entities && SlotOf(entities[id.value]) == slot
      ensures forall other :: other in entities && SlotOf(entities[other]) == slot ==> id == Some(other)
    {
      if exists id :: id in entities && SlotOf(entities[id]) == slot then
        var id :| id in entities && SlotOf(entities[id]) == slot;
        Some(id)
      else None
    }

    /** `async_entries_for_device`, in some order. */
    method EntitiesOf(device: DeviceId) returns (listing: seq<EntityId>)
      ensures Lists(entities, device, listing)
    {
      listing := [];
      var todo := entities.Keys;
      while todo != {}
        invariant todo <= entities.Keys && Distinct(listing)
        invariant forall id :: id in listing <==> id in entities && id !in todo && entities[id].device == Some(device)
      {
        var id :| id in todo;
        todo := todo - {id};
        if entities[id].device == Some(device) {
          listing := listing + [id];
        }
      }
    }

    /** `async_update_entity`, which refuses a unique id that another entity has. */
    method UpdateEntity(id: EntityId, e: Entity)
      requires Valid() && id in entities
      requires forall other :: other in entities && SlotOf(entities[other]) == SlotOf(e) ==> other == id
      modifies this
      ensures Valid() && entities == old(entities)[id := e]
    {
      entities := entities[id := e];
    }

    /** `async_remove` */
    method RemoveEntity(id: EntityId)
      requires Valid() && id in entities
      modifies this
      ensures Valid() && entities == old(entities) - {id}
    {
      entities := entities - {id};
    }

    method OwnedEntities(listing: seq<EntityId>, device: DeviceId, entry: EntryId) returns (owned: seq<EntityId>)
      requires Lists(entities, device, listing)
      ensures Distinct(owned) && forall id :: id in owned <==> id in OwnedIds(entities, device, entry)
    {
      owned := [];
      for i := 0 to |listing|
        invariant Distinct(owned)
        invariant forall id :: id in owned <==> id in listing[..i] && Owned(entities[id], device, entry)
      {
        assert listing[..i + 1] == listing[..i] + [listing[i]];
        if Owned(entities[listing[i]], device, entry) {
          assert listing[i] !in owned;
          owned := owned + [listing[i]];
        }
      }
      assert listing[..|listing|] == listing;
    }

    method CollisionFreeUpdates(owned: seq<EntityId>, ghost ids: set<EntityId>, x: Prefixes)
        returns (updates: Option<seq<Update>>)
      requires Valid() && HavePrefix(entities, ids, x) && Distinct(owned) && forall id :: id in owned <==> id in ids
      ensures updates.Some? <==> TargetsFree(entities, ids, x)
      ensures updates.Some? ==> UpdatesOf(entities, ids, x, updates.value)
    {
      var found: seq<Update> := [];
      var targets: set<Slot> := {};
      for i := 0 to |owned|
        invariant IdSet(owned[..i]) <= ids && Progress(entities, IdSet(owned[..i]), x, found, targets)
      {
        var id := owned[i];
        ghost var part := IdSet(owned[..i]);
        assert owned[..i + 1] == owned[..i] + [id] && id !in part;
        assert IdSet(owned[..i + 1]) == part + {id};
        NextTarget(entities, ids, part, x, id, found, targets);
        var target := Renamed(entities[id], x);
        var owner := Find(SlotOf(target));
        if SlotOf(target) in targets {
          assert false; // The prefix change is injective.
        } else if owner.Some? && owner.value != id {
          return None;
        }
        targets := targets + {SlotOf(target)};
        found := found + [Update(id, target.uniqueId)];
      }
      assert owned[..|owned|] == owned && IdSet(owned) == ids;
      updates := Some(found);
    }

    /**
     `_battery_pack_entity_updates`: the updates of all owned entities, or none at all if one
     of them has another prefix or its new unique id belongs to another entity.
     */
    method EntityUpdates(listing: seq<EntityId>, device: DeviceId, entry: EntryId, x: Prefixes)
        returns (updates: Option<seq<Update>>)
      requires Valid() && Lists(entities, device, listing)
      ensures var ids := OwnedIds(entities, device, entry);
        updates.Some? <==> HavePrefix(entities, ids, x) && TargetsFree(entities, ids, x)
      ensures updates.Some? ==> UpdatesOf(entities, OwnedIds(entities, device, entry), x, updates.value)
    {
      var owned := OwnedEntities(listing, device, entry);
      ghost var ids := OwnedIds(entities, device, entry);
      if exists id :: id in owned && !(x.from <= entities[id].uniqueId) {
        return None;
      }
      assert HavePrefix(entities, ids, x) by {
        assert forall id :: id in ids ==> id in owned;
      }
      updates := CollisionFreeUpdates(owned, ids, x);
    }

    /** All updates of one device, one after the other; the unique ids are unique after each. */
    method ApplyUpdates(updates: seq<Update>, ghost ids: set<EntityId>, ghost x: Prefixes)
      requires Valid() && HavePrefix(entities, ids, x) && TargetsFree(entities, ids, x)
      requires UpdatesOf(entities, ids, x, updates)
      modifies this
      ensures Valid() && entities == RenamedIn(old(entities), ids, x)
    {
      ghost var m := entities;
      for i := 0 to |updates|
        invariant Valid()
        invariant IdsOf(updates[..i]) <= ids && entities == RenamedIn(m, IdsOf(updates[..i]), x)
      {
        var id := updates[i].id;
        NextUpdate(m, ids, x, updates, i);
        var e := entities[id].(uniqueId := updates[i].uniqueId);
        ghost var next := RenamedIn(m, IdsOf(updates[..i + 1]), x);
        PartialRenamingIsUnique(m, ids, IdsOf(updates[..i + 1]), x);
        assert next == entities[id := e];
        assert forall other :: other in entities && other != id ==> next[other] == entities[other];
        UpdateEntity(id, e);
      }
      assert updates[..|updates|] == updates;
    }
  
    method FindMove(id: EntityId, x: Prefixes) returns (move: Move)
      requires Valid() && HavePrefix(entities, {id}, x)
      ensures move.id == id && MoveFor(entities, {id}, x, move)
      ensures move.duplicate.Some? ==> move.duplicate.value in entities
    {
      var target := Renamed(entities[id], x);
      move := Move(id, target.uniqueId, Find(SlotOf(target)));
    }

    /**
     The first loop of `_move_numeric_battery_pack_entities_to_serial_target`: all moves, or
     none at all if a duplicate lies outside the serial device.
     */
    method PlanMoves(listing: seq<EntityId>, numeric: DeviceId, serial: DeviceId, entry: EntryId, x: Prefixes)
        returns (moves: Option<seq<Move>>)
      requires Valid() && Lists(entities, numeric, listing) && numeric != serial
      ensures var ids := MoverIds(entities, numeric, entry, x);
        && (moves.Some? <==> DuplicatesOnTarget(entities, ids, entry, serial, x))
        && (moves.Some? ==> MovesOf(entities, ids, x, moves.value))
    {
      var planned: seq<Move> := [];
      ghost var ids := MoverIds(entities, numeric, entry, x);
      ghost var part: set<EntityId> := {};
      for i := 0 to |listing|
        invariant part == set id | id in listing[..i] && id in ids
        invariant Planned(entities, part, entry, serial, x, planned)
      {
        var id := listing[i];
        var e := entities[id];
        assert listing[..i + 1] == listing[..i] + [id] && id !in listing[..i];
        if e.entry == Some(entry) && e.platform == DOMAIN && x.from <= e.uniqueId {
          var move := FindMove(id, x);
          DuplicateCounts(entities, x, move, ids);
          var duplicate := move.duplicate;
          if duplicate.Some?
             && (entities[duplicate.value].entry != Some(entry) || entities[duplicate.value].device != Some(serial)) {
            return None;
          }
          PlanNext(entities, part, entry, serial, x, planned, move);
          planned := planned + [move];
          part := part + {id};
        }
      }
      assert listing[..|listing|] == listing && part == ids;
      moves := Some(planned);
    }

    method MoveEntity(v: Move, serial: DeviceId)
      requires Valid() && Gone(v) <= entities.Keys && v.id in entities && v.id !in Gone(v)
      requires var e := entities[v.id].(uniqueId := v.uniqueId, device := Some(serial));
        forall other :: other in entities && other !in Gone(v) && SlotOf(entities[other]) == SlotOf(e) ==> other == v.id
      modifies this
      ensures Valid()
      ensures var e := old(entities)[v.id].(uniqueId := v.uniqueId, device := Some(serial));
        entities == (old(entities) - Gone(v))[v.id := e]
    {
      if v.duplicate.Some? {
        RemoveEntity(v.duplicate.value);
      }
      UpdateEntity(v.id, entities[v.id].(uniqueId := v.uniqueId, device := Some(serial)));
    }

    /** The second loop: remove each duplicate, then move its successor. */
    method ApplyMoves(moves: seq<Move>, ghost ids: set<EntityId>, serial: DeviceId, ghost entry: EntryId,
        ghost x: Prefixes)
      requires Valid() && MovesOf(entities, ids, x, moves) && DuplicatesOnTarget(entities, ids, entry, serial, x)
      requires forall id :: id in ids ==> entities[id].device != Some(serial)
      modifies this
      ensures Valid() && entities == MovedIn(old(entities), ids, Duplicates(old(entities), ids, x), serial, x)
    {
      ghost var m := entities;
      for i := 0 to |moves|
        invariant Valid()
        invariant MovedIds(moves[..i]) <= ids && entities == MovedSoFar(m, MovedIds(moves[..i]), serial, x)
      {
        var move := moves[i];
        assert move in moves;
        FirstMoves(moves, i);
        ghost var part := MovedIds(moves[..i]);
        NextMove(m, ids, x, part, move, serial, entry);
        MoveEntity(move, serial);
        assert entities == MovedSoFar(m, part + {move.id}, serial, x);
      }
      assert moves[..|moves|] == moves;
    }

    /**
     `_move_numeric_battery_pack_entities_to_serial_target`: the entities named after the numeric
     device move under the new identifier, or nothing changes because an entity outside the serial
     device has one of the new names.
     */
    method MoveToSerialTarget(listing: seq<EntityId>, numeric: DeviceId, serial: DeviceId, entry: EntryId,
        from: string, to: string) returns (moved: Option<nat>)
      requires Valid() && Lists(entities, numeric, listing) && numeric != serial
      modifies this
      ensures Valid()
      ensures moved.Some? <==>
        forall id :: id in old(entities) && IsDuplicate(old(entities), id, numeric, entry, from, to) ==>
          old(entities)[id].entry == Some(entry) && old(entities)[id].device == Some(serial)
      ensures moved.None? ==> entities == old(entities)
      ensures moved.Some? ==>
        && moved.value == |set id | id in old(entities) && IsMoved(old(entities)[id], numeric, entry, from)|
        && Moved(old(entities), entities, numeric, serial, entry, from, to)
    {
      var x := Under(from, to);
      MovedByName(entities, numeric, entry, from, to);
      var moves := PlanMoves(listing, numeric, serial, entry, x);
      if moves.None? {
        return None;
      }
      ghost var ids := MoverIds(entities, numeric, entry, x);
      assert ids == set id | id in entities && IsMoved(entities[id], numeric, entry, from);
      MoveIsByName(entities, numeric, serial, entry, from, to);
      CountMoves(moves.value);
      ApplyMoves(moves.value, ids, serial, entry, x);
      moved := Some(|moves.value|);
    }
  }

  function MovedIds(moves: seq<Move>): set<EntityId> {
    set v | v in moves :: v.id
  }

  /** Exactly one move for each of `ids`, naming the duplicate that is in its way. */
  ghost predicate MovesOf(m: Entities, ids: set<EntityId>, x: Prefixes, moves: seq<Move>) {
    && HavePrefix(m, ids, x) && MovedIds(moves) == ids
    && (forall i, j :: 0 <= i < j < |moves| ==> moves[i].id != moves[j].id)
    && forall v :: v in moves ==> MoveFor(m, ids, x, v)
  }

  ghost predicate MoveFor(m: Entities, ids: set<EntityId>, x: Prefixes, v: Move)
    requires HavePrefix(m, ids, x)
  {
    && v.id in ids && v.uniqueId == Renamed(m[v.id], x).uniqueId
    && forall other :: other in m && SlotOf(m[other]) == SlotOf(Renamed(m[v.id], x)) <==> v.duplicate == Some(other)
  }

  lemma {:induction false} CountMoves(moves: seq<Move>)
    requires forall i, j :: 0 <= i < j < |moves| ==> moves[i].id != moves[j].id
    ensures |MovedIds(moves)| == |moves|
  {
    if moves != [] {
      var n := |moves| - 1;
      CountMoves(moves[..n]);
      assert moves == moves[..n] + [moves[n]];
      assert MovedIds(moves) == MovedIds(moves[..n]) + {moves[n].id};
      assert moves[n].id !in MovedIds(moves[..n]);
    }
  }

  function Gone(v: Move): set<EntityId> {
    if v.duplicate.Some? then {v.duplicate.value} else {}
  }

  lemma DuplicatesOfOne(m: Entities, ids: set<EntityId>, x: Prefixes, v: Move)
    requires HavePrefix(m, ids, x) && MoveFor(m, ids, x, v)
    ensures Duplicates(m, {v.id}, x) == Gone(v)
  {}

  lemma DuplicatesOfBoth(m: Entities, a: set<EntityId>, b: set<EntityId>, x: Prefixes)
    requires HavePrefix(m, a, x) && HavePrefix(m, b, x)
    ensures Duplicates(m, a + b, x) == Duplicates(m, a, x) + Duplicates(m, b, x)
  {}

  lemma DuplicatesDisjoint(m: Entities, ids: set<EntityId>, a: set<EntityId>, b: set<EntityId>, x: Prefixes)
    requires Unique(m) && HavePrefix(m, ids, x) && a <= ids && b <= ids && a !! b
    ensures Duplicates(m, a, x) !! Duplicates(m, b, x)
  {
    forall other | other in Duplicates(m, a, x) && other in Duplicates(m, b, x) ensures false {
      var k :| k in a && SlotOf(m[other]) == SlotOf(Renamed(m[k], x));
      var l :| l in b && SlotOf(m[other]) == SlotOf(Renamed(m[l], x));
      RenamingIsInjective(m, ids, x, k, l);
    }
  }

  lemma MovedStep(m: Entities, part: set<EntityId>, gone: set<EntityId>, id: EntityId, more: set<EntityId>,
      serial: DeviceId, x: Prefixes)
    requires HavePrefix(m, part, x) && HavePrefix(m, {id}, x) && id !in part && id !in gone + more
    ensures MovedIn(m, part + {id}, gone + more, serial, x)
         == (MovedIn(m, part, gone, serial, x) - more)[id := Renamed(m[id], x).(device := Some(serial))]
  {}

  lemma FirstMoves(moves: seq<Move>, i: nat)
    requires i < |moves| && forall k, j :: 0 <= k < j < |moves| ==> moves[k].id != moves[j].id
    ensures moves[i].id !in MovedIds(moves[..i]) && MovedIds(moves[..i + 1]) == MovedIds(moves[..i]) + {moves[i].id}
    ensures MovedIds(moves[..i + 1]) <= MovedIds(moves)
  {
    assert moves[..i + 1] == moves[..i] + [moves[i]];
    forall id | id in MovedIds(moves[..i + 1]) ensures id in MovedIds(moves) {
      var v :| v in moves[..i + 1] && v.id == id;
      assert v in moves;
    }
  }

  /** The registry when the entities `part` have been moved. */
  function MovedSoFar(m: Entities, part: set<EntityId>, serial: DeviceId, x: Prefixes): Entities
    requires HavePrefix(m, part, x)
  {
    MovedIn(m, part, Duplicates(m, part, x), serial, x)
  }

  lemma SlotIsFree(n: Entities, gone: set<EntityId>, id: EntityId, e: Entity)
    requires Unique((n - gone)[id := e])
    ensures forall other :: other in n && other !in gone && SlotOf(n[other]) == SlotOf(e) ==> other == id
  {
    var next := (n - gone)[id := e];
    forall other | other in n && other !in gone && SlotOf(n[other]) == SlotOf(e) ensures other == id {
      assert other in next && id in next;
    }
  }

  /** The duplicate of the next move has not been removed or moved yet. */
  lemma DuplicateRemains(m: Entities, ids: set<EntityId>, x: Prefixes, part: set<EntityId>, v: Move, serial: DeviceId,
      entry: EntryId)
    requires Unique(m) && HavePrefix(m, ids, x) && MoveFor(m, ids, x, v) && DuplicatesOnTarget(m, ids, entry, serial, x)
    requires forall id :: id in ids ==> m[id].device != Some(serial)
    requires part <= ids && v.id !in part
    ensures Gone(v) <= m.Keys && Gone(v) !! Duplicates(m, part, x) && v.id !in Duplicates(m, part, x)
      && v.id !in Gone(v)
    ensures Duplicates(m, part + {v.id}, x) == Duplicates(m, part, x) + Gone(v)
  {
    DuplicatesOfOne(m, ids, x, v);
    DuplicatesOfBoth(m, part, {v.id}, x);
    DuplicatesDisjoint(m, ids, part, {v.id}, x);
    DuplicatesOfBoth(m, part + {v.id}, ids, x);
    assert part + {v.id} + ids == ids;
    assert v.id !in Duplicates(m, ids, x);
  }

  /** The next duplicate is still there, and once it is removed the new unique id is free. */
  lemma NextMove(m: Entities, ids: set<EntityId>, x: Prefixes, part: set<EntityId>, v: Move, serial: DeviceId,
      entry: EntryId)
    requires Unique(m) && HavePrefix(m, ids, x) && MoveFor(m, ids, x, v) && DuplicatesOnTarget(m, ids, entry, serial, x)
    requires forall id :: id in ids ==> m[id].device != Some(serial)
    requires part <= ids && v.id !in part
    ensures var n := MovedSoFar(m, part, serial, x);
      && Gone(v) <= n.Keys && v.id in n && v.id !in Gone(v)
      && var e := n[v.id].(uniqueId := v.uniqueId, device := Some(serial));
      && MovedSoFar(m, part + {v.id}, serial, x) == (n - Gone(v))[v.id := e]
      && (forall other :: other in n && other !in Gone(v) && SlotOf(n[other]) == SlotOf(e) ==> other == v.id)
  {
    var n := MovedSoFar(m, part, serial, x);
    DuplicateRemains(m, ids, x, part, v, serial, entry);
    assert n[v.id] == m[v.id];
    var e := n[v.id].(uniqueId := v.uniqueId, device := Some(serial));
    assert e == Renamed(m[v.id], x).(device := Some(serial));
    MovedStep(m, part, Duplicates(m, part, x), v.id, Gone(v), serial, x);
    PartialMoveIsUnique(m, ids, part + {v.id}, serial, x);
    SlotIsFree(n, Gone(v), v.id, e);
  }

  /** The moves of the entities `part` are planned. */
  ghost predicate Planned(m: Entities, part: set<EntityId>, entry: EntryId, serial: DeviceId, x: Prefixes,
      moves: seq<Move>) {
    MovesOf(m, part, x, moves) && DuplicatesOnTarget(m, part, entry, serial, x)
  }

  lemma DuplicateCounts(m: Entities, x: Prefixes, v: Move, ids: set<EntityId>)
    requires HavePrefix(m, {v.id}, x) && MoveFor(m, {v.id}, x, v) && HavePrefix(m, ids, x) && v.id in ids
    ensures Gone(v) <= Duplicates(m, ids, x)
  {
    DuplicatesOfOne(m, {v.id}, x, v);
    DuplicatesOfBoth(m, ids, {v.id}, x);
    assert ids + {v.id} == ids;
  }

  lemma MoreDuplicatesOnTarget(m: Entities, part: set<EntityId>, entry: EntryId, serial: DeviceId, x: Prefixes, v: Move)
    requires HavePrefix(m, part, x) && DuplicatesOnTarget(m, part, entry, serial, x)
    requires HavePrefix(m, {v.id}, x) && MoveFor(m, {v.id}, x, v)
    requires v.duplicate.Some? ==> (v.duplicate.value in m
      && m[v.duplicate.value].entry == Some(entry) && m[v.duplicate.value].device == Some(serial))
    ensures DuplicatesOnTarget(m, part + {v.id}, entry, serial, x)
  {
    DuplicatesOfOne(m, {v.id}, x, v);
    DuplicatesOfBoth(m, part, {v.id}, x);
  }

  lemma PlanNext(m: Entities, part: set<EntityId>, entry: EntryId, serial: DeviceId, x: Prefixes, moves: seq<Move>,
      v: Move)
    requires Planned(m, part, entry, serial, x, moves)
    requires v.id !in part && HavePrefix(m, {v.id}, x) && MoveFor(m, {v.id}, x, v)
    requires v.duplicate.Some? ==> (v.duplicate.value in m
      && m[v.duplicate.value].entry == Some(entry) && m[v.duplicate.value].device == Some(serial))
    ensures Planned(m, part + {v.id}, entry, serial, x, moves + [v])
  {
    ExtendMoves(m, part, x, moves, v);
    MoreDuplicatesOnTarget(m, part, entry, serial, x, v);
  }

  lemma ExtendMoves(m: Entities, part: set<EntityId>, x: Prefixes, moves: seq<Move>, v: Move)
    requires MovesOf(m, part, x, moves) && v.id !in part && HavePrefix(m, {v.id}, x) && MoveFor(m, {v.id}, x, v)
    ensures MovesOf(m, part + {v.id}, x, moves + [v])
  {
    forall u | u in moves ensures u.id in MovedIds(moves) {}
    forall id | id in MovedIds(moves) + {v.id} ensures id in MovedIds(moves + [v]) {
      if id != v.id {
        var u :| u in moves && u.id == id;
        assert u in moves + [v];
      } else {
        assert (moves + [v])[|moves|].id == id;
      }
    }
    forall i | 0 <= i < |moves| ensures moves[i].id != v.id {
      assert moves[i] in moves;
    }
  }

  ghost predicate Distinct(s: seq<EntityId>) {
    forall i, j :: 0 <= i < j < |s| ==> s[i] != s[j]
  }

  function IdsOf(updates: seq<Update>): set<EntityId> {
    set u | u in updates :: u.id
  }

  /** Exactly one update for each of `ids`, with the right unique id. */
  ghost predicate UpdatesOf(m: Entities, ids: set<EntityId>, x: Prefixes, updates: seq<Update>) {
    && HavePrefix(m, ids, x) && IdsOf(updates) == ids
    && (forall i, j :: 0 <= i < j < |updates| ==> updates[i].id != updates[j].id)
    && forall u :: u in updates ==> u.id in ids && u.uniqueId == Renamed(m[u.id], x).uniqueId
  }

  function IdSet(s: seq<EntityId>): set<EntityId> {
    set id | id in s
  }

  function TargetSlots(m: Entities, ids: set<EntityId>, x: Prefixes): set<Slot>
    requires HavePrefix(m, ids, x)
  {
    set id | id in ids :: SlotOf(Renamed(m[id], x))
  }

  /** The entities `part` have been checked. */
  ghost predicate Progress(m: Entities, part: set<EntityId>, x: Prefixes, found: seq<Update>, targets: set<Slot>) {
    UpdatesOf(m, part, x, found) && TargetsFree(m, part, x) && targets == TargetSlots(m, part, x)
  }

  lemma NextTarget(m: Entities, ids: set<EntityId>, part: set<EntityId>, x: Prefixes, id: EntityId,
      found: seq<Update>, targets: set<Slot>)
    requires Unique(m) && HavePrefix(m, ids, x) && part <= ids && id in ids && id !in part
    requires Progress(m, part, x, found, targets)
    ensures var target := Renamed(m[id], x);
      && SlotOf(target) !in targets
      && (TargetsFree(m, {id}, x) ==>
           Progress(m, part + {id}, x, found + [Update(id, target.uniqueId)], targets + {SlotOf(target)}))
  {
    forall other | other in part ensures SlotOf(Renamed(m[other], x)) != SlotOf(Renamed(m[id], x)) {
      if SlotOf(Renamed(m[other], x)) == SlotOf(Renamed(m[id], x)) {
        RenamingIsInjective(m, ids, x, other, id);
      }
    }
    if TargetsFree(m, {id}, x) {
      ExtendUpdates(m, part, x, found, id);
    }
  }

  lemma ExtendUpdates(m: Entities, ids: set<EntityId>, x: Prefixes, updates: seq<Update>, id: EntityId)
    requires UpdatesOf(m, ids, x, updates) && HavePrefix(m, {id}, x) && id !in ids
    ensures UpdatesOf(m, ids + {id}, x, updates + [Update(id, Renamed(m[id], x).uniqueId)])
  {
    var more := updates + [Update(id, Renamed(m[id], x).uniqueId)];
    forall u | u in updates ensures u.id in IdsOf(updates) {}
    forall other | other in IdsOf(updates) + {id} ensures other in IdsOf(more) {
      if other != id {
        var u :| u in updates && u.id == other;
        assert u in more;
      } else {
        assert more[|updates|].id == id;
      }
    }
    forall i | 0 <= i < |updates| ensures updates[i].id != id {
      assert updates[i] in updates;
    }
  }

  lemma NextUpdate(m: Entities, ids: set<EntityId>, x: Prefixes, updates: seq<Update>, i: nat)
    requires UpdatesOf(m, ids, x, updates) && i < |updates|
    ensures updates[i].id in ids && updates[i].id !in IdsOf(updates[..i])
    ensures IdsOf(updates[..i + 1]) == IdsOf(updates[..i]) + {updates[i].id} && IdsOf(updates[..i + 1]) <= ids
    ensures updates[i].uniqueId == Renamed(m[updates[i].id], x).uniqueId
  {
    assert updates[..i + 1] == updates[..i] + [updates[i]];
    assert updates[i] in updates;
    forall u | u in updates[..i] ensures u.id != updates[i].id && u.id in ids {
      assert u in updates;
    }
  }
}
