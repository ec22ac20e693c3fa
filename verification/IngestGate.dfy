/**
 The ingest gate as the source runs it: loops over the fields of a frame that update the
 merged object and a shared table of owners in place.  The methods are proved against the
 order-free rule of `IngestRule`, so the order in which fields are visited is irrelevant.
 */
module IngestGate {
  import opened Wrappers
  import opened Json
  import opened IngestRule
  import opened IngestStep
  import opened IngestLaws
  import opened IngestRuns

  datatype IngestResult = IngestResult(payload: Tree, provenance: Ledger, acceptedFields: set<string>)

  /** The provenance dictionary shared by one recursive merge. */
  class OwnerTable {
    var entries: Ledger

    constructor (initial: Ledger)
      ensures entries == initial
    {
      entries := initial;
    }

    /** Remove nested ownership after a payload shape change. */
    method DropDescendants(field: Path)
      modifies this
      ensures entries == Drop(old(entries), field)
      ensures forall p :: p in entries <==>
        p in old(entries) && (|p| <= 1 || |p| < |field| || p[..|field|] != field)
      ensures forall p :: p in entries ==> entries[p] == old(entries)[p]
    {
      var keys := entries.Keys;
      while keys != {}
        invariant keys <= old(entries).Keys
        invariant entries == map p | p in old(entries) && (p in keys || !IsDropped(field, p)) :: old(entries)[p]
      {
        var key :| key in keys;
        if IsDropped(field, key) {
          entries := entries - {key};
        }
        keys := keys - {key};
      }
    }
  }

  /** The owner of `q` once the fields in `done` below `path` have been merged. */
  ghost function OwnerWhen(c: Context, current: Tree, update: Tree, path: Path, fallback: Option<Provenance>,
      ledger: Ledger, done: set<string>, q: Path): Option<Provenance>
    requires done <= update.Keys
  {
    if path <= q && |q| > |path| && q[|path|] in done then
      var k := q[|path|];
      ValueOwner(c, Get(current, k), update[k], path + [k], OwnerOf(ledger, path + [k], fallback), ledger,
        q[|path| + 1..])
    else Find(ledger, q)
  }

  ghost predicate AgreeBelow(l: Ledger, m: Ledger, path: Path) {
    forall p :: path <= p ==> Find(l, p) == Find(m, p)
  }

  lemma FieldReadsBelow(c: Context, current: Tree, update: Tree, path: Path, fallback: Option<Provenance>, l: Ledger,
      m: Ledger, k: string, q: Path)
    requires AgreeBelow(l, m, path) && k in update
    ensures var v, w, p, owner := Get(current, k), update[k], path + [k], OwnerOf(l, path + [k], fallback);
      && OwnerOf(m, p, fallback) == owner
      && NestedValue(c, v, w, p, owner, l) == NestedValue(c, v, w, p, owner, m)
      && ValueAccepted(c, v, w, p, owner, l) == ValueAccepted(c, v, w, p, owner, m)
      && ValueOwner(c, v, w, p, owner, l, q) == ValueOwner(c, v, w, p, owner, m, q)
    decreases Obj(update), 1
  {
    assert Find(l, path + [k]) == Find(m, path + [k]);
    ValueReadsBelow(c, Get(current, k), update[k], path + [k], OwnerOf(l, path + [k], fallback), l, m, q);
  }

  /** A nested merge only looks at owners at or below its own path. */
  lemma {:induction false} NestedReadsBelow(c: Context, current: Tree, update: Tree, path: Path,
      fallback: Option<Provenance>, l: Ledger, m: Ledger, q: Path)
    requires AgreeBelow(l, m, path)
    ensures NestedFields(c, current, update, path, fallback, l) == NestedFields(c, current, update, path, fallback, m)
    ensures NestedAccepts(c, current, update, path, fallback, l) == NestedAccepts(c, current, update, path, fallback, m)
    ensures NestedOwner(c, current, update, path, fallback, l, q)
      == NestedOwner(c, current, update, path, fallback, m, q)
    decreases Obj(update), 2
  {
    forall k | k in update
      ensures NestedValue(c, Get(current, k), update[k], path + [k], OwnerOf(l, path + [k], fallback), l)
           == NestedValue(c, Get(current, k), update[k], path + [k], OwnerOf(m, path + [k], fallback), m)
      ensures ValueAccepted(c, Get(current, k), update[k], path + [k], OwnerOf(l, path + [k], fallback), l)
           == ValueAccepted(c, Get(current, k), update[k], path + [k], OwnerOf(m, path + [k], fallback), m)
    {
      FieldReadsBelow(c, current, update, path, fallback, l, m, k, []);
    }
    assert Find(l, path + q) == Find(m, path + q);
    if q != [] && q[0] in update {
      FieldReadsBelow(c, current, update, path, fallback, l, m, q[0], q[1..]);
    }
  }

  lemma {:induction false} ValueReadsBelow(c: Context, current: Value, value: Value, path: Path,
      owner: Option<Provenance>, l: Ledger, m: Ledger, q: Path)
    requires path != [] && AgreeBelow(l, m, path)
    ensures NestedValue(c, current, value, path, owner, l) == NestedValue(c, current, value, path, owner, m)
    ensures ValueAccepted(c, current, value, path, owner, l) == ValueAccepted(c, current, value, path, owner, m)
    ensures ValueOwner(c, current, value, path, owner, l, q) == ValueOwner(c, current, value, path, owner, m, q)
    decreases value, 3
  {
    assert Find(l, path + q) == Find(m, path + q);
    if value.Obj? && current.Obj? {
      NestedReadsBelow(c, current.fields, value.fields, path, owner, l, m, q);
    } else {
      ReplacementReadsBelow(c, current, value, path, owner, l, m, q);
    }
  }

  lemma ReplacementValue(c: Context, current: Value, value: Value, path: Path, owner: Option<Provenance>, l: Ledger)
    requires path != [] && !(current.Obj? && value.Obj?)
    ensures NestedValue(c, current, value, path, owner, l) 
      == if Rejects(c, current, value, owner) then current else value
  {
    if value.Obj? {
      FreshObject(c, value.fields, path, Drop(l, path), []);
    }
  }

  lemma ReplacementOwner(c: Context, current: Value, value: Value, path: Path, owner: Option<Provenance>, l: Ledger,
      q: Path)
    requires path != [] && !(current.Obj? && value.Obj?)
    ensures ValueOwner(c, current, value, path, owner, l, q)
         == if Rejects(c, current, value, owner) then Find(l, path + q)
            else if q == [] then Some(c.incoming)
            else if value.Obj? then (if SlotIn(value.fields, q) == Missing then None else Some(c.incoming))
            else if current.Obj? then None
            else Find(l, path + q)
  {
    if value.Obj? {
      FreshObject(c, value.fields, path, Drop(l, path), q);
    }
  }

  lemma ReplacementReadsBelow(c: Context, current: Value, value: Value, path: Path, owner: Option<Provenance>,
      l: Ledger, m: Ledger, q: Path)
    requires path != [] && AgreeBelow(l, m, path) && !(current.Obj? && value.Obj?)
    ensures NestedValue(c, current, value, path, owner, l) == NestedValue(c, current, value, path, owner, m)
    ensures ValueAccepted(c, current, value, path, owner, l) == ValueAccepted(c, current, value, path, owner, m)
    ensures ValueOwner(c, current, value, path, owner, l, q) == ValueOwner(c, current, value, path, owner, m, q)
  {
    assert Find(l, path + q) == Find(m, path + q);
    ReplacementValue(c, current, value, path, owner, l);
    ReplacementValue(c, current, value, path, owner, m);
    ReplacementOwner(c, current, value, path, owner, l, q);
    ReplacementOwner(c, current, value, path, owner, m, q);
  }

  /** The table after the value at `path` has been merged, whatever `owner` it was judged by. */
  ghost predicate ValueTable(c: Context, current: Value, value: Value, path: Path, owner: Option<Provenance>,
      before: Ledger, after: Ledger) {
    forall q :: Find(after, q) ==
        (if path <= q then ValueOwner(c, current, value, path, owner, before, q[|path|..]) else Find(before, q))
  }

  /** The table after the object at `path` has been merged. */
  ghost predicate NestedTable(c: Context, current: Tree, update: Tree, path: Path, fallback: Option<Provenance>,
      before: Ledger, after: Ledger) {
    forall q :: Find(after, q) ==
        (if path <= q then NestedOwner(c, current, update, path, fallback, before, q[|path|..]) else Find(before, q))
  }

  lemma BothObjectsTable(c: Context, current: Value, value: Value, path: Path, owner: Option<Provenance>,
      before: Ledger, after: Ledger)
    requires current.Obj? && value.Obj?
    requires NestedTable(c, current.fields, value.fields, path, owner, before, after)
    ensures ValueTable(c, current, value, path, owner, before, after)
  {
    forall q
      ensures Find(after, q) ==
        (if path <= q then ValueOwner(c, current, value, path, owner, before, q[|path|..]) else Find(before, q))
    {}
  }

  lemma RejectedTable(c: Context, current: Value, value: Value, path: Path, owner: Option<Provenance>, before: Ledger)
    requires !(current.Obj? && value.Obj?) && Rejects(c, current, value, owner)
    ensures ValueTable(c, current, value, path, owner, before, before)
  {
    forall q | path <= q ensures Find(before, q) == ValueOwner(c, current, value, path, owner, before, q[|path|..]) {
      assert path + q[|path|..] == q;
    }
  }

  lemma ReplacedTable(c: Context, current: Value, value: Value, path: Path, owner: Option<Provenance>, before: Ledger,
      after: Ledger)
    requires path != [] && !(current.Obj? && value.Obj?) && !Rejects(c, current, value, owner)
    requires
      if value.Obj? then NestedTable(c, map[], value.fields, path, None, Drop(before, path), after)
      else after == if current.Obj? then Drop(before, path) else before
    ensures ValueTable(c, current, value, path, owner, before, after[path := c.incoming])
  {
    var final := after[path := c.incoming];
    forall q
      ensures Find(final, q) ==
        (if path <= q then ValueOwner(c, current, value, path, owner, before, q[|path|..]) else Find(before, q))
    {
      if path <= q {
        assert path + q[|path|..] == q;
        assert q[|path|..] == [] <==> q == path;
        if q != path && value.Obj? {
          assert Find(after, q) == NestedOwner(c, map[], value.fields, path, None, Drop(before, path), q[|path|..]);
        }
      } else if value.Obj? {
        assert Find(after, q) == Find(Drop(before, path), q);
      }
    }
  }

  /** The object part way through the loop: the fields in `done` have been merged. */
  ghost function PartialFields(c: Context, current: Tree, update: Tree, path: Path, fallback: Option<Provenance>,
      ledger: Ledger, done: set<string>): Tree
    requires done <= update.Keys
  {
    map k | k in current.Keys + done ::
      if k in done then NestedValue(c, Get(current, k), update[k], path + [k], OwnerOf(ledger, path + [k], fallback),
        ledger)
      else current[k]
  }

  ghost predicate PartialAccepts(c: Context, current: Tree, update: Tree, path: Path, fallback: Option<Provenance>,
      ledger: Ledger, done: set<string>)
    requires done <= update.Keys
  {
    exists k :: k in done &&
      ValueAccepted(c, Get(current, k), update[k], path + [k], OwnerOf(ledger, path + [k], fallback), ledger)
  }

  /** The loop invariant on the table: below the fields in `done` it has been updated. */
  ghost predicate Progress(c: Context, current: Tree, update: Tree, path: Path, fallback: Option<Provenance>,
      ledger: Ledger, done: set<string>, entries: Ledger)
    requires done <= update.Keys
  {
    forall q :: Find(entries, q) == OwnerWhen(c, current, update, path, fallback, ledger, done, q)
  }

  lemma ProgressAgrees(c: Context, current: Tree, update: Tree, path: Path, fallback: Option<Provenance>,
      ledger: Ledger, done: set<string>, entries: Ledger, key: string)
    requires done <= update.Keys && key !in done
    requires Progress(c, current, update, path, fallback, ledger, done, entries)
    ensures AgreeBelow(entries, ledger, path + [key])
    ensures OwnerOf(entries, path + [key], fallback) == OwnerOf(ledger, path + [key], fallback)
  {
    forall p | path + [key] <= p ensures Find(entries, p) == Find(ledger, p) {
      assert p[|path|] == (path + [key])[|path|] == key;
      assert Find(entries, p) == OwnerWhen(c, current, update, path, fallback, ledger, done, p);
    }
    assert Find(entries, path + [key]) == Find(ledger, path + [key]);
  }

  /** One more field: the table moves on with the merge of `key`. */
  lemma FieldTableStep(c: Context, current: Tree, update: Tree, path: Path, fallback: Option<Provenance>,
      ledger: Ledger, done: set<string>, before: Ledger, after: Ledger, key: string)
    requires done <= update.Keys && key in update && key !in done
    requires Progress(c, current, update, path, fallback, ledger, done, before)
    requires ValueTable(c, Get(current, key), update[key], path + [key], OwnerOf(before, path + [key], fallback),
      before, after)
    ensures Progress(c, current, update, path, fallback, ledger, done + {key}, after)
  {
    ProgressAgrees(c, current, update, path, fallback, ledger, done, before, key);
    var cv, v, owner := Get(current, key), update[key], OwnerOf(ledger, path + [key], fallback);
    forall q ensures Find(after, q) == OwnerWhen(c, current, update, path, fallback, ledger, done + {key}, q) {
      assert Find(before, q) == OwnerWhen(c, current, update, path, fallback, ledger, done, q);
      assert path <= q && |q| > |path| && q[|path|] == key ==> q[..|path| + 1] == path + [key];
      if path + [key] <= q {
        assert q[|path|] == (path + [key])[|path|] == key;
        ValueReadsBelow(c, cv, v, path + [key], owner, before, ledger, q[|path| + 1..]);
      }
    }
  }

  /** One more field: the object and the verdict move on with the merge of `key`. */
  lemma FieldValueStep(c: Context, current: Tree, update: Tree, path: Path, fallback: Option<Provenance>,
      ledger: Ledger, done: set<string>, before: Ledger, key: string)
    requires done <= update.Keys && key in update && key !in done
    requires Progress(c, current, update, path, fallback, ledger, done, before)
    ensures var cv, v, owner, m := Get(current, key), update[key], OwnerOf(before, path + [key], fallback),
                                   PartialFields(c, current, update, path, fallback, ledger, done);
      && Get(m, key) == cv
      && PartialFields(c, current, update, path, fallback, ledger, done + {key}) ==
           (if ValueAccepted(c, cv, v, path + [key], owner, before)
            then m[key := NestedValue(c, cv, v, path + [key], owner, before)] else m)
      && (PartialAccepts(c, current, update, path, fallback, ledger, done + {key}) <==>
           PartialAccepts(c, current, update, path, fallback, ledger, done)
             || ValueAccepted(c, cv, v, path + [key], owner, before))
  {
    ProgressAgrees(c, current, update, path, fallback, ledger, done, before, key);
    var cv, v, owner := Get(current, key), update[key], OwnerOf(ledger, path + [key], fallback);
    ValueReadsBelow(c, cv, v, path + [key], owner, before, ledger, []);
    if !ValueAccepted(c, cv, v, path + [key], owner, ledger) {
      RejectedValue(c, cv, v, path + [key], owner, ledger);
    }
  }

  /** A field that is not accepted stays as it is. */
  lemma RejectedValue(c: Context, current: Value, value: Value, path: Path, owner: Option<Provenance>, ledger: Ledger)
    requires !ValueAccepted(c, current, value, path, owner, ledger)
    ensures NestedValue(c, current, value, path, owner, ledger) == current
    ensures !Blank(current) || current.Obj?
  {
    if current.Obj? && value.Obj? {
      RejectedNested(c, current.fields, value.fields, path, owner, ledger, []);
    }
  }

  /** When every field is done, object, verdict and table are the ones the rule describes. */
  lemma FieldsDone(c: Context, current: Tree, update: Tree, path: Path, fallback: Option<Provenance>, ledger: Ledger,
      entries: Ledger)
    requires Progress(c, current, update, path, fallback, ledger, update.Keys, entries)
    ensures NestedTable(c, current, update, path, fallback, ledger, entries)
    ensures PartialFields(c, current, update, path, fallback, ledger, update.Keys)
      == NestedFields(c, current, update, path, fallback, ledger)
    ensures PartialAccepts(c, current, update, path, fallback, ledger, update.Keys)
      == NestedAccepts(c, current, update, path, fallback, ledger)
  {
    forall q
      ensures Find(entries, q) ==
        (if path <= q then NestedOwner(c, current, update, path, fallback, ledger, q[|path|..]) else Find(ledger, q))
    {
      assert Find(entries, q) == OwnerWhen(c, current, update, path, fallback, ledger, update.Keys, q);
      if path <= q {
        var r := q[|path|..];
        assert path + r == q;
        if r != [] {
          assert r[0] == q[|path|] && r[1..] == q[|path| + 1..];
        }
      }
    }
  }

  /** Merge one nested mapping, retaining ownership per field path. */
  method MergeNestedWithProvenance(c: Context, current: Tree, update: Tree, path: Path, fallback: Option<Provenance>,
      table: OwnerTable)
    returns (merged: Tree, accepted: bool)
    requires path != []
    modifies table
    ensures merged == NestedFields(c, current, update, path, fallback, old(table.entries))
    ensures accepted == NestedAccepts(c, current, update, path, fallback, old(table.entries))
    ensures NestedTable(c, current, update, path, fallback, old(table.entries), table.entries)
    decreases Obj(update), 0
  {
    ghost var ledger := table.entries;
    ghost var done: set<string> := {};
    merged, accepted := current, false;
    var todo := update.Keys;
    assert merged == PartialFields(c, current, update, path, fallback, ledger, {});
    while todo != {}
      invariant todo <= update.Keys && done == update.Keys - todo
      invariant Progress(c, current, update, path, fallback, ledger, done, table.entries)
      invariant merged == PartialFields(c, current, update, path, fallback, ledger, done)
      invariant accepted == PartialAccepts(c, current, update, path, fallback, ledger, done)
    {
      var key :| key in todo;
      ghost var before := table.entries;
      var result, taken := MergeField(c, Get(merged, key), update[key], path + [key],
        OwnerOf(table.entries, path + [key], fallback), table);
      assert Get(merged, key) == Get(current, key);
      FieldValueStep(c, current, update, path, fallback, ledger, done, before, key);
      FieldTableStep(c, current, update, path, fallback, ledger, done, before, table.entries, key);
      if taken {
        merged := merged[key := result];
        accepted := true;
      }
      todo, done := todo - {key}, done + {key};
    }
    assert done == update.Keys;
    FieldsDone(c, current, update, path, fallback, ledger, table.entries);
  }

  /** The body of the nested merge loop for one field. */
  method MergeField(c: Context, current: Value, value: Value, path: Path, owner: Option<Provenance>, table: OwnerTable)
    returns (result: Value, accepted: bool)
    requires path != []
    modifies table
    ensures result == NestedValue(c, current, value, path, owner, old(table.entries))
    ensures accepted == ValueAccepted(c, current, value, path, owner, old(table.entries))
    ensures ValueTable(c, current, value, path, owner, old(table.entries), table.entries)
    decreases value, 1
  {
    ghost var ledger := table.entries;
    if current.Obj? && value.Obj? {
      var nested;
      nested, accepted := MergeNestedWithProvenance(c, current.fields, value.fields, path, owner, table);
      result := Obj(nested);
      BothObjectsTable(c, current, value, path, owner, ledger, table.entries);
    } else if (Blank(value) && !Blank(current)) || KeepsCurrent(c, current, owner) {
      result, accepted := current, false;
      RejectedTable(c, current, value, path, owner, ledger);
    } else if value.Obj? {
      table.DropDescendants(path);
      var nested, _ := MergeNestedWithProvenance(c, map[], value.fields, path, None, table);
      ReplacedTable(c, current, value, path, owner, ledger, table.entries);
      table.entries := table.entries[path := c.incoming];
      result, accepted := Obj(nested), true;
    } else {
      if current.Obj? {
        table.DropDescendants(path);
      }
      ReplacedTable(c, current, value, path, owner, ledger, table.entries);
      table.entries := table.entries[path := c.incoming];
      result, accepted := value, true;
    }
  }

  // ---- The top level ----

  ghost predicate TopTable(c: Context, current: Value, value: Value, k: string, before: Ledger, after: Ledger) {
    forall q :: Find(after, q) == (if [k] <= q then TopOwner(c, current, value, k, before, q[1..]) else Find(before, q))
  }

  ghost predicate TopProgress(c: Context, current: Tree, update: Tree, ledger: Ledger, done: set<string>,
      entries: Ledger)
    requires done <= update.Keys
  {
    forall q :: Find(entries, q) ==
        (if q != [] && q[0] in done then TopOwner(c, Get(current, q[0]), update[q[0]], q[0], ledger, q[1..])
          else Find(ledger, q))
  }

  ghost function PartialTop(c: Context, current: Tree, update: Tree, ledger: Ledger, done: set<string>): Tree
    requires done <= update.Keys
  {
    map k | k in current.Keys + done ::
      if k in done then TopValue(c, Get(current, k), update[k], k, ledger) else current[k]
  }

  ghost function PartialAcceptedFields(c: Context, current: Tree, update: Tree, ledger: Ledger,
      done: set<string>): set<string>
    requires done <= update.Keys
  {
    set k | k in done && TopAccepted(c, Get(current, k), update[k], k, ledger)
  }

  lemma TopReadsBelow(c: Context, current: Value, value: Value, k: string, l: Ledger, m: Ledger, q: Path)
    requires AgreeBelow(l, m, [k])
    ensures TopValue(c, current, value, k, l) == TopValue(c, current, value, k, m)
    ensures TopAccepted(c, current, value, k, l) == TopAccepted(c, current, value, k, m)
    ensures TopOwner(c, current, value, k, l, q) == TopOwner(c, current, value, k, m, q)
  {
    assert Find(l, [k]) == Find(m, [k]);
    assert Find(l, [k] + q) == Find(m, [k] + q);
    if value.Obj? {
      if current.Obj? {
        NestedReadsBelow(c, current.fields, value.fields, [k], Find(l, [k]), l, m, q);
      } else {
        FreshObject(c, value.fields, [k], Drop(l, [k]), q);
        FreshObject(c, value.fields, [k], Drop(m, [k]), q);
      }
    } else {
      assert Find(Drop(l, [k]), [k] + q) == Find(Drop(m, [k]), [k] + q);
    }
  }

  lemma TopRejectedValue(c: Context, current: Value, value: Value, k: string, ledger: Ledger)
    requires !TopAccepted(c, current, value, k, ledger)
    ensures TopValue(c, current, value, k, ledger) == current
    ensures !Blank(current) || current.Obj?
  {
    if current.Obj? && value.Obj? {
      RejectedNested(c, current.fields, value.fields, [k], Find(ledger, [k]), ledger, []);
    }
  }

  lemma TopStep(c: Context, current: Tree, update: Tree, ledger: Ledger, done: set<string>, before: Ledger,
      after: Ledger, key: string)
    requires done <= update.Keys && key in update && key !in done
    requires TopProgress(c, current, update, ledger, done, before)
    requires TopTable(c, Get(current, key), update[key], key, before, after)
    ensures TopProgress(c, current, update, ledger, done + {key}, after)
    ensures var cv, v, m := Get(current, key), update[key], PartialTop(c, current, update, ledger, done);
      && Get(m, key) == cv
      && PartialTop(c, current, update, ledger, done + {key}) ==
           (if TopAccepted(c, cv, v, key, before) then m[key := TopValue(c, cv, v, key, before)] else m)
      && PartialAcceptedFields(c, current, update, ledger, done + {key}) ==
           PartialAcceptedFields(c, current, update, ledger, done)
             + (if TopAccepted(c, cv, v, key, before) then {key} else {})
  {
    var cv, v := Get(current, key), update[key];
    assert AgreeBelow(before, ledger, [key]);
    TopReadsBelow(c, cv, v, key, before, ledger, []);
    if !TopAccepted(c, cv, v, key, ledger) {
      TopRejectedValue(c, cv, v, key, ledger);
    }
    forall q
      ensures Find(after, q) ==
        (if q != [] && q[0] in done + {key} then TopOwner(c, Get(current, q[0]), update[q[0]], q[0], ledger, q[1..])
          else Find(ledger, q))
    {
      if q != [] && q[0] == key {
        assert q[..1] == [key];
        TopReadsBelow(c, cv, v, key, before, ledger, q[1..]);
      }
    }
  }

  lemma TopDone(c: Context, current: Tree, update: Tree, ledger: Ledger, entries: Ledger)
    requires TopProgress(c, current, update, ledger, update.Keys, entries)
    ensures entries == LedgerAfter(c, current, update, ledger)
    ensures PartialTop(c, current, update, ledger, update.Keys) == TopFields(c, current, update, ledger)
    ensures PartialAcceptedFields(c, current, update, ledger, update.Keys) == AcceptedFields(c, current, update, ledger)
  {
    var final := LedgerAfter(c, current, update, ledger);
    forall q ensures Find(entries, q) == Find(final, q) {
      if q != [] {
        StepOutcome(c, current, update, ledger, q);
      }
    }
    forall q ensures (q in entries <==> q in final) && (q in entries ==> entries[q] == final[q]) {
      assert Find(entries, q) == Find(final, q);
    }
  }

  /** The table after an object took the place of something else, or a value did. */
  lemma TopReplacedTable(c: Context, current: Value, value: Value, k: string, before: Ledger, after: Ledger)
    requires !(current.Obj? && value.Obj?) && !KeepsCurrent(c, current, Find(before, [k]))
    requires
      if value.Obj? then NestedTable(c, map[], value.fields, [k], None, Drop(before, [k]), after)
      else after == Drop(before, [k])
    ensures TopTable(c, current, value, k, before, after[[k] := c.incoming])
  {
    var final := after[[k] := c.incoming];
    forall q
      ensures Find(final, q) == (if [k] <= q then TopOwner(c, current, value, k, before, q[1..]) else Find(before, q))
    {
      if [k] <= q {
        assert [k] + q[1..] == q;
        assert q[1..] == [] <==> q == [k];
        if q != [k] && value.Obj? {
          assert Find(after, q) == NestedOwner(c, map[], value.fields, [k], None, Drop(before, [k]), q[1..]);
        }
      } else if value.Obj? {
        assert Find(after, q) == Find(Drop(before, [k]), q);
      }
    }
  }

  lemma TopObjectsTable(c: Context, current: Value, value: Value, k: string, before: Ledger, after: Ledger)
    requires current.Obj? && value.Obj?
    requires NestedTable(c, current.fields, value.fields, [k], Find(before, [k]), before, after)
    ensures var taken := TopAccepted(c, current, value, k, before) && !KeepsCurrent(c, current, Find(before, [k]));
      TopTable(c, current, value, k, before, if taken then after[[k] := c.incoming] else after)
  {
    var taken := TopAccepted(c, current, value, k, before) && !KeepsCurrent(c, current, Find(before, [k]));
    var final := if taken then after[[k] := c.incoming] else after;
    forall q
      ensures Find(final, q) == (if [k] <= q then TopOwner(c, current, value, k, before, q[1..]) else Find(before, q))
    {
      assert Find(after, q) ==
        (if [k] <= q then NestedOwner(c, current.fields, value.fields, [k], Find(before, [k]), before, q[1..])
          else Find(before, q));
      if [k] <= q {
        assert [k] + q[1..] == q;
        assert q[1..] == [] <==> q == [k];
      }
    }
  }

  lemma TopKeptTable(c: Context, current: Value, value: Value, k: string, before: Ledger)
    requires !(current.Obj? && value.Obj?) && KeepsCurrent(c, current, Find(before, [k]))
    ensures TopTable(c, current, value, k, before, before)
  {
    forall q | [k] <= q ensures Find(before, q) == TopOwner(c, current, value, k, before, q[1..]) {
      assert [k] + q[1..] == q;
    }
  }

  /** The body of the top-level loop for one field. */
  method IngestField(c: Context, current: Value, value: Value, field: string, table: OwnerTable)
    returns (result: Value, accepted: bool)
    modifies table
    ensures result == TopValue(c, current, value, field, old(table.entries))
    ensures accepted == TopAccepted(c, current, value, field, old(table.entries))
    ensures TopTable(c, current, value, field, old(table.entries), table.entries)
  {
    ghost var ledger := table.entries;
    var owner := Find(table.entries, [field]);
    if KeepsCurrent(c, current, owner) {
      if current.Obj? && value.Obj? {
        // A protected object may still be supplemented with fields it lacks.
        var supplemented;
        supplemented, accepted := MergeNestedWithProvenance(c, current.fields, value.fields, [field], owner, table);
        TopObjectsTable(c, current, value, field, ledger, table.entries);
        result := Obj(supplemented);
      } else {
        TopKeptTable(c, current, value, field, ledger);
        result, accepted := current, false;
      }
    } else if current.Obj? && value.Obj? {
      var nested;
      nested, accepted := MergeNestedWithProvenance(c, current.fields, value.fields, [field], owner, table);
      TopObjectsTable(c, current, value, field, ledger, table.entries);
      result := Obj(nested);
      if accepted {
        table.entries := table.entries[[field] := c.incoming];
      }
    } else {
      table.DropDescendants([field]);
      if value.Obj? {
        var nested, _ := MergeNestedWithProvenance(c, map[], value.fields, [field], None, table);
        result := Obj(nested);
      } else {
        result := value;
      }
      TopReplacedTable(c, current, value, field, ledger, table.entries);
      table.entries := table.entries[[field] := c.incoming];
      accepted := true;
    }
  }

  /** Apply one decoded observation with per-field provenance; neither input is changed. */
  method IngestObservation(a: Arrival, current: Tree, provenance: Ledger) returns (result: IngestResult)
    ensures State(result.payload, result.provenance) == Ingest(State(current, provenance), a)
    ensures result.acceptedFields == AcceptedFields(a.Ctx(), current, a.obs.payload, provenance)
  {
    var c, update := a.Ctx(), a.obs.payload;
    var table := new OwnerTable(provenance);
    var merged := current;
    var accepted: set<string> := {};
    ghost var done: set<string> := {};
    var todo := update.Keys;
    assert merged == PartialTop(c, current, update, provenance, {});
    while todo != {}
      invariant todo <= update.Keys && done == update.Keys - todo
      invariant fresh(table)
      invariant TopProgress(c, current, update, provenance, done, table.entries)
      invariant merged == PartialTop(c, current, update, provenance, done)
      invariant accepted == PartialAcceptedFields(c, current, update, provenance, done)
    {
      var field :| field in todo;
      ghost var before := table.entries;
      var value, taken := IngestField(c, Get(merged, field), update[field], field, table);
      assert Get(merged, field) == Get(current, field);
      TopStep(c, current, update, provenance, done, before, table.entries, field);
      if taken {
        merged := merged[field := value];
        accepted := accepted + {field};
      }
      todo, done := todo - {field}, done + {field};
    }
    assert done == update.Keys;
    TopDone(c, current, update, provenance, table.entries);
    result := IngestResult(merged, table.entries, accepted);
  }
}
