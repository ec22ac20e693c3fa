/**
 The connection-neutral merge of live device properties (`merge_live_properties`): the
 update wins, except that a blank value never replaces a populated one.
 */
module LiveMerge {
  import opened Json

  function MergeLive(base: Tree, update: Tree): Tree
    decreases Obj(update), 0
  {
    map k | k in base.Keys + update.Keys ::
      if k in update then MergeValue(Get(base, k), update[k]) else base[k]
  }

  function MergeValue(current: Value, value: Value): Value
    decreases value, 1
  {
    if current.Obj? && value.Obj? then Obj(MergeLive(current.fields, value.fields))
    else if Blank(value) && !Blank(current) then current
    else value
  }

  /** The merge as the source runs it, visiting the keys of the update in any order. */
  method MergeLiveProperties(base: Tree, update: Tree) returns (merged: Tree)
    ensures merged == MergeLive(base, update)
    decreases Obj(update)
  {
    merged := base;
    var todo := update.Keys;
    while todo != {}
      invariant todo <= update.Keys
      invariant merged.Keys == base.Keys + (update.Keys - todo)
      invariant forall k :: k in merged ==>
        merged[k] == if k in update && k !in todo then MergeValue(Get(base, k), update[k]) else base[k]
    {
      var key :| key in todo;
      var value := update[key];
      var current := Get(merged, key);
      if current.Obj? && value.Obj? {
        var nested := MergeLiveProperties(current.fields, value.fields);
        merged := merged[key := Obj(nested)];
      } else if Blank(value) && !Blank(current) {
      } else {
        merged := merged[key := value];
      }
      todo := todo - {key};
    }
  }

  /** Merging one slot of the update over the same slot of the base. */
  function MergeSlot(s: Slot, t: Slot): Slot {
    match t
    case Missing => s
    case Branch => Branch
    case Leaf(v) => if Blank(v) && s.Leaf? && !Blank(s.value) then s else t
  }

  /** On trees of the same shape the recursive merge works path by path. */
  lemma {:induction false} MergeActsOnSlots(base: Tree, update: Tree, q: Path)
    requires Compatible(base, update)
    ensures SlotIn(MergeLive(base, update), q) == MergeSlot(SlotIn(base, q), SlotIn(update, q))
    decreases |q|
  {
    if q != [] {
      var k, r := q[0], q[1..];
      assert q == [k] + r;
      SlotBelow(base, k, r);
      SlotBelow(update, k, r);
      SlotBelow(MergeLive(base, update), k, r);
      if k in base && k in update {
        SameShapeAtKey(base, update, k);
        if base[k].Obj? {
          CompatibleFields(base, update, k);
          MergeActsOnSlots(base[k].fields, update[k].fields, r);
        }
      }
    }
  }

  /** Frames of the same shape may be merged in batches before they reach the state. */
  lemma MergeAssociative(a: Tree, b: Tree, c: Tree)
    requires Compatible(a, b) && Compatible(b, c) && Compatible(a, c)
    ensures MergeLive(MergeLive(a, b), c) == MergeLive(a, MergeLive(b, c))
  {
    var ab, bc := MergeLive(a, b), MergeLive(b, c);
    forall q: Path ensures SameShape(SlotIn(ab, q), SlotIn(c, q)) && SameShape(SlotIn(a, q), SlotIn(bc, q)) {
      MergeActsOnSlots(a, b, q);
      MergeActsOnSlots(b, c, q);
      assert SameShape(SlotIn(a, q), SlotIn(b, q)) && SameShape(SlotIn(b, q), SlotIn(c, q));
      assert SameShape(SlotIn(a, q), SlotIn(c, q));
    }
    forall q: Path ensures SlotIn(MergeLive(ab, c), q) == SlotIn(MergeLive(a, bc), q) {
      MergeActsOnSlots(a, b, q);
      MergeActsOnSlots(b, c, q);
      MergeActsOnSlots(ab, c, q);
      MergeActsOnSlots(a, bc, q);
      assert SameShape(SlotIn(a, q), SlotIn(b, q)) && SameShape(SlotIn(b, q), SlotIn(c, q));
      assert SameShape(SlotIn(a, q), SlotIn(c, q));
    }
    SlotsDetermineTree(MergeLive(ab, c), MergeLive(a, bc));
  }

  /**
   Whenever a frame in the middle replaces an object by a populated value and the last one brings
   an object again, batching the last two brings back fields that should have been forgotten.
   */
  lemma BatchingRemembers(a: Tree, b: Tree, c: Tree, k: string, x: string)
    requires k in a && k in b && k in c
    requires a[k].Obj? && !b[k].Obj? && !Blank(b[k]) && c[k].Obj? && c[k].fields != map[]
    requires x in a[k].fields && x !in c[k].fields
    ensures MergeLive(MergeLive(a, b), c) != MergeLive(a, MergeLive(b, c))
  {
    var left, right := MergeLive(MergeLive(a, b), c), MergeLive(a, MergeLive(b, c));
    assert MergeLive(a, b)[k] == MergeValue(a[k], b[k]) == b[k];
    assert left[k] == MergeValue(b[k], c[k]) == c[k];
    assert MergeLive(b, c)[k] == MergeValue(b[k], c[k]) == c[k];
    assert right[k] == MergeValue(a[k], c[k]) == Obj(MergeLive(a[k].fields, c[k].fields));
    assert x in right[k].fields;
  }

  /** So without a common shape, batching frames can change the outcome. */
  lemma MergeNotAssociativeAcrossShapes()
    ensures exists a: Tree, b: Tree, c: Tree ::
      MergeLive(MergeLive(a, b), c) != MergeLive(a, MergeLive(b, c))
  {
    var first: Tree, second: Tree := map["x" := Bool(true)], map["y" := Bool(true)];
    var a: Tree, b: Tree, c: Tree := map["k" := Obj(first)], map["k" := Bool(true)], map["k" := Obj(second)];
    assert "x" in first && "x" !in second && "y" in second;
    BatchingRemembers(a, b, c, "k", "x");
  }

  /** Delivering the same frame twice in a row has no further effect, whatever its shape. */
  lemma {:induction false} MergeIdempotent(base: Tree, update: Tree)
    ensures MergeLive(update, update) == update
    ensures MergeLive(MergeLive(base, update), update) == MergeLive(base, update)
    decreases Obj(update)
  {
    forall k | k in update
      ensures MergeValue(update[k], update[k]) == update[k]
      ensures MergeValue(MergeValue(Get(base, k), update[k]), update[k]) == MergeValue(Get(base, k), update[k])
    {
      if update[k].Obj? {
        var below: Tree := if Get(base, k).Obj? then Get(base, k).fields else map[];
        MergeIdempotent(below, update[k].fields);
      }
    }
  }

  /** The value at a path, if there is one. */
  function ValueAt(v: Value, q: Path): (r: Value)
    decreases |q|
  {
    if q == [] then v else if v.Obj? then ValueAt(Get(v.fields, q[0]), q[1..]) else Null
  }

  /**
   A populated value stays populated at every level.  It can only disappear because one
   of the objects around it was replaced as a whole by another populated value.
   */
  lemma {:induction false} MergeNeverBlanks(current: Value, value: Value, q: Path)
    requires !Blank(ValueAt(current, q))
    ensures var merged := MergeValue(current, value);
      || !Blank(ValueAt(merged, q))
      || exists n :: 0 <= n < |q| && !ValueAt(merged, q[..n]).Obj? && !Blank(ValueAt(merged, q[..n]))
    decreases |q|
  {
    var merged := MergeValue(current, value);
    if q != [] {
      assert current.Obj?;
      if value.Obj? {
        var k := q[0];
        assert merged == Obj(MergeLive(current.fields, value.fields));
        if k in value.fields {
          var below := MergeValue(Get(current.fields, k), value.fields[k]);
          assert Get(merged.fields, k) == below;
          MergeNeverBlanks(Get(current.fields, k), value.fields[k], q[1..]);
          if Blank(ValueAt(merged, q)) {
            var n :| 0 <= n < |q[1..]| && !ValueAt(below, q[1..][..n]).Obj? && !Blank(ValueAt(below, q[1..][..n]));
            assert q[..n + 1][1..] == q[1..][..n];
            assert ValueAt(merged, q[..n + 1]) == ValueAt(below, q[1..][..n]);
          }
        } else {
          assert Get(merged.fields, k) == Get(current.fields, k);
        }
      } else if Blank(value) && !Blank(current) {
      } else {
        assert q[..0] == [];
        assert ValueAt(merged, q[..0]) == value;
      }
    }
  }
}
