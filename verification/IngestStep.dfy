/**
 What one observation does at a single field path.  Every later result about the gate
 follows from the lemmas of this module.
 */
module IngestStep {
  import opened Wrappers
  import opened Json
  import opened IngestRule

  ghost predicate NothingBelow(ledger: Ledger, path: Path) {
    forall p :: p in ledger ==> !(path <= p && p != path)
  }

  /** An object put in place of something else arrives whole, and the sender owns all of it. */
  lemma {:induction false} FreshObject(c: Context, update: Tree, path: Path, ledger: Ledger, q: Path)
    requires path != [] && NothingBelow(ledger, path)
    ensures NestedFields(c, map[], update, path, None, ledger) == update
    ensures q != [] ==>
      NestedOwner(c, map[], update, path, None, ledger, q)
        == (if SlotIn(update, q) == Missing then None else Some(c.incoming))
    decreases Obj(update)
  {
    forall k | k in update
      ensures NestedValue(c, Null, update[k], path + [k], OwnerOf(ledger, path + [k], None), ledger) == update[k]
    {
      if update[k].Obj? {
        FreshObject(c, update[k].fields, path + [k], Drop(ledger, path + [k]), []);
      }
    }
    assert NestedFields(c, map[], update, path, None, ledger) == update;
    if q != [] && q[0] in update {
      var k, r := q[0], q[1..];
      assert q == [k] + r && path + q == path + [k] + r;
      SlotBelow(update, k, r);
      assert NestedOwner(c, map[], update, path, None, ledger, q)
        == ValueOwner(c, Null, update[k], path + [k], None, ledger, r);
      if update[k].Obj? && r != [] {
        FreshObject(c, update[k].fields, path + [k], Drop(ledger, path + [k]), r);
      }
    }
  }

  /** The three things that can happen to a path. */
  ghost predicate Outcome(before: Slot, update: Slot, after: Slot,
                          ownerBefore: Option<Provenance>, ownerAfter: Option<Provenance>, incoming: Provenance)
  {
    || (after == before && ownerAfter == ownerBefore)
    || (after == update && update != Missing && ownerAfter == Some(incoming))
    || (after == Missing && ownerAfter == None)
  }

  lemma {:induction false} NestedOutcome(c: Context, current: Tree, update: Tree, path: Path,
      fallback: Option<Provenance>, ledger: Ledger, q: Path)
    requires path != [] && q != []
    ensures Outcome(SlotIn(current, q), SlotIn(update, q),
                    SlotIn(NestedFields(c, current, update, path, fallback, ledger), q),
                    Find(ledger, path + q), NestedOwner(c, current, update, path, fallback, ledger, q), c.incoming)
    decreases Obj(update)
  {
    if q[0] in update {
      var k, r := q[0], q[1..];
      assert q == [k] + r && path + q == path + [k] + r;
      var cv, v, owner := Get(current, k), update[k], OwnerOf(ledger, path + [k], fallback);
      var merged := NestedFields(c, current, update, path, fallback, ledger);
      SlotBelow(current, k, r);
      SlotBelow(update, k, r);
      SlotBelow(merged, k, r);
      assert merged[k] == NestedValue(c, cv, v, path + [k], owner, ledger);
      assert NestedOwner(c, current, update, path, fallback, ledger, q)
        == ValueOwner(c, cv, v, path + [k], owner, ledger, r);
      if cv.Obj? && v.Obj? {
        if r != [] {
          NestedOutcome(c, cv.fields, v.fields, path + [k], owner, ledger, r);
        } else {
          assert SlotOf(merged[k], r) == SlotOf(cv, r) == Branch;
          assert NestedOwner(c, cv.fields, v.fields, path + [k], owner, ledger, r) == Find(ledger, path + q);
        }
      } else if Rejects(c, cv, v, owner) {
        assert k in current;
      } else if v.Obj? {
        FreshObject(c, v.fields, path + [k], Drop(ledger, path + [k]), r);
      }
    }
  }

  /** Whatever the frame and the state, each path is untouched, taken over or removed. */
  lemma StepOutcome(c: Context, current: Tree, update: Tree, ledger: Ledger, q: Path)
    requires q != []
    ensures Outcome(SlotIn(current, q), SlotIn(update, q), SlotIn(TopFields(c, current, update, ledger), q),
                    Find(ledger, q), OwnerAfter(c, current, update, ledger, q), c.incoming)
    ensures Find(LedgerAfter(c, current, update, ledger), q) == OwnerAfter(c, current, update, ledger, q)
  {
    if q[0] in update {
      var k, r := q[0], q[1..];
      assert q == [k] + r;
      var cv, v, owner := Get(current, k), update[k], Find(ledger, [k]);
      SlotBelow(current, k, r);
      SlotBelow(update, k, r);
      SlotBelow(TopFields(c, current, update, ledger), k, r);
      if cv.Obj? && v.Obj? {
        if r != [] {
          NestedOutcome(c, cv.fields, v.fields, [k], owner, ledger, r);
        }
      } else if KeepsCurrent(c, cv, owner) {
        assert k in current;
      } else if v.Obj? {
        FreshObject(c, v.fields, [k], Drop(ledger, [k]), r);
      }
    }
    PathsAreSlots(update, q);
  }

  // ---- Frames that agree with the state on which paths are objects ----

  /** The rule for one leaf path once no object turns into a value or back. */
  ghost predicate LeafRule(c: Context, before: Slot, update: Slot, after: Slot,
                           own: Option<Provenance>, ownerAfter: Option<Provenance>, nested: bool)
  {
    match update
    case Missing => after == before && (before.Leaf? ==> ownerAfter == own)
    case Branch => after == Branch
    case Leaf(v) =>
      var held := if before.Leaf? then before.value else Null;
      if (nested && Blank(v) && !Blank(held)) || KeepsCurrent(c, held, own) then after == before && ownerAfter == own
      else after == update && ownerAfter == Some(c.incoming)
  }

  lemma {:induction false} NestedLeafRule(c: Context, current: Tree, update: Tree, path: Path,
      fallback: Option<Provenance>, ledger: Ledger, q: Path)
    requires path != [] && q != []
    requires Compatible(current, update)
    requires SlotIn(current, q).Leaf? ==> path + q in ledger
    ensures LeafRule(c, SlotIn(current, q), SlotIn(update, q),
                     SlotIn(NestedFields(c, current, update, path, fallback, ledger), q),
                     Find(ledger, path + q), NestedOwner(c, current, update, path, fallback, ledger, q), true)
    decreases |q|
  {
    var k, r := q[0], q[1..];
    assert q == [k] + r && path + q == path + [k] + r;
    var merged := NestedFields(c, current, update, path, fallback, ledger);
    SlotBelow(current, k, r);
    SlotBelow(update, k, r);
    SlotBelow(merged, k, r);
    if k in update {
      var cv, v, owner := Get(current, k), update[k], OwnerOf(ledger, path + [k], fallback);
      assert merged[k] == NestedValue(c, cv, v, path + [k], owner, ledger);
      assert NestedOwner(c, current, update, path, fallback, ledger, q)
        == ValueOwner(c, cv, v, path + [k], owner, ledger, r);
      SameShapeAtKey(current, update, k);
      if cv.Obj? && v.Obj? {
        if r != [] {
          CompatibleFields(current, update, k);
          NestedLeafRule(c, cv.fields, v.fields, path + [k], owner, ledger, r);
        } else {
          assert SlotOf(merged[k], r) == Branch;
        }
      } else if v.Obj? {
        FreshObject(c, v.fields, path + [k], Drop(ledger, path + [k]), r);
      } else if r == [] {
        assert path + [k] == path + q;
        assert SlotOf(merged[k], r) == Leaf(merged[k]);
      } else {
        assert SlotOf(merged[k], r) == Missing;
      }
    }
  }

  lemma StepLeafRule(c: Context, current: Tree, update: Tree, ledger: Ledger, q: Path)
    requires q != []
    requires Compatible(current, update)
    requires SlotIn(current, q).Leaf? ==> q in ledger
    ensures LeafRule(c, SlotIn(current, q), SlotIn(update, q), SlotIn(TopFields(c, current, update, ledger), q),
                     Find(ledger, q), OwnerAfter(c, current, update, ledger, q), |q| > 1)
  {
    var k, r := q[0], q[1..];
    assert q == [k] + r;
    var merged := TopFields(c, current, update, ledger);
    SlotBelow(current, k, r);
    SlotBelow(update, k, r);
    SlotBelow(merged, k, r);
    if k in update {
      var cv, v := Get(current, k), update[k];
      assert merged[k] == TopValue(c, cv, v, k, ledger);
      assert OwnerAfter(c, current, update, ledger, q) == TopOwner(c, cv, v, k, ledger, r);
      SameShapeAtKey(current, update, k);
      if cv.Obj? && v.Obj? {
        if r != [] {
          CompatibleFields(current, update, k);
          NestedLeafRule(c, cv.fields, v.fields, [k], Find(ledger, [k]), ledger, r);
        } else {
          assert SlotOf(merged[k], r) == Branch;
        }
      } else if v.Obj? {
        FreshObject(c, v.fields, [k], Drop(ledger, [k]), r);
      } else if r == [] {
        assert [k] == q;
        assert SlotOf(merged[k], r) == Leaf(merged[k]);
      } else {
        assert SlotOf(merged[k], r) == Missing;
      }
    }
  }

  /** An object inside an object keeps its owner for as long as frames also show an object there. */
  lemma {:induction false} NestedObjectKeepsOwner(c: Context, current: Tree, update: Tree, path: Path,
      fallback: Option<Provenance>, ledger: Ledger, q: Path)
    requires SlotIn(current, q) == Branch && SlotIn(update, q) == Branch
    ensures NestedOwner(c, current, update, path, fallback, ledger, q) == Find(ledger, path + q)
    decreases |q|
  {
    if q != [] {
      var k, r := q[0], q[1..];
      assert q == [k] + r && path + q == path + [k] + r;
      SlotBelow(current, k, r);
      SlotBelow(update, k, r);
      NestedObjectKeepsOwner(c, current[k].fields, update[k].fields, path + [k],
        OwnerOf(ledger, path + [k], fallback), ledger, r);
      assert NestedOwner(c, current, update, path, fallback, ledger, q)
          == ValueOwner(c, current[k], update[k], path + [k], OwnerOf(ledger, path + [k], fallback), ledger, r);
    }
  }

  // ---- Arbitrary frames: what can happen to a protected leaf ----

  /** Every path present in the tree has an owner of its own. */
  ghost predicate Owned(t: Tree, path: Path, ledger: Ledger) {
    forall q: Path :: q != [] && SlotIn(t, q) != Missing ==> path + q in ledger
  }

  lemma OwnedBelow(t: Tree, path: Path, ledger: Ledger, k: string)
    requires Owned(t, path, ledger) && k in t
    ensures path + [k] in ledger
    ensures t[k].Obj? ==> Owned(t[k].fields, path + [k], ledger)
  {
    SlotBelow(t, k, []);
    assert [k] + [] == [k];
    assert SlotIn(t, [k]) != Missing;
    if t[k].Obj? {
      forall q: Path | q != [] && SlotIn(t[k].fields, q) != Missing ensures path + [k] + q in ledger {
        SlotBelow(t, k, q);
        assert path + ([k] + q) == path + [k] + q;
        assert SlotIn(t, [k] + q) != Missing;
      }
    }
  }

  /**
   Following `q` down the frame, the first non-object met above `q` itself is let through:
   it is not a blank inside an object, and the owner of the object it replaces gives no
   protection.
   */
  ghost predicate Breached(c: Context, update: Tree, path: Path, ledger: Ledger, q: Path)
    decreases |q|
  {
    && |q| > 1
    && q[0] in update
    && if update[q[0]].Obj? then Breached(c, update[q[0]].fields, path + [q[0]], ledger, q[1..])
       else !(path != [] && Blank(update[q[0]])) && !Protects(c, Find(ledger, path + [q[0]]))
  }

  lemma {:induction false} NestedProtectedLeaf(c: Context, current: Tree, update: Tree, path: Path,
      fallback: Option<Provenance>, ledger: Ledger, q: Path)
    requires path != [] && q != []
    requires Owned(current, path, ledger)
    requires SlotIn(current, q).Leaf? && !Blank(SlotIn(current, q).value)
    requires Protects(c, Find(ledger, path + q))
    ensures var after, owner :=
        SlotIn(NestedFields(c, current, update, path, fallback, ledger), q),
        NestedOwner(c, current, update, path, fallback, ledger, q);
      if Breached(c, update, path, ledger, q) then after == Missing
      else after == SlotIn(current, q) && owner == Find(ledger, path + q)
    decreases |q|
  {
    var k, r := q[0], q[1..];
    assert q == [k] + r && path + q == path + [k] + r;
    var merged := NestedFields(c, current, update, path, fallback, ledger);
    SlotBelow(current, k, r);
    SlotBelow(merged, k, r);
    OwnedBelow(current, path, ledger, k);
    if k in update {
      var cv, v, owner := current[k], update[k], OwnerOf(ledger, path + [k], fallback);
      assert merged[k] == NestedValue(c, cv, v, path + [k], owner, ledger);
      assert NestedOwner(c, current, update, path, fallback, ledger, q)
        == ValueOwner(c, cv, v, path + [k], owner, ledger, r);
      if cv.Obj? {
        assert r != [];
        NonBlankAround(cv.fields, r);
        if v.Obj? {
          NestedProtectedLeaf(c, cv.fields, v.fields, path + [k], owner, ledger, r);
        }
      } else {
        assert r == [] && path + [k] == path + q;
      }
    }
  }

  lemma NonBlankAround(t: Tree, q: Path)
    requires q != [] && SlotIn(t, q) != Missing
    ensures !Blank(Obj(t))
  {
    assert q[0] in t;
  }

  /**
   One observation that the owner of a populated leaf protects against leaves value and
   owner alone, unless the frame replaces an object around the leaf; then the leaf is gone.
   */
  lemma ProtectedLeafFate(c: Context, current: Tree, update: Tree, ledger: Ledger, q: Path)
    requires q != []
    requires Owned(current, [], ledger)
    requires SlotIn(current, q).Leaf? && !Blank(SlotIn(current, q).value)
    requires Protects(c, Find(ledger, q))
    ensures var after, owner := SlotIn(TopFields(c, current, update, ledger), q),
      OwnerAfter(c, current, update, ledger, q);
      if Breached(c, update, [], ledger, q) then after == Missing
      else after == SlotIn(current, q) && owner == Find(ledger, q)
  {
    var k, r := q[0], q[1..];
    assert q == [k] + r;
    var merged := TopFields(c, current, update, ledger);
    SlotBelow(current, k, r);
    SlotBelow(merged, k, r);
    OwnedBelow(current, [], ledger, k);
    assert [] + [k] == [k];
    if k in update {
      var cv, v := current[k], update[k];
      if cv.Obj? {
        assert r != [];
        NonBlankAround(cv.fields, r);
        if v.Obj? {
          NestedProtectedLeaf(c, cv.fields, v.fields, [k], Find(ledger, [k]), ledger, r);
        }
      } else {
        assert r == [] && [k] == q;
      }
    }
  }
}
