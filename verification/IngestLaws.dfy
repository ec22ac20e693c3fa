/**
 How the gate relates to the plain live merge: what a stale frame may still do, when the
 gate is the merge, and what `accepted_fields` frames.
 */
module IngestLaws {
  import opened Wrappers
  import opened Json
  import opened LiveMerge
  import opened IngestRule
  import opened IngestStep

  /** Equal up to exchanging one blank value for another, at any depth. */
  ghost predicate SameUpToBlanks(v: Value, w: Value)
    decreases v, 1
  {
    || v == w
    || (Blank(v) && Blank(w))
    || (v.Obj? && w.Obj? && FieldsSameUpToBlanks(v.fields, w.fields))
  }

  ghost predicate FieldsSameUpToBlanks(t: Tree, u: Tree)
    decreases Obj(t), 0
  {
    t.Keys == u.Keys && forall k :: k in t ==> SameUpToBlanks(t[k], u[k])
  }

  /** A live frame that is older than the freshness window. */
  ghost predicate Stale(c: Context) {
    !IsPeriodicSection(c.incoming.section) && IncomingIsStale(c)
  }

  lemma {:induction false} StaleNested(c: Context, current: Tree, update: Tree, path: Path,
      fallback: Option<Provenance>, ledger: Ledger)
    requires Stale(c) && path != []
    ensures FieldsSameUpToBlanks(NestedFields(c, current, update, path, fallback, ledger), MergeLive(update, current))
    decreases Obj(update)
  {
    var merged, filled := NestedFields(c, current, update, path, fallback, ledger), MergeLive(update, current);
    forall k | k in merged ensures SameUpToBlanks(merged[k], filled[k]) {
      if k in update {
        var cv, v, owner := Get(current, k), update[k], OwnerOf(ledger, path + [k], fallback);
        assert merged[k] == NestedValue(c, cv, v, path + [k], owner, ledger);
        assert filled[k] == if k in current then MergeValue(v, cv) else v;
        if cv.Obj? && v.Obj? {
          StaleNested(c, cv.fields, v.fields, path + [k], owner, ledger);
          assert SameUpToBlanks(merged[k], filled[k]);
        } else {
          if v.Obj? {
            FreshObject(c, v.fields, path + [k], Drop(ledger, path + [k]), []);
          }
          assert merged[k] == if Blank(cv) then v else cv;
        }
      } else {
        assert filled[k] == MergeValue(Null, current[k]) == current[k];
      }
    }
  }

  /** A stale live frame has the effect of merging the current payload over it: it only fills gaps. */
  lemma StaleFrameFillsGaps(c: Context, current: Tree, update: Tree, ledger: Ledger)
    requires Stale(c)
    ensures FieldsSameUpToBlanks(TopFields(c, current, update, ledger), MergeLive(update, current))
  {
    var merged, filled := TopFields(c, current, update, ledger), MergeLive(update, current);
    forall k | k in merged ensures SameUpToBlanks(merged[k], filled[k]) {
      if k in update {
        var cv, v := Get(current, k), update[k];
        assert merged[k] == TopValue(c, cv, v, k, ledger);
        if cv.Obj? && v.Obj? {
          StaleNested(c, cv.fields, v.fields, [k], Find(ledger, [k]), ledger);
        } else if v.Obj? {
          FreshObject(c, v.fields, [k], Drop(ledger, [k]), []);
        }
      }
    }
  }

  /** In particular a stale live frame changes no populated value, whatever the shapes. */
  lemma {:induction false} StaleNestedKeepsPopulated(c: Context, current: Tree, update: Tree, path: Path,
      fallback: Option<Provenance>, ledger: Ledger, q: Path)
    requires Stale(c) && path != []
    requires SlotIn(current, q).Leaf? && !Blank(SlotIn(current, q).value)
    ensures SlotIn(NestedFields(c, current, update, path, fallback, ledger), q) == SlotIn(current, q)
    decreases |q|
  {
    var k, r := q[0], q[1..];
    assert q == [k] + r;
    var merged := NestedFields(c, current, update, path, fallback, ledger);
    SlotBelow(current, k, r);
    SlotBelow(merged, k, r);
    if k in update {
      var owner := OwnerOf(ledger, path + [k], fallback);
      assert merged[k] == NestedValue(c, current[k], update[k], path + [k], owner, ledger);
      if current[k].Obj? && update[k].Obj? {
        StaleNestedKeepsPopulated(c, current[k].fields, update[k].fields, path + [k], owner, ledger, r);
      } else if current[k].Obj? {
        NonBlankAround(current[k].fields, r);
      }
    }
  }

  lemma StaleFrameKeepsPopulated(c: Context, current: Tree, update: Tree, ledger: Ledger, q: Path)
    requires Stale(c)
    requires SlotIn(current, q).Leaf? && !Blank(SlotIn(current, q).value)
    ensures SlotIn(TopFields(c, current, update, ledger), q) == SlotIn(current, q)
  {
    var k, r := q[0], q[1..];
    assert q == [k] + r;
    var merged := TopFields(c, current, update, ledger);
    SlotBelow(current, k, r);
    SlotBelow(merged, k, r);
    if k in update {
      assert merged[k] == TopValue(c, current[k], update[k], k, ledger);
      if current[k].Obj? && update[k].Obj? {
        StaleNestedKeepsPopulated(c, current[k].fields, update[k].fields, [k], Find(ledger, [k]), ledger, r);
      } else if current[k].Obj? {
        NonBlankAround(current[k].fields, r);
      }
    }
  }

  // ---- When the gate is the plain merge ----

  lemma {:induction false} UnguardedNested(c: Context, current: Tree, update: Tree, path: Path,
      fallback: Option<Provenance>, ledger: Ledger)
    requires c.window <= 0.0 && c.incoming.observedAt == None && path != []
    ensures NestedFields(c, current, update, path, fallback, ledger) == MergeLive(current, update)
    decreases Obj(update)
  {
    forall k | k in update
      ensures NestedValue(c, Get(current, k), update[k], path + [k], OwnerOf(ledger, path + [k], fallback), ledger)
           == MergeValue(Get(current, k), update[k])
    {
      var cv, v, owner := Get(current, k), update[k], OwnerOf(ledger, path + [k], fallback);
      if cv.Obj? && v.Obj? {
        UnguardedNested(c, cv.fields, v.fields, path + [k], owner, ledger);
      } else if v.Obj? {
        FreshObject(c, v.fields, path + [k], Drop(ledger, path + [k]), []);
      }
    }
  }

  /** A blank top-level value meets a populated one, and they are not both objects. */
  ghost predicate BlanksTopLevel(current: Tree, update: Tree, k: string) {
    && k in update
    && Blank(update[k]) && !Blank(Get(current, k))
    && !(update[k].Obj? && Get(current, k).Obj?)
  }

  /**
   Without a window and without a timestamp the gate is `merge_live_properties`, except for
   its missing blank check at the top level: the two agree if and only if no blank
   top-level value meets a populated one.
   */
  lemma GateIsMergeExactly(c: Context, current: Tree, update: Tree, ledger: Ledger)
    requires c.window <= 0.0 && c.incoming.observedAt == None
    ensures TopFields(c, current, update, ledger) == MergeLive(current, update)
      <==> forall k :: !BlanksTopLevel(current, update, k)
  {
    var merged, plain := TopFields(c, current, update, ledger), MergeLive(current, update);
    forall k | k in update
      ensures merged[k] == plain[k] <==> !BlanksTopLevel(current, update, k)
    {
      var cv, v := Get(current, k), update[k];
      assert merged[k] == TopValue(c, cv, v, k, ledger) && plain[k] == MergeValue(cv, v);
      if cv.Obj? && v.Obj? {
        UnguardedNested(c, cv.fields, v.fields, [k], Find(ledger, [k]), ledger);
      } else if v.Obj? {
        FreshObject(c, v.fields, [k], Drop(ledger, [k]), []);
      }
    }
    assert merged.Keys == plain.Keys;
    if forall k :: !BlanksTopLevel(current, update, k) {
      assert forall k :: k in merged ==> merged[k] == plain[k];
    }
  }

  /** For every frame: a populated top-level field turns blank exactly when a blank is let through. */
  lemma GateBlanksExactly(c: Context, current: Tree, update: Tree, ledger: Ledger, k: string)
    requires k in current && !Blank(current[k])
    ensures Blank(TopFields(c, current, update, ledger)[k])
      <==> BlanksTopLevel(current, update, k) && !Protects(c, Find(ledger, [k]))
  {
    if k in update {
      var cv, v := current[k], update[k];
      assert TopFields(c, current, update, ledger)[k] == TopValue(c, cv, v, k, ledger);
      if cv.Obj? && v.Obj? {
        var j :| j in cv.fields;
        assert j in NestedFields(c, cv.fields, v.fields, [k], Find(ledger, [k]), ledger);
      } else if v.Obj? {
        FreshObject(c, v.fields, [k], Drop(ledger, [k]), []);
      }
    }
  }

  // ---- Accepted fields ----

  lemma {:induction false} RejectedNested(c: Context, current: Tree, update: Tree, path: Path,
      fallback: Option<Provenance>, ledger: Ledger, q: Path)
    requires !NestedAccepts(c, current, update, path, fallback, ledger)
    ensures NestedFields(c, current, update, path, fallback, ledger) == current
    ensures NestedOwner(c, current, update, path, fallback, ledger, q) == Find(ledger, path + q)
    decreases Obj(update)
  {
    forall k | k in update
      ensures k in current
      ensures NestedValue(c, Get(current, k), update[k], path + [k], OwnerOf(ledger, path + [k], fallback), ledger)
        == current[k]
    {
      var cv, v, owner := Get(current, k), update[k], OwnerOf(ledger, path + [k], fallback);
      assert !ValueAccepted(c, cv, v, path + [k], owner, ledger);
      if cv.Obj? && v.Obj? {
        RejectedNested(c, cv.fields, v.fields, path + [k], owner, ledger, []);
      }
    }
    if q != [] && q[0] in update {
      var k, r := q[0], q[1..];
      assert path + q == path + [k] + r;
      var cv, v, owner := Get(current, k), update[k], OwnerOf(ledger, path + [k], fallback);
      assert !ValueAccepted(c, cv, v, path + [k], owner, ledger);
      if cv.Obj? && v.Obj? {
        RejectedNested(c, cv.fields, v.fields, path + [k], owner, ledger, r);
      }
    }
  }

  /** Fields that were not accepted keep their value and every owner at or below them. */
  lemma AcceptedFieldsFrameEverything(c: Context, current: Tree, update: Tree, ledger: Ledger, k: string, q: Path)
    requires k !in AcceptedFields(c, current, update, ledger)
    ensures var merged := TopFields(c, current, update, ledger);
      (k in merged <==> k in current) && (k in current ==> merged[k] == current[k])
    ensures OwnerAfter(c, current, update, ledger, [k] + q) == Find(ledger, [k] + q)
  {
    assert ([k] + q)[0] == k && ([k] + q)[1..] == q;
    if k in update {
      var cv, v := Get(current, k), update[k];
      assert !TopAccepted(c, cv, v, k, ledger);
      if cv.Obj? && v.Obj? {
        RejectedNested(c, cv.fields, v.fields, [k], Find(ledger, [k]), ledger, q);
      }
    }
  }

  lemma {:induction false} NestedAcceptTakes(c: Context, current: Tree, update: Tree, path: Path,
      fallback: Option<Provenance>, ledger: Ledger) returns (q: Path)
    requires NestedAccepts(c, current, update, path, fallback, ledger)
    ensures q != [] && SlotIn(update, q) != Missing
    ensures NestedOwner(c, current, update, path, fallback, ledger, q) == Some(c.incoming)
    decreases Obj(update)
  {
    var k :| k in update &&
      ValueAccepted(c, Get(current, k), update[k], path + [k], OwnerOf(ledger, path + [k], fallback), ledger);
    var cv, v, owner := Get(current, k), update[k], OwnerOf(ledger, path + [k], fallback);
    var r: Path := [];
    if cv.Obj? && v.Obj? {
      r := NestedAcceptTakes(c, cv.fields, v.fields, path + [k], owner, ledger);
    }
    q := [k] + r;
    SlotBelow(update, k, r);
    assert q[0] == k && q[1..] == r;
    assert NestedOwner(c, current, update, path, fallback, ledger, q)
      == ValueOwner(c, cv, v, path + [k], owner, ledger, r);
  }

  /** Conversely, an accepted field took something of the frame over: the sender owns a path of it now. */
  lemma AcceptedFieldsWereTaken(c: Context, current: Tree, update: Tree, ledger: Ledger, k: string) returns (q: Path)
    requires k in AcceptedFields(c, current, update, ledger)
    ensures SlotIn(update, [k] + q) != Missing && OwnerAfter(c, current, update, ledger, [k] + q) == Some(c.incoming)
  {
    var cv, v, owner := Get(current, k), update[k], Find(ledger, [k]);
    q := [];
    if cv.Obj? && v.Obj? && KeepsCurrent(c, cv, owner) {
      q := NestedAcceptTakes(c, cv.fields, v.fields, [k], owner, ledger);
    }
    SlotBelow(update, k, q);
    assert ([k] + q)[1..] == q;
    assert OwnerAfter(c, current, update, ledger, [k] + q) == TopOwner(c, cv, v, k, ledger, q);
  }
}
