/**
 The deferred-cleanup lists of the runtime bucket: resources that could not be stopped yet.
 A cleanup loop takes a snapshot, awaits each resource and then reconciles the list, which
 may have grown in the meantime.  Resources are compared by identity.
 */
module DeferredList {

  /** The identity of a deferred client, task or coordinator. */
  type Handle = nat

  ghost predicate Distinct(s: seq<Handle>) {
    forall i, j :: 0 <= i < j < |s| ==> s[i] != s[j]
  }

  /** `a` stands before `b`. */
  ghost predicate Before(s: seq<Handle>, a: Handle, b: Handle) {
    exists i, j :: 0 <= i < j < |s| && s[i] == a && s[j] == b
  }

  predicate Keeps(processed: seq<Handle>, retained: seq<Handle>, x: Handle) {
    x !in processed || x in retained
  }

  function Surviving(current: seq<Handle>, processed: seq<Handle>, retained: seq<Handle>): seq<Handle> {
    if current == [] then []
    else
      Surviving(current[..|current| - 1], processed, retained)
      + if Keeps(processed, retained, current[|current| - 1]) then [current[|current| - 1]] else []
  }

  function AppendMissing(s: seq<Handle>, extra: seq<Handle>): seq<Handle> {
    if extra == [] then s
    else
      var t := AppendMissing(s, extra[..|extra| - 1]);
      var x := extra[|extra| - 1];
      if x in t then t else t + [x]
  }

  function Reconciled(current: seq<Handle>, processed: seq<Handle>, retained: seq<Handle>): seq<Handle> {
    AppendMissing(Surviving(current, processed, retained), retained)
  }

  /** The lists of one entry. */
  datatype ListKey = LocalMqttClients | TransportCoordinators | Layer5Tasks

  /** The part of the runtime bucket that holds the lists; a list that is empty is not stored. */
  class Bucket {
    var lists: map<ListKey, seq<Handle>>

    function Items(key: ListKey): seq<Handle>
      reads this
    {
      if key in lists then lists[key] else []
    }

    ghost predicate Valid()
      reads this
    {
      forall key :: key in lists ==> lists[key] != [] && Distinct(lists[key])
    }

    constructor ()
      ensures Valid() && lists == map[]
    {
      lists := map[];
    }

    /** `_append_supplemental_runtime_object`: keep one more resource for later. */
    method Append(key: ListKey, value: Handle)
      requires Valid()
      modifies this
      ensures Valid() && Items(key) == AppendMissing(old(Items(key)), [value])
      ensures forall other :: other != key ==> Items(other) == old(Items(other))
    {
      var values := Items(key);
      assert AppendMissing(values, [value][..0]) == values;
      AppendMissingMembers(values, [value]);
      if value !in values {
        values := values + [value];
      }
      lists := lists[key := values];
    }

    /** `_reconcile_supplemental_runtime_items`: drop what was processed, keep what was added meanwhile. */
    method Reconcile(key: ListKey, processed: seq<Handle>, retained: seq<Handle>)
      requires Valid()
      modifies this
      ensures Valid() && Items(key) == Reconciled(old(Items(key)), processed, retained)
      ensures forall other :: other != key ==> Items(other) == old(Items(other))
    {
      var current := Items(key);
      var reconciled: seq<Handle> := [];
      for i := 0 to |current|
        invariant reconciled == Surviving(current[..i], processed, retained)
      {
        assert current[..i + 1][..i] == current[..i];
        if current[i] !in processed || current[i] in retained {
          reconciled := reconciled + [current[i]];
        }
      }
      assert current[..|current|] == current;
      ghost var surviving := reconciled;
      for i := 0 to |retained|
        invariant reconciled == AppendMissing(surviving, retained[..i])
      {
        assert retained[..i + 1][..i] == retained[..i];
        if retained[i] !in reconciled {
          reconciled := reconciled + [retained[i]];
        }
      }
      assert retained[..|retained|] == retained;
      ReconciledMembers(current, processed, retained);
      lists := if reconciled == [] then lists - {key} else lists[key := reconciled];
    }
  }

  lemma {:induction false} SurvivingMembers(current: seq<Handle>, processed: seq<Handle>, retained: seq<Handle>)
    ensures forall x :: x in Surviving(current, processed, retained) <==> x in current && Keeps(processed, retained, x)
    ensures Distinct(current) ==> Distinct(Surviving(current, processed, retained))
  {
    if current != [] {
      var n := |current| - 1;
      SurvivingMembers(current[..n], processed, retained);
      assert current == current[..n] + [current[n]];
    }
  }

  lemma {:induction false} AppendMissingMembers(s: seq<Handle>, extra: seq<Handle>)
    ensures s <= AppendMissing(s, extra)
    ensures forall x :: x in AppendMissing(s, extra) <==> x in s || x in extra
    ensures Distinct(s) ==> Distinct(AppendMissing(s, extra))
  {
    if extra != [] {
      var n := |extra| - 1;
      AppendMissingMembers(s, extra[..n]);
      assert extra == extra[..n] + [extra[n]];
    }
  }

  /**
   Reconciliation is "current minus processed, plus retained": it forgets exactly the
   processed resources that are not retained, and introduces no duplicates.
   */
  lemma ReconciledMembers(current: seq<Handle>, processed: seq<Handle>, retained: seq<Handle>)
    ensures forall x ::
      x in Reconciled(current, processed, retained) <==> (x in current && x !in processed) || x in retained
    ensures Distinct(current) ==> Distinct(Reconciled(current, processed, retained))
  {
    SurvivingMembers(current, processed, retained);
    AppendMissingMembers(Surviving(current, processed, retained), retained);
  }

  lemma {:induction false} SurvivingKeepsOrder(current: seq<Handle>, processed: seq<Handle>, retained: seq<Handle>,
      a: Handle, b: Handle)
    requires Before(current, a, b) && Keeps(processed, retained, a) && Keeps(processed, retained, b)
    ensures Before(Surviving(current, processed, retained), a, b)
  {
    var i, j :| 0 <= i < j < |current| && current[i] == a && current[j] == b;
    var n := |current| - 1;
    var shorter := current[..n];
    var s := Surviving(shorter, processed, retained);
    SurvivingMembers(shorter, processed, retained);
    if j < n {
      assert shorter[i] == a && shorter[j] == b;
      SurvivingKeepsOrder(shorter, processed, retained, a, b);
      var k, l :| 0 <= k < l < |s| && s[k] == a && s[l] == b;
      assert Surviving(current, processed, retained)[k] == a && Surviving(current, processed, retained)[l] == b;
    } else {
      assert a in shorter by { assert shorter[i] == a; }
      var k :| 0 <= k < |s| && s[k] == a;
      assert Surviving(current, processed, retained) == s + [b];
      assert (s + [b])[k] == a && (s + [b])[|s|] == b;
    }
  }

  /** The resources that stay keep their relative order. */
  lemma ReconciledKeepsOrder(current: seq<Handle>, processed: seq<Handle>, retained: seq<Handle>, a: Handle, b: Handle)
    requires Before(current, a, b)
    requires (a !in processed || a in retained) && (b !in processed || b in retained)
    ensures Before(Reconciled(current, processed, retained), a, b)
  {
    SurvivingKeepsOrder(current, processed, retained, a, b);
    var s := Surviving(current, processed, retained);
    AppendMissingMembers(s, retained);
    var k, l :| 0 <= k < l < |s| && s[k] == a && s[l] == b;
    assert Reconciled(current, processed, retained)[k] == a && Reconciled(current, processed, retained)[l] == b;
  }

  /** A retained resource that someone else has removed meanwhile comes back behind everything that stayed. */
  lemma RetainedNewcomersComeLast(current: seq<Handle>, processed: seq<Handle>, retained: seq<Handle>,
      a: Handle, b: Handle)
    requires a in current && (a !in processed || a in retained) && b in retained && b !in current
    ensures Before(Reconciled(current, processed, retained), a, b)
  {
    var s, t := Surviving(current, processed, retained), Reconciled(current, processed, retained);
    SurvivingMembers(current, processed, retained);
    AppendMissingMembers(s, retained);
    var i :| 0 <= i < |s| && s[i] == a;
    var j :| 0 <= j < |t| && t[j] == b;
    assert b !in s && t[..|s|] == s && t[i] == a;
    assert j >= |s| by {
      assert t[j] !in t[..|s|];
    }
  }

  /**
   A resource appended while the loop was awaiting its snapshot is dropped only if it was in
   the snapshot already and has been judged stopped.
   */
  lemma ConcurrentAppendsSurviveExactly(snapshot: seq<Handle>, appended: seq<Handle>, retained: seq<Handle>, x: Handle)
    requires x in appended
    ensures x in Reconciled(AppendMissing(snapshot, appended), snapshot, retained) <==> x !in snapshot || x in retained
  {
    AppendMissingMembers(snapshot, appended);
    ReconciledMembers(AppendMissing(snapshot, appended), snapshot, retained);
  }
}
