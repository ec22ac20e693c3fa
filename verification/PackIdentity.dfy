/**
 Seeding the session's pack identities of one parent device from the serials stored in the
 device registry: which pack index each serial gets.
 */
module PackIdentity {
  import opened Wrappers
  import opened SerialKeys
  import opened PackOrder

  const MAX_INDEX: nat := 5

  /**
   What is known of one parent: the stored records, the serials of the live payload by
   position, the indices still owned by unmigrated devices, and whether the live payload is
   a confirmed complete topology.
   */
  datatype Parent = Parent(records: seq<Record>, live: Live, protected: set<nat>, complete: bool)

  type Live = seq<Option<string>>

  datatype Assignment = Assignment(index: nat, serial: string)

  /** The assignments of the first pass, and the keys it refused. */
  datatype Seats = Seats(given: seq<Assignment>, blocked: set<string>)

  function Observed(live: Live, i: nat): Option<string> {
    if 1 <= i <= |live| then live[i - 1] else None
  }

  function IndexOrOne(r: Record): nat {
    if r.index.Some? && r.index.value != 0 then r.index.value else 1
  }

  /** The last index up to `n` whose observed serial has the token. */
  function LiveIndex(live: Live, token: string, n: nat): Option<nat> {
    if n == 0 then None
    else if Observed(live, n).Some? && Token(Observed(live, n).value, n) == token then Some(n)
    else LiveIndex(live, token, n - 1)
  }

  /** The indices up to `n` whose observed serial has the key. */
  function KeyIndices(live: Live, key: string, n: nat): seq<nat> {
    if n == 0 then []
    else
      var here := Observed(live, n).Some? && StableKey(Observed(live, n).value, n) == key;
      KeyIndices(live, key, n - 1) + if here then [n] else []
  }

  predicate Ambiguous(live: Live, key: string) {
    |KeyIndices(live, key, MAX_INDEX)| > 1
  }

  function LiveFor(live: Live, r: Record): Option<nat> {
    LiveIndex(live, Token(r.serial, IndexOrOne(r)), MAX_INDEX)
  }

  function Stored(rs: seq<Record>): set<nat> {
    set r | r in rs && r.index.Some? :: r.index.value
  }

  function Seen(live: Live): set<nat> {
    set i | 1 <= i <= MAX_INDEX && Observed(live, i).Some?
  }

  function Taken(given: seq<Assignment>): set<nat> {
    set a | a in given :: a.index
  }

  function KeysOf(given: seq<Assignment>): set<string> {
    set a | a in given :: StableKey(a.serial, a.index)
  }

  /** The index the first pass tries for a record. */
  function Claim(p: Parent, r: Record): Option<nat> {
    var live := LiveFor(p.live, r);
    var index := if r.index.Some? then r.index else live;
    if live.None? && p.complete then None else index
  }

  function FirstStep(p: Parent, s: Seats, r: Record): Seats {
    match Claim(p, r)
    case None => s
    case Some(i) =>
      var key := StableKey(r.serial, i);
      if Ambiguous(p.live, key) || i in p.protected || i in Taken(s.given)
        || (r.index.None? && i in Stored(p.records)) then
        s.(blocked := s.blocked + {key})
      else
        s.(given := s.given + [Assignment(i, r.serial)])
  }

  function FirstPass(p: Parent, rs: seq<Record>): Seats {
    if rs == [] then Seats([], {}) else FirstStep(p, FirstPass(p, rs[..|rs| - 1]), rs[|rs| - 1])
  }

  function Used(p: Parent, first: Seats): set<nat> {
    p.protected + Stored(p.records) + Taken(first.given) + Seen(p.live)
  }

  /** The indices from `i` on that are not used, in ascending order. */
  function FreeFrom(used: set<nat>, i: nat): seq<nat>
    decreases MAX_INDEX + 1 - i
  {
    if i > MAX_INDEX then [] else (if i in used then [] else [i]) + FreeFrom(used, i + 1)
  }

  function SecondStep(p: Parent, first: Seats, extra: seq<Assignment>, r: Record): seq<Assignment> {
    var live := LiveFor(p.live, r);
    if live.None? then extra
    else
      var key := StableKey(r.serial, live.value);
      var free := FreeFrom(Used(p, first) + Taken(extra), 1);
      if key in KeysOf(first.given) || key in first.blocked || Ambiguous(p.live, key) || free == [] then extra
      else extra + [Assignment(free[0], r.serial)]
  }

  function SecondPass(p: Parent, first: Seats, rs: seq<Record>): seq<Assignment> {
    if rs == [] then [] else SecondStep(p, first, SecondPass(p, first, rs[..|rs| - 1]), rs[|rs| - 1])
  }

  predicate DistinctKeys(rs: seq<Record>) {
    forall i, j :: 0 <= i < j < |rs| ==>
      StableKey(rs[i].serial, IndexOrOne(rs[i])) != StableKey(rs[j].serial, IndexOrOne(rs[j]))
  }

  /** Everything that one parent's seeding assigns. */
  function Seeded(p: Parent): seq<Assignment> {
    if !DistinctKeys(p.records) then []
    else
      var rs := Sorted(p.records);
      FirstPass(p, rs).given + SecondPass(p, FirstPass(p, rs), rs)
  }

  /** No serial is without letters and digits, so that each key belongs to its serial alone. */
  predicate RealSerials(rs: seq<Record>) {
    forall r :: r in rs ==> Normalized(r.serial) != ""
  }

  ghost predicate DistinctIndices(given: seq<Assignment>) {
    forall i, j :: 0 <= i < j < |given| ==> given[i].index != given[j].index
  }

  ghost predicate DistinctAssignedKeys(given: seq<Assignment>) {
    forall i, j :: 0 <= i < j < |given| ==>
      StableKey(given[i].serial, given[i].index) != StableKey(given[j].serial, given[j].index)
  }

  /** In a confirmed complete topology a record needs a live pack. */
  predicate Placeable(p: Parent, r: Record) {
    p.complete ==> LiveFor(p.live, r).Some?
  }

  /** Every assigned serial is that of a record in `rs` that may be placed. */
  ghost predicate FromRecords(p: Parent, given: seq<Assignment>, rs: seq<Record>) {
    forall a :: a in given ==> exists r :: r in rs && r.serial == a.serial && Placeable(p, r)
  }

  lemma DistinctKeysDistinctSerials(rs: seq<Record>)
    requires RealSerials(rs)
    ensures DistinctKeys(rs) <==>
      forall i, j :: 0 <= i < j < |rs| ==> Normalized(rs[i].serial) != Normalized(rs[j].serial)
    ensures DistinctKeys(rs) ==> DistinctSerials(rs)
  {
    forall i, j | 0 <= i < j < |rs|
      ensures (StableKey(rs[i].serial, IndexOrOne(rs[i])) == StableKey(rs[j].serial, IndexOrOne(rs[j])))
          <==> (Normalized(rs[i].serial) == Normalized(rs[j].serial))
    {
      assert rs[i] in rs && rs[j] in rs;
      KeysEqual(rs[i].serial, IndexOrOne(rs[i]), rs[j].serial, IndexOrOne(rs[j]));
    }
  }

  lemma KeysEqual(s: string, i: nat, t: string, j: nat)
    requires Normalized(s) != "" && Normalized(t) != ""
    ensures StableKey(s, i) == StableKey(t, j) <==> Normalized(s) == Normalized(t)
  {
    assert StableKey(s, i)[|PREFIX|..] == Normalized(s);
    assert StableKey(t, j)[|PREFIX|..] == Normalized(t);
  }

  /** What holds of the assignments after both passes have seen the records `rs`. */
  ghost predicate Sound(p: Parent, given: seq<Assignment>, rs: seq<Record>) {
    && DistinctIndices(given) && DistinctAssignedKeys(given) && FromRecords(p, given, rs)
    && forall a :: a in given ==> a.index !in p.protected && !Ambiguous(p.live, StableKey(a.serial, a.index))
  }

  /** One more assignment, for a serial whose key has none yet. */
  lemma AssignmentKeepsSound(p: Parent, given: seq<Assignment>, rs: seq<Record>, r: Record, i: nat)
    requires Sound(p, given, rs)
    requires i !in Taken(given) && StableKey(r.serial, i) !in KeysOf(given)
    requires i !in p.protected && !Ambiguous(p.live, StableKey(r.serial, i)) && Placeable(p, r)
    ensures Sound(p, given + [Assignment(i, r.serial)], rs + [r])
  {
    var more := given + [Assignment(i, r.serial)];
    forall k, l | 0 <= k < l < |more|
      ensures more[k].index != more[l].index
      ensures StableKey(more[k].serial, more[k].index) != StableKey(more[l].serial, more[l].index)
    {
      assert more[k] == given[k];
      if l == |given| {
        assert given[k] in given;
        assert given[k].index in Taken(given) && StableKey(given[k].serial, given[k].index) in KeysOf(given);
      }
    }
    OneMoreFromRecords(p, given, rs, r, i);
  }

  lemma WiderRecords(p: Parent, given: seq<Assignment>, rs: seq<Record>, r: Record)
    requires FromRecords(p, given, rs)
    ensures FromRecords(p, given, rs + [r])
  {
    forall a | a in given ensures exists q :: q in rs + [r] && q.serial == a.serial && Placeable(p, q) {
      var q :| q in rs && q.serial == a.serial && Placeable(p, q);
      assert q in rs + [r];
    }
  }

  lemma OneMoreFromRecords(p: Parent, given: seq<Assignment>, rs: seq<Record>, r: Record, i: nat)
    requires FromRecords(p, given, rs) && Placeable(p, r)
    ensures FromRecords(p, given + [Assignment(i, r.serial)], rs + [r])
  {
    WiderRecords(p, given, rs, r);
    assert r in rs + [r];
  }

  /** The key of a further record is new to assignments that stem from earlier records. */
  lemma KeyIsNew(p: Parent, given: seq<Assignment>, rs: seq<Record>, r: Record, i: nat)
    requires FromRecords(p, given, rs) && RealSerials(rs + [r]) && DistinctKeys(rs + [r])
    ensures StableKey(r.serial, i) !in KeysOf(given)
  {
    var all := rs + [r];
    DistinctKeysDistinctSerials(all);
    forall a | a in given ensures StableKey(a.serial, a.index) != StableKey(r.serial, i) {
      var q :| q in rs && q.serial == a.serial;
      var k :| 0 <= k < |rs| && rs[k] == q;
      assert all[k] == q && all[|rs|] == r && q in all && r in all;
      KeysEqual(q.serial, a.index, r.serial, i);
    }
  }

  lemma {:induction false} FirstPassIsSound(p: Parent, rs: seq<Record>)
    requires RealSerials(rs) && DistinctKeys(rs)
    ensures Sound(p, FirstPass(p, rs).given, rs)
  {
    if rs != [] {
      var n := |rs| - 1;
      assert rs == rs[..n] + [rs[n]];
      FirstPassIsSound(p, rs[..n]);
      var s := FirstPass(p, rs[..n]);
      WiderRecords(p, s.given, rs[..n], rs[n]);
      match Claim(p, rs[n])
      case None =>
      case Some(i) =>
        if FirstPass(p, rs).given != s.given {
          KeyIsNew(p, s.given, rs[..n], rs[n], i);
          AssignmentKeepsSound(p, s.given, rs[..n], rs[n], i);
        }
    }
  }

  lemma {:induction false} FreeFromMember(used: set<nat>, i: nat, k: nat)
    ensures k in FreeFrom(used, i) <==> i <= k <= MAX_INDEX && k !in used
    decreases MAX_INDEX + 1 - i
  {
    if i <= MAX_INDEX {
      FreeFromMember(used, i + 1, k);
      var head := if i in used then [] else [i];
      assert FreeFrom(used, i) == head + FreeFrom(used, i + 1);
      assert k in head <==> k == i && i !in used;
    }
  }

  lemma FreeFromMembers(used: set<nat>, i: nat)
    ensures forall k: nat :: k in FreeFrom(used, i) <==> i <= k <= MAX_INDEX && k !in used
  {
    forall k: nat ensures k in FreeFrom(used, i) <==> i <= k <= MAX_INDEX && k !in used {
      FreeFromMember(used, i, k);
    }
  }

  /** Using up the lowest free index leaves exactly the others. */
  lemma {:induction false} FreeFromRest(used: set<nat>, i: nat)
    requires FreeFrom(used, i) != []
    ensures FreeFrom(used + {FreeFrom(used, i)[0]}, i) == FreeFrom(used, i)[1..]
    ensures forall k :: i <= k <= MAX_INDEX && k !in used ==> FreeFrom(used, i)[0] <= k
    decreases MAX_INDEX + 1 - i
  {
    if i in used {
      FreeFromRest(used, i + 1);
    } else {
      FreeFromSame(used, used + {i}, i + 1);
    }
  }

  lemma {:induction false} FreeFromSame(used: set<nat>, more: set<nat>, i: nat)
    requires forall k :: i <= k ==> (k in used <==> k in more)
    ensures FreeFrom(used, i) == FreeFrom(more, i)
    decreases MAX_INDEX + 1 - i
  {
    if i <= MAX_INDEX {
      FreeFromSame(used, more, i + 1);
    }
  }

  lemma SecondStepIsSafe(p: Parent, first: Seats, extra: seq<Assignment>, r: Record)
    requires Normalized(r.serial) != "" && SecondStep(p, first, extra, r) != extra
    ensures var more := SecondStep(p, first, extra, r);
      && |more| == |extra| + 1 && var i := more[|extra|].index;
      && more == extra + [Assignment(i, r.serial)]
      && 1 <= i <= MAX_INDEX && i !in Used(p, first) + Taken(extra)
      && StableKey(r.serial, i) !in KeysOf(first.given) && !Ambiguous(p.live, StableKey(r.serial, i))
      && StableKey(r.serial, i) !in first.blocked && Placeable(p, r)
  {
    var used := Used(p, first) + Taken(extra);
    var free := FreeFrom(used, 1);
    FreeFromMembers(used, 1);
    assert free[0] in free;
    assert StableKey(r.serial, free[0]) == StableKey(r.serial, LiveFor(p.live, r).value);
  }

  ghost predicate WasFree(p: Parent, first: Seats, extra: seq<Assignment>) {
    forall a :: a in extra ==> 1 <= a.index <= MAX_INDEX && a.index !in Used(p, first)
  }

  lemma PlacingKeepsSound(p: Parent, first: Seats, all: seq<Record>, r: Record, extra: seq<Assignment>, i: nat)
    requires Sound(p, first.given + extra, all)
    requires i !in Used(p, first) + Taken(extra) && Placeable(p, r)
    requires StableKey(r.serial, i) !in KeysOf(first.given) + KeysOf(extra)
    requires !Ambiguous(p.live, StableKey(r.serial, i))
    ensures Sound(p, first.given + (extra + [Assignment(i, r.serial)]), all + [r])
  {
    assert Taken(first.given + extra) == Taken(first.given) + Taken(extra);
    assert KeysOf(first.given + extra) == KeysOf(first.given) + KeysOf(extra);
    AssignmentKeepsSound(p, first.given + extra, all, r, i);
    assert first.given + (extra + [Assignment(i, r.serial)]) == (first.given + extra) + [Assignment(i, r.serial)];
  }

  lemma SecondStepKeepsSound(p: Parent, first: Seats, all: seq<Record>, shorter: seq<Record>, r: Record,
      extra: seq<Assignment>)
    requires RealSerials(shorter + [r]) && DistinctKeys(shorter + [r])
    requires Sound(p, first.given + extra, all + shorter)
    requires FromRecords(p, extra, shorter) && WasFree(p, first, extra)
    ensures var more := SecondStep(p, first, extra, r);
      && Sound(p, first.given + more, all + shorter + [r]) && FromRecords(p, more, shorter + [r])
         && WasFree(p, first, more)
  {
    var more := SecondStep(p, first, extra, r);
    if more == extra {
      WiderRecords(p, extra, shorter, r);
      WiderRecords(p, first.given + extra, all + shorter, r);
    } else {
      assert r in shorter + [r];
      SecondStepIsSafe(p, first, extra, r);
      var i := more[|extra|].index;
      KeyIsNew(p, extra, shorter, r, i);
      PlacingKeepsSound(p, first, all + shorter, r, extra, i);
      OneMoreFromRecords(p, extra, shorter, r, i);
    }
  }

  /** The second pass stays within the free indices and does not reuse a serial of the first pass. */
  lemma {:induction false} SecondPassIsSound(p: Parent, first: Seats, all: seq<Record>, rs: seq<Record>)
    requires RealSerials(rs) && DistinctKeys(rs)
    requires Sound(p, first.given, all)
    ensures var extra := SecondPass(p, first, rs);
      && Sound(p, first.given + extra, all + rs) && FromRecords(p, extra, rs)
      && WasFree(p, first, extra)
  {
    if rs == [] {
      assert first.given + SecondPass(p, first, rs) == first.given && all + rs == all;
    } else {
      var n := |rs| - 1;
      var shorter, r := rs[..n], rs[n];
      assert rs == shorter + [r] && all + rs == (all + shorter) + [r];
      SecondPassIsSound(p, first, all, shorter);
      SecondStepKeepsSound(p, first, all, shorter, r, SecondPass(p, first, shorter));
    }
  }

  lemma {:induction false} DistinctSurvivesSorting(rs: seq<Record>)
    requires RealSerials(rs) && DistinctKeys(rs)
    ensures RealSerials(Sorted(rs)) && DistinctKeys(Sorted(rs))
    ensures forall r :: r in Sorted(rs) <==> r in rs
  {
    SortedSorts(rs);
    DistinctKeysDistinctSerials(rs);
    SortingForgetsOrder(rs, rs);
    var ss := Sorted(rs);
    forall r ensures r in ss <==> r in rs {
      assert r in ss <==> r in multiset(ss);
      assert r in rs <==> r in multiset(rs);
    }
    forall i, j | 0 <= i < j < |ss| ensures Normalized(ss[i].serial) != Normalized(ss[j].serial) {
      assert ss[i] in rs && ss[j] in rs;
      var k :| 0 <= k < |rs| && rs[k] == ss[i];
      var l :| 0 <= l < |rs| && rs[l] == ss[j];
      assert k != l;
    }
    DistinctKeysDistinctSerials(ss);
  }

  /**
   Each key gets at most one index and each index at most one serial; protected indices and
   ambiguous keys are never used; an index chosen in the second pass is one of the five and
   neither stored, assigned before nor observed.  In a confirmed complete topology only
   serials whose token some live battery has get an index.
   */
  lemma SeedingIsInjective(p: Parent)
    requires RealSerials(p.records)
    ensures var given := Seeded(p);
      && DistinctIndices(given) && DistinctAssignedKeys(given) && FromRecords(p, given, p.records)
      && (forall a :: a in given ==> a.index !in p.protected && !Ambiguous(p.live, StableKey(a.serial, a.index)))
      && var n := |FirstPass(p, Sorted(p.records)).given|;
      forall k :: n <= k < |given| ==>
        && 1 <= given[k].index <= MAX_INDEX && given[k].index !in Stored(p.records) + Seen(p.live)
        && forall l :: 0 <= l < k ==> given[l].index != given[k].index
  {
    if DistinctKeys(p.records) {
      var rs := Sorted(p.records);
      DistinctSurvivesSorting(p.records);
      FirstPassIsSound(p, rs);
      var first := FirstPass(p, rs);
      SecondPassIsSound(p, first, rs, rs);
      var given := Seeded(p);
      assert FromRecords(p, given, p.records) by {
        forall a | a in given ensures exists r :: r in p.records && r.serial == a.serial && Placeable(p, r) {
          var r: Record :| r in rs + rs && r.serial == a.serial && Placeable(p, r);
          assert r in p.records;
        }
      }
      forall k | |first.given| <= k < |given|
        ensures 1 <= given[k].index <= MAX_INDEX && given[k].index !in Stored(p.records) + Seen(p.live)
      {
        assert given[k] in SecondPass(p, first, rs);
      }
    }
  }

  lemma {:induction false} SamePasses(p: Parent, q: Parent, rs: seq<Record>)
    requires q == p.(records := q.records) && Stored(p.records) == Stored(q.records)
    ensures FirstPass(p, rs) == FirstPass(q, rs)
    ensures forall first :: SecondPass(p, first, rs) == SecondPass(q, first, rs)
  {
    if rs != [] {
      SamePasses(p, q, rs[..|rs| - 1]);
      var r := rs[|rs| - 1];
      assert LiveFor(p.live, r) == LiveFor(q.live, r);
      assert Claim(p, r) == Claim(q, r);
      forall first ensures SecondPass(p, first, rs) == SecondPass(q, first, rs) {
        var extra := SecondPass(p, first, rs[..|rs| - 1]);
        assert Seen(p.live) == Seen(q.live);
        assert Used(p, first) == Used(q, first);
        assert SecondStep(p, first, extra, r) == SecondStep(q, first, extra, r);
      }
    }
  }

  /** The assignment is the same for every order in which the registry lists the records. */
  lemma SeedingForgetsOrder(p: Parent, records: seq<Record>)
    requires multiset(records) == multiset(p.records)
    requires DistinctKeys(p.records) ==> DistinctSerials(p.records)
    ensures Seeded(p.(records := records)) == Seeded(p)
  {
    var q := p.(records := records);
    forall r ensures r in p.records <==> r in records {
      assert r in p.records <==> r in multiset(p.records);
      assert r in records <==> r in multiset(records);
    }
    assert Stored(p.records) == Stored(records);
    if DistinctKeys(p.records) {
      KeysForgetOrder(p.records, records);
    }
    if DistinctKeys(records) {
      KeysForgetOrder(records, p.records);
    }
    if DistinctKeys(p.records) {
      SortingForgetsOrder(p.records, records);
      SamePasses(p, q, Sorted(records));
    }
  }

  lemma KeysForgetOrder(rs: seq<Record>, ss: seq<Record>)
    requires DistinctKeys(rs) && multiset(rs) == multiset(ss)
    ensures DistinctKeys(ss)
  {
    forall i, j | 0 <= i < j < |ss|
      ensures StableKey(ss[i].serial, IndexOrOne(ss[i])) != StableKey(ss[j].serial, IndexOrOne(ss[j]))
    {
      assert ss[i] in multiset(ss) && ss[j] in multiset(ss);
      assert ss[i] in rs && ss[j] in rs;
      var k :| 0 <= k < |rs| && rs[k] == ss[i];
      var l :| 0 <= l < |rs| && rs[l] == ss[j];
      if ss[i] == ss[j] {
        TwiceMeansTwo(ss, i, j);
        OnceByKey(rs, ss[i]);
      }
    }
  }

  lemma {:induction false} OnceByKey(rs: seq<Record>, r: Record)
    requires DistinctKeys(rs)
    ensures multiset(rs)[r] <= 1
  {
    if rs != [] {
      OnceByKey(rs[1..], r);
      assert rs == [rs[0]] + rs[1..];
      assert forall k :: 0 <= k < |rs[1..]| ==> rs[1..][k] == rs[k + 1] && rs[1..][k] != rs[0];
      assert rs[0] !in rs[1..];
    }
  }

  // ---- Who gets which index ----

  /** The record tries index `i` in the first pass, and only another record can keep it from it. */
  predicate Contends(p: Parent, r: Record, i: nat) {
    && Claim(p, r) == Some(i) && i !in p.protected && !Ambiguous(p.live, StableKey(r.serial, i))
    && (r.index.Some? || i !in Stored(p.records))
  }

  predicate FirstContender(p: Parent, rs: seq<Record>, i: nat, k: int) {
    0 <= k < |rs| && Contends(p, rs[k], i) && forall j :: 0 <= j < k ==> !Contends(p, rs[j], i)
  }

  lemma {:induction false} TakenExactly(p: Parent, rs: seq<Record>, i: nat)
    ensures i in Taken(FirstPass(p, rs).given) <==> exists j :: 0 <= j < |rs| && Contends(p, rs[j], i)
  {
    if rs != [] {
      var n := |rs| - 1;
      assert rs == rs[..n] + [rs[n]];
      TakenExactly(p, rs[..n], i);
      var s, t := FirstPass(p, rs[..n]), FirstPass(p, rs);
      assert t.given == s.given || t.given == s.given + [Assignment(Claim(p, rs[n]).value, rs[n].serial)];
      assert t.given != s.given ==> Taken(t.given) == Taken(s.given) + {Claim(p, rs[n]).value};
    }
  }

  /**
   The first pass gives an index to exactly one record: the first in serial order that tries
   it, with an unambiguous key, while no unmigrated device holds it.
   */
  lemma {:induction false} FirstPassExactly(p: Parent, rs: seq<Record>, i: nat, serial: string)
    ensures Assignment(i, serial) in FirstPass(p, rs).given
       <==> exists k :: FirstContender(p, rs, i, k) && rs[k].serial == serial
  {
    if rs != [] {
      var n := |rs| - 1;
      var shorter := rs[..n];
      assert rs == shorter + [rs[n]];
      FirstPassExactly(p, shorter, i, serial);
      TakenExactly(p, shorter, i);
      forall k | 0 <= k < n ensures FirstContender(p, rs, i, k) <==> FirstContender(p, shorter, i, k) {
        assert forall j :: 0 <= j <= k ==> rs[j] == shorter[j];
      }
      assert FirstContender(p, rs, i, n) <==> Contends(p, rs[n], i) && i !in Taken(FirstPass(p, shorter).given);
      LastSeat(p, rs, i, serial);
    }
  }

  lemma LastSeat(p: Parent, rs: seq<Record>, i: nat, serial: string)
    requires rs != []
    ensures var n := |rs| - 1;
      var s := FirstPass(p, rs[..n]);
      Assignment(i, serial) in FirstPass(p, rs).given <==>
        (Assignment(i, serial) in s.given || (Contends(p, rs[n], i) && i !in Taken(s.given) && rs[n].serial == serial))
  {}

  /** The live index of a token is the last one whose serial has it. */
  lemma {:induction false} LiveIndexExactly(live: Live, token: string, n: nat)
    ensures match LiveIndex(live, token, n)
      case Some(i) => 1 <= i <= n && HasToken(live, i, token) && forall j :: i < j <= n ==> !HasToken(live, j, token)
      case None => forall j :: 1 <= j <= n ==> !HasToken(live, j, token)
  {
    if n > 0 {
      LiveIndexExactly(live, token, n - 1);
      assert LiveIndex(live, token, n) == Some(n) <==>
        HasToken(live, n, token) || LiveIndex(live, token, n - 1) == Some(n);
    }
  }

  /** The battery at position `i` of the live payload, counted from one, has a serial with the token. */
  predicate HasToken(live: Live, i: nat, token: string) {
    1 <= i <= |live| && live[i - 1].Some? && Token(live[i - 1].value, i) == token
  }

  predicate HasKey(live: Live, i: nat, key: string) {
    1 <= i <= |live| && live[i - 1].Some? && StableKey(live[i - 1].value, i) == key
  }

  lemma {:induction false} KeyIndicesExactly(live: Live, key: string, n: nat)
    ensures forall i :: i in KeyIndices(live, key, n) <==> 1 <= i <= n && HasKey(live, i, key)
    ensures forall k, l :: 0 <= k < l < |KeyIndices(live, key, n)| ==>
      KeyIndices(live, key, n)[k] != KeyIndices(live, key, n)[l]
  {
    if n > 0 {
      var before := KeyIndices(live, key, n - 1);
      KeyIndicesExactly(live, key, n - 1);
      forall k | 0 <= k < |before| ensures before[k] < n {
        assert before[k] in before;
      }
    }
  }

  /** A key is ambiguous if two of the first five live batteries have it. */
  lemma AmbiguousExactly(live: Live, key: string)
    ensures Ambiguous(live, key) <==> exists i, j :: 1 <= i < j <= 5 && HasKey(live, i, key) && HasKey(live, j, key)
  {
    var indices := KeyIndices(live, key, MAX_INDEX);
    KeyIndicesExactly(live, key, MAX_INDEX);
    if Ambiguous(live, key) {
      assert indices[0] in indices && indices[1] in indices;
      assert indices[0] < indices[1] || indices[1] < indices[0];
    }
    if i, j :| 1 <= i < j <= 5 && HasKey(live, i, key) && HasKey(live, j, key) {
      assert i in indices && j in indices;
    }
  }

  /**
   The first pass tries the stored index of a record, or else its live one; none at all if the
   topology is complete and the battery is not in it.
   */
  lemma ClaimExactly(p: Parent, r: Record, i: nat)
    ensures var live := LiveIndex(p.live, Token(r.serial, IndexOrOne(r)), 5);
      Claim(p, r) == Some(i) <==>
        (!p.complete || live.Some?) && (r.index == Some(i) || (r.index == None && live == Some(i)))
  {}

  /**
   A stored index is kept: the only record that stores an unprotected index gets exactly that index,
   unless its key is ambiguous or a complete topology disproves it.
   */
  lemma StoredIndexIsKept(p: Parent, n: nat, i: nat)
    requires RealSerials(p.records) && DistinctKeys(p.records)
    requires n < |p.records| && p.records[n].index == Some(i) && Placeable(p, p.records[n])
    requires i !in p.protected && !Ambiguous(p.live, StableKey(p.records[n].serial, i))
    requires forall k :: 0 <= k < |p.records| && k != n ==> p.records[k].index != Some(i)
    ensures Assignment(i, p.records[n].serial) in Seeded(p)
  {
    var r, rs := p.records[n], Sorted(p.records);
    DistinctSurvivesSorting(p.records);
    assert r in p.records && r in rs;
    var k :| 0 <= k < |rs| && rs[k] == r;
    DistinctKeysDistinctSerials(rs);
    forall j | 0 <= j < k ensures !Contends(p, rs[j], i) {
      assert rs[j] in rs && rs[j] in p.records && rs[j].serial != r.serial;
      assert i in Stored(p.records);
    }
    assert FirstContender(p, rs, i, k);
    FirstPassExactly(p, rs, i, r.serial);
  }

  /** Of several records that contend for an index, the one with the least serial gets it. */
  lemma LeastSerialWins(p: Parent, i: nat, serial: string, r: Record)
    requires Assignment(i, serial) in FirstPass(p, Sorted(p.records)).given
    requires r in p.records && Contends(p, r, i)
    ensures StringLeq(serial, r.serial)
  {
    var rs := Sorted(p.records);
    SortedSorts(p.records);
    FirstPassExactly(p, rs, i, serial);
    var k :| FirstContender(p, rs, i, k) && rs[k].serial == serial;
    assert r in multiset(p.records) && r in multiset(rs);
    var l :| 0 <= l < |rs| && rs[l] == r;
    FirstContenderIsLeast(p, rs, i, k, l);
  }

  lemma FirstContenderIsLeast(p: Parent, rs: seq<Record>, i: nat, k: nat, l: nat)
    requires SortedBySerial(rs) && FirstContender(p, rs, i, k) && l < |rs| && Contends(p, rs[l], i)
    ensures StringLeq(rs[k].serial, rs[l].serial)
  {
    LeqTotal(rs[k].serial, rs[k].serial);
  }

  /** A record whose claim, with this key, was not granted. */
  predicate Refused(p: Parent, rs: seq<Record>, k: int, key: string) {
    && 0 <= k < |rs| && Claim(p, rs[k]).Some?
    && StableKey(rs[k].serial, Claim(p, rs[k]).value) == key && !FirstContender(p, rs, Claim(p, rs[k]).value, k)
  }

  /** The first pass blocks exactly the keys of the claims that it does not grant. */
  lemma {:induction false} BlockedExactly(p: Parent, rs: seq<Record>, key: string)
    ensures key in FirstPass(p, rs).blocked <==> exists k :: Refused(p, rs, k, key)
  {
    if rs != [] {
      var n := |rs| - 1;
      BlockedExactly(p, rs[..n], key);
      forall k | 0 <= k < n ensures Refused(p, rs, k, key) <==> Refused(p, rs[..n], k, key) {
        assert forall j :: 0 <= j <= k ==> rs[j] == rs[..n][j];
      }
      LastRefused(p, rs, key);
      LastBlock(p, rs, key);
      if Refused(p, rs, n, key) {
        assert key in FirstPass(p, rs).blocked;
      } else if k :| Refused(p, rs, k, key) {
        assert Refused(p, rs[..n], k, key);
      }
    }
  }

  lemma LastRefused(p: Parent, rs: seq<Record>, key: string)
    requires rs != []
    ensures var n := |rs| - 1;
      Refused(p, rs, n, key) <==>
        (Claim(p, rs[n]).Some? && var i := Claim(p, rs[n]).value;
           StableKey(rs[n].serial, i) == key && !(Contends(p, rs[n], i) && i !in Taken(FirstPass(p, rs[..n]).given)))
  {
    var n := |rs| - 1;
    if Claim(p, rs[n]).Some? {
      TakenExactly(p, rs[..n], Claim(p, rs[n]).value);
      assert forall j :: 0 <= j < n ==> rs[j] == rs[..n][j];
    }
  }

  lemma LastBlock(p: Parent, rs: seq<Record>, key: string)
    requires rs != []
    ensures var n := |rs| - 1;
      var s := FirstPass(p, rs[..n]);
      key in FirstPass(p, rs).blocked <==>
        (key in s.blocked || (Claim(p, rs[n]).Some? && var i := Claim(p, rs[n]).value;
           StableKey(rs[n].serial, i) == key && !(Contends(p, rs[n], i) && i !in Taken(s.given))))
  {}

  /**
   The second pass keeps off everything that is spoken for: it gives only indices from one to five
   that no unmigrated device holds, no record stores and no live battery occupies, and none to a
   refused key.
   */
  lemma {:induction false} SecondPassKeepsOff(p: Parent, first: Seats, rs: seq<Record>, a: Assignment)
    requires RealSerials(rs) && a in SecondPass(p, first, rs)
    ensures 1 <= a.index <= 5 && a.index !in p.protected && forall r :: r in p.records ==> r.index != Some(a.index)
    ensures a.index <= |p.live| ==> p.live[a.index - 1].None?
    ensures a !in first.given && StableKey(a.serial, a.index) !in first.blocked
  {
    var n := |rs| - 1;
    var extra := SecondPass(p, first, rs[..n]);
    assert rs == rs[..n] + [rs[n]];
    if a in extra {
      SecondPassKeepsOff(p, first, rs[..n], a);
    } else {
      SecondStepIsSafe(p, first, extra, rs[n]);
      assert a.index !in Used(p, first);
      assert Observed(p.live, a.index).None?;
      assert forall r :: r in p.records && r.index == Some(a.index) ==> a.index in Stored(p.records);
    }
  }

  /** A record whose serial is blank is matched by its index, or by one if it has none. */
  lemma BlankRecordIsMatchedByIndex(live: Live, r: Record)
    requires Normalized(r.serial) == ""
    ensures var index := if r.index == None || r.index == Some(0) then 1 else r.index.value;
      LiveFor(live, r) == LiveIndex(live, Decimal(index), 5)
  {
    BlankSerialGoesByIndex(r.serial, IndexOrOne(r));
  }

  /** The second pass gives each record the lowest index that is then free. */
  lemma {:induction false} SecondPassTakesLowest(p: Parent, first: Seats, rs: seq<Record>, k: nat, i: nat)
    requires k < |SecondPass(p, first, rs)| && 1 <= i < SecondPass(p, first, rs)[k].index
    ensures i in Used(p, first) + Taken(SecondPass(p, first, rs)[..k])
  {
    var n := |rs| - 1;
    var extra := SecondPass(p, first, rs[..n]);
    var more := SecondPass(p, first, rs);
    if k < |extra| {
      assert more[..k] == extra[..k];
      SecondPassTakesLowest(p, first, rs[..n], k, i);
    } else {
      var used := Used(p, first) + Taken(extra);
      assert more == extra + [Assignment(FreeFrom(used, 1)[0], rs[n].serial)] && more[..k] == extra;
      FreeFromMember(used, 1, FreeFrom(used, 1)[0]);
      assert FreeFrom(used, 1)[0] in FreeFrom(used, 1);
      FreeFromRest(used, 1);
    }
  }

  /** All five indices are taken by now. */
  ghost predicate Full(p: Parent, first: Seats, extra: seq<Assignment>) {
    forall i :: 1 <= i <= MAX_INDEX ==> i in Used(p, first) + Taken(extra)
  }

  ghost predicate Served(p: Parent, first: Seats, extra: seq<Assignment>, r: Record)
    requires LiveFor(p.live, r).Some?
  {
    var key := StableKey(r.serial, LiveFor(p.live, r).value);
    || key in KeysOf(first.given + extra) || key in first.blocked || Ambiguous(p.live, key) || Full(p, first, extra)
  }

  lemma {:induction false} SecondPassServes(p: Parent, first: Seats, rs: seq<Record>, r: Record)
    requires r in rs && LiveFor(p.live, r).Some? && Normalized(r.serial) != ""
    ensures Served(p, first, SecondPass(p, first, rs), r)
  {
    var n := |rs| - 1;
    assert rs == rs[..n] + [rs[n]];
    var extra := SecondPass(p, first, rs[..n]);
    var more := SecondPass(p, first, rs);
    assert extra <= more;
    forall a | a in first.given + extra ensures a in first.given + more {}
    if rs[n] == r {
      var free := FreeFrom(Used(p, first) + Taken(extra), 1);
      FreeFromMembers(Used(p, first) + Taken(extra), 1);
      var key := StableKey(r.serial, LiveFor(p.live, r).value);
      if key in KeysOf(first.given) {
        var a :| a in first.given && StableKey(a.serial, a.index) == key;
        assert a in first.given + more;
      } else if key !in first.blocked && !Ambiguous(p.live, key) && free != [] {
        var a := Assignment(free[0], r.serial);
        assert more[|more| - 1] == a;
        assert a in first.given + more && StableKey(a.serial, a.index) == key;
      }
    } else {
      SecondPassServes(p, first, rs[..n], r);
      assert Full(p, first, extra) ==> Full(p, first, more) by {
        assert forall a :: a in extra ==> a in more;
      }
    }
  }

  /**
   No pack in sight is forgotten: a record whose pack is live gets an index unless its key was
   refused in the first pass, is ambiguous, or all five indices are in use.
   */
  lemma LivePacksAreServed(p: Parent, r: Record)
    requires RealSerials(p.records) && DistinctKeys(p.records)
    requires r in p.records && LiveFor(p.live, r).Some?
    ensures var rs := Sorted(p.records); Served(p, FirstPass(p, rs), SecondPass(p, FirstPass(p, rs), rs), r)
  {
    DistinctSurvivesSorting(p.records);
    SecondPassServes(p, FirstPass(p, Sorted(p.records)), Sorted(p.records), r);
  }
}
