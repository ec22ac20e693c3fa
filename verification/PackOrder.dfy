/** The serial records of one parent device, and sorting them by serial. */
module PackOrder {
  import opened Wrappers

  /** A registered serial and the pack index it was registered for, if that is known. */
  datatype Record = Record(serial: string, index: Option<nat>)

  predicate StringLeq(a: string, b: string) {
    a == "" || (b != "" && (a[0] < b[0] || (a[0] == b[0] && StringLeq(a[1..], b[1..]))))
  }

  lemma {:induction false} LeqTransitive(a: string, b: string, c: string)
    requires StringLeq(a, b) && StringLeq(b, c)
    ensures StringLeq(a, c)
  {
    if a != "" && a[0] == b[0] == c[0] {
      LeqTransitive(a[1..], b[1..], c[1..]);
    }
  }

  lemma {:induction false} LeqTotal(a: string, b: string)
    ensures StringLeq(a, b) || StringLeq(b, a)
    ensures StringLeq(a, b) && StringLeq(b, a) ==> a == b
  {
    if a != "" && b != "" {
      LeqTotal(a[1..], b[1..]);
      assert a == [a[0]] + a[1..] && b == [b[0]] + b[1..];
    }
  }

  /** The order is that of the first differing character, and a beginning comes first. */
  lemma OrderByFirstDifference(h: string, x: char, s: string, y: char, t: string)
    requires x < y
    ensures StringLeq(h + [x] + s, h + [y] + t) && !StringLeq(h + [y] + t, h + [x] + s)
    ensures StringLeq(h, h + [x] + s) && !StringLeq(h + [x] + s, h)
    decreases |h|
  {
    var a, b := h + [x] + s, h + [y] + t;
    if h != [] {
      assert a[0] == b[0] == h[0] && a[1..] == h[1..] + [x] + s && b[1..] == h[1..] + [y] + t;
      OrderByFirstDifference(h[1..], x, s, y, t);
    }
  }

  predicate SortedBySerial(rs: seq<Record>) {
    forall i, j :: 0 <= i < j < |rs| ==> StringLeq(rs[i].serial, rs[j].serial)
  }

  function Insert(r: Record, rs: seq<Record>): seq<Record> {
    if rs == [] then [r]
    else if StringLeq(r.serial, rs[0].serial) then [r] + rs
    else [rs[0]] + Insert(r, rs[1..])
  }

  /** The stable sort by serial. */
  function Sorted(rs: seq<Record>): seq<Record> {
    if rs == [] then [] else Insert(rs[0], Sorted(rs[1..]))
  }

  predicate DistinctSerials(rs: seq<Record>) {
    forall i, j :: 0 <= i < j < |rs| ==> rs[i].serial != rs[j].serial
  }

  lemma {:induction false} InsertSorts(r: Record, rs: seq<Record>)
    requires SortedBySerial(rs)
    ensures SortedBySerial(Insert(r, rs)) && multiset(Insert(r, rs)) == multiset{r} + multiset(rs)
  {
    if rs == [] {
    } else if StringLeq(r.serial, rs[0].serial) {
      forall j | 0 <= j < |rs| ensures StringLeq(r.serial, rs[j].serial) {
        if j > 0 {
          LeqTransitive(r.serial, rs[0].serial, rs[j].serial);
        }
      }
    } else {
      LeqTotal(r.serial, rs[0].serial);
      InsertSorts(r, rs[1..]);
      var t := Insert(r, rs[1..]);
      assert rs == [rs[0]] + rs[1..];
      forall j | 0 <= j < |t| ensures StringLeq(rs[0].serial, t[j].serial) {
        assert t[j] in multiset(t);
        if t[j] != r {
          assert t[j] in rs[1..];
        }
      }
    }
  }

  lemma {:induction false} SortedSorts(rs: seq<Record>)
    ensures SortedBySerial(Sorted(rs)) && multiset(Sorted(rs)) == multiset(rs)
  {
    if rs != [] {
      SortedSorts(rs[1..]);
      InsertSorts(rs[0], Sorted(rs[1..]));
      assert rs == [rs[0]] + rs[1..];
    }
  }

  lemma DistinctIsBySet(rs: seq<Record>, ss: seq<Record>)
    requires DistinctSerials(rs) && multiset(rs) == multiset(ss)
    ensures DistinctSerials(ss)
  {
    forall i, j | 0 <= i < j < |ss| ensures ss[i].serial != ss[j].serial {
      if ss[i].serial == ss[j].serial {
        assert ss[i] in multiset(ss) && ss[j] in multiset(ss);
        assert ss[i] in rs && ss[j] in rs;
        assert ss[i] == ss[j];
        TwiceMeansTwo(ss, i, j);
        OnceEach(rs, ss[i]);
        assert false;
      }
    }
  }

  lemma TwiceMeansTwo(ss: seq<Record>, i: nat, j: nat)
    requires i < j < |ss| && ss[i] == ss[j]
    ensures multiset(ss)[ss[i]] >= 2
  {
    assert ss == ss[..i] + [ss[i]] + ss[i + 1..j] + [ss[j]] + ss[j + 1..];
  }

  lemma {:induction false} OnceEach(rs: seq<Record>, r: Record)
    requires DistinctSerials(rs)
    ensures multiset(rs)[r] <= 1
  {
    if rs != [] {
      OnceEach(rs[1..], r);
      assert rs == [rs[0]] + rs[1..];
      if r == rs[0] {
        assert r !in rs[1..];
      }
    }
  }

  lemma HeadIsLeast(a: seq<Record>, r: Record)
    requires SortedBySerial(a) && r in a
    ensures StringLeq(a[0].serial, r.serial)
  {
    LeqTotal(r.serial, r.serial);
    var i :| 0 <= i < |a| && a[i] == r;
  }

  lemma WithoutHead(a: seq<Record>)
    requires a != []
    ensures multiset(a[1..]) == multiset(a) - multiset{a[0]}
  {
    assert a == [a[0]] + a[1..];
  }

  lemma SameHead(a: seq<Record>, b: seq<Record>)
    requires SortedBySerial(a) && SortedBySerial(b) && multiset(a) == multiset(b) && DistinctSerials(a)
    requires a != [] && b != []
    ensures a[0] == b[0]
  {
    assert a[0] in multiset(a) && b[0] in multiset(b);
    HeadIsLeast(a, b[0]);
    HeadIsLeast(b, a[0]);
    LeqTotal(a[0].serial, b[0].serial);
  }

  lemma {:induction false} SortedIsUnique(a: seq<Record>, b: seq<Record>)
    requires SortedBySerial(a) && SortedBySerial(b) && multiset(a) == multiset(b) && DistinctSerials(a)
    ensures a == b
  {
    assert |a| == |multiset(a)| == |multiset(b)| == |b|;
    if a != [] {
      SameHead(a, b);
      WithoutHead(a);
      WithoutHead(b);
      SortedIsUnique(a[1..], b[1..]);
      assert a == [a[0]] + a[1..] && b == [b[0]] + b[1..];
    }
  }

  /** With distinct serials the sorted list does not depend on the order of the records. */
  lemma SortingForgetsOrder(rs: seq<Record>, ss: seq<Record>)
    requires multiset(rs) == multiset(ss) && DistinctSerials(rs)
    ensures Sorted(rs) == Sorted(ss) && DistinctSerials(Sorted(rs))
  {
    SortedSorts(rs);
    SortedSorts(ss);
    DistinctIsBySet(rs, Sorted(rs));
    SortedIsUnique(Sorted(rs), Sorted(ss));
  }
}
