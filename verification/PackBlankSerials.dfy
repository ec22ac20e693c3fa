/**
 Serials without letters and digits.  Their keys change with the index, so that a parent can pass
 the distinctness check and still get one key at two indices.
 */
module PackBlankSerials {
  import opened Wrappers
  import opened SerialKeys
  import opened PackOrder
  import opened PackIdentity

  predicate AllDigits(s: string) {
    forall i :: 0 <= i < |s| ==> '0' <= s[i] <= '9'
  }

  /**
   A record that the registry survey can build: a device whose identifier ends in a number has
   that number, or the one in its entities, as its index.
   */
  predicate Surveyed(r: Record) {
    r.index.Some? || !AllDigits(StableKey(r.serial, 1)[|PREFIX|..])
  }

  /** Two indices get the same key, although the keys pass the check and only `serial` can be to blame. */
  ghost predicate SharesAKey(p: Parent, serial: string) {
    && (forall r :: r in p.records ==> Surveyed(r))
    && DistinctKeys(p.records) && !DistinctAssignedKeys(Seeded(p))
    && |p.records| > 0 && p.records[0].serial == serial && RealSerials(p.records[1..])
  }

  /** A numeric serial, and one whose token is a number. */
  lemma ExampleSerials() returns (four: string, other: string)
    ensures Normalized(four) == "4" && Normalized(other) == "x_2"
  {
    four, other := "4", "X_2";
  }

  lemma KeyWithToken(serial: string, i: nat, head: string, c: char)
    requires c != '_' && StableKey(serial, i) == head + "_" + [c]
    ensures Token(serial, i) == [c]
  {
    AfterLastOfSuffix(head, c);
  }

  lemma KeyOfOne(serial: string, i: nat, c: char)
    requires c != '_'
    requires Normalized(serial) == [c] || (Normalized(serial) == "" && i < 10 && c == ('0' as int + i) as char)
    ensures StableKey(serial, i) == PREFIX + [c] && Token(serial, i) == [c]
  {
    assert Normalized(serial) == "" ==> Decimal(i) == [c];
    assert PREFIX + [c] == "battery_pack" + "_" + [c];
    KeyWithToken(serial, i, "battery_pack", c);
  }

  lemma KeyOfThree(serial: string, i: nat, b: char, c: char)
    requires c != '_' && Normalized(serial) == [b, '_', c]
    ensures StableKey(serial, i) == PREFIX + [b, '_', c] && Token(serial, i) == [c]
  {
    assert PREFIX + [b, '_', c] == (PREFIX + [b]) + "_" + [c];
    KeyWithToken(serial, i, PREFIX + [b], c);
  }

  /** The only live battery is at index 3, with the token 2 and a key of its own. */
  lemma LiveTokens(live: Live, other: string)
    requires Normalized(other) == "x_2" && live == [None, None, Some(other)]
    ensures LiveIndex(live, ['2'], 5) == Some(3) && LiveIndex(live, ['4'], 5) == None && Seen(live) == {3}
    ensures forall c :: !Ambiguous(live, PREFIX + [c])
  {
    KeyOfThree(other, 3, 'x', '2');
    assert forall i :: 0 <= i <= 5 && i != 3 ==> Observed(live, i) == None;
    assert Observed(live, 3) == Some(other) && ['2'] != ['4'];
    assert LiveIndex(live, ['2'], 5) == LiveIndex(live, ['2'], 4) == LiveIndex(live, ['2'], 3);
    assert LiveIndex(live, ['4'], 5) == LiveIndex(live, ['4'], 4) == LiveIndex(live, ['4'], 3)
      == LiveIndex(live, ['4'], 2);
    assert LiveIndex(live, ['4'], 2) == LiveIndex(live, ['4'], 1) == LiveIndex(live, ['4'], 0) == None;
    forall c ensures !Ambiguous(live, PREFIX + [c]) {
      NoIndices(live, PREFIX + [c], other);
    }
  }

  lemma NoIndices(live: Live, key: string, other: string)
    requires live == [None, None, Some(other)] && StableKey(other, 3) != key
    ensures KeyIndices(live, key, 5) == []
  {
    assert KeyIndices(live, key, 1) == KeyIndices(live, key, 0) == [];
    assert KeyIndices(live, key, 3) == KeyIndices(live, key, 2) == [];
    assert KeyIndices(live, key, 5) == KeyIndices(live, key, 4) == [];
  }

  lemma TwoSeats(p: Parent, a: Record, b: Record, i: nat, j: nat)
    requires a.index.Some? && b.index.Some? && i != j && p.protected == {}
    requires Claim(p, a) == Some(i) && Claim(p, b) == Some(j)
    requires !Ambiguous(p.live, StableKey(a.serial, i)) && !Ambiguous(p.live, StableKey(b.serial, j))
    ensures FirstPass(p, [a, b]) == Seats([Assignment(i, a.serial), Assignment(j, b.serial)], {})
  {
    assert [a, b][..1] == [a] && [a][..0] == [];
    var s := FirstPass(p, [a]);
    assert s == FirstStep(p, FirstPass(p, []), a) == Seats([Assignment(i, a.serial)], {});
    assert Taken(s.given) == {i};
    assert FirstPass(p, [a, b]) == FirstStep(p, s, b);
  }

  lemma SortTwo(a: Record, b: Record)
    ensures Sorted([a, b]) == [a, b] || Sorted([a, b]) == [b, a]
  {
    assert [a, b][1..] == [b] && Sorted([b]) == [b];
    assert Sorted([a, b]) == Insert(a, [b]);
  }

  /** The second pass serves the one record that has a live battery, with the lowest free index. */
  lemma SecondSeat(p: Parent, first: Seats, a: Record, b: Record, live: nat, i: nat)
    requires LiveFor(p.live, a) == Some(live) && LiveFor(p.live, b) == None
    requires StableKey(a.serial, live) !in KeysOf(first.given) && first.blocked == {}
    requires !Ambiguous(p.live, StableKey(a.serial, live))
    requires FreeFrom(Used(p, first), 1) != [] && FreeFrom(Used(p, first), 1)[0] == i
    ensures SecondPass(p, first, [a, b]) == SecondPass(p, first, [b, a]) == [Assignment(i, a.serial)]
  {
    assert Used(p, first) + Taken([]) == Used(p, first);
    assert [a, b][..1] == [a] && [b, a][..1] == [b] && [a][..0] == [] && [b][..0] == [];
    assert SecondPass(p, first, [a]) == SecondStep(p, first, [], a) == [Assignment(i, a.serial)];
    assert SecondPass(p, first, [b]) == SecondStep(p, first, [], b) == [];
  }

  /**
   The witness: `serial` was registered at index 2 and has its live battery at index 3; the key
   that it would have at index 4 is that of `four`, registered at index 1.
   */
  ghost predicate Witness(p: Parent, serial: string, four: string) {
    && p.records == [Record(serial, Some(2)), Record(four, Some(1))] && p.protected == {} && !p.complete
    && LiveFor(p.live, p.records[0]) == Some(3) && LiveFor(p.live, p.records[1]) == None && Seen(p.live) == {3}
    && KeysApart(serial, four) && StableKey(serial, 4) == StableKey(four, 1)
    && !Ambiguous(p.live, StableKey(serial, 2)) && !Ambiguous(p.live, StableKey(serial, 3))
    && !Ambiguous(p.live, StableKey(four, 1))
  }

  predicate KeysApart(serial: string, four: string) {
    && StableKey(serial, 2) != StableKey(serial, 3) && StableKey(serial, 2) != StableKey(four, 1)
    && StableKey(serial, 3) != StableKey(four, 1)
  }

  lemma WitnessExists(serial: string) returns (p: Parent, four: string)
    requires Normalized(serial) == ""
    ensures Witness(p, serial, four) && Normalized(four) != ""
  {
    var other;
    four, other := ExampleSerials();
    p := Parent([Record(serial, Some(2)), Record(four, Some(1))], [None, None, Some(other)], {}, false);
    KeyOfOne(serial, 2, '2');
    KeyOfOne(serial, 3, '3');
    KeyOfOne(serial, 4, '4');
    KeyOfOne(four, 1, '4');
    LiveTokens(p.live, other);
    assert StableKey(serial, 2)[|PREFIX|] == '2' && StableKey(serial, 3)[|PREFIX|] == '3';
    assert StableKey(four, 1)[|PREFIX|] == '4';
  }

  lemma FourIsFree(p: Parent, given: seq<Assignment>)
    requires p.protected == {} && Stored(p.records) == {1, 2} && Seen(p.live) == {3} && Taken(given) == {1, 2}
    ensures FreeFrom(Used(p, Seats(given, {})), 1) == [4, 5]
  {
    var used := Used(p, Seats(given, {}));
    assert used == {1, 2, 3};
    assert FreeFrom(used, 6) == [] && FreeFrom(used, 5) == [5] && FreeFrom(used, 4) == [4, 5];
    assert FreeFrom(used, 3) == FreeFrom(used, 2) == FreeFrom(used, 1) == [4, 5];
  }

  lemma WitnessFirstPass(p: Parent, serial: string, four: string)
    requires Witness(p, serial, four)
    ensures FirstPass(p, [p.records[0], p.records[1]]) == Seats([Assignment(2, serial), Assignment(1, four)], {})
    ensures FirstPass(p, [p.records[1], p.records[0]]) == Seats([Assignment(1, four), Assignment(2, serial)], {})
  {
    var a, b := p.records[0], p.records[1];
    assert Claim(p, a) == Some(2) && Claim(p, b) == Some(1);
    TwoSeats(p, a, b, 2, 1);
    TwoSeats(p, b, a, 1, 2);
  }

  lemma WitnessSecondPass(p: Parent, serial: string, four: string, given: seq<Assignment>)
    requires Witness(p, serial, four)
    requires given == [Assignment(2, serial), Assignment(1, four)]
      || given == [Assignment(1, four), Assignment(2, serial)]
    ensures var first := Seats(given, {});
      SecondPass(p, first, [p.records[0], p.records[1]]) == SecondPass(p, first, [p.records[1], p.records[0]])
        == [Assignment(4, serial)]
  {
    StoredPair(serial, four);
    WitnessKeys(serial, four, given);
    FourIsFree(p, given);
    SecondSeat(p, Seats(given, {}), p.records[0], p.records[1], 3, 4);
  }

  lemma StoredPair(serial: string, four: string)
    ensures Stored([Record(serial, Some(2)), Record(four, Some(1))]) == {1, 2}
  {
    var rs := [Record(serial, Some(2)), Record(four, Some(1))];
    assert rs[0] in rs && rs[1] in rs;
  }

  lemma WitnessKeys(serial: string, four: string, given: seq<Assignment>)
    requires KeysApart(serial, four)
    requires given == [Assignment(2, serial), Assignment(1, four)]
      || given == [Assignment(1, four), Assignment(2, serial)]
    ensures Taken(given) == {1, 2} && StableKey(serial, 3) !in KeysOf(given)
  {
    assert given[0] in given && given[1] in given;
  }

  lemma SameKeyTwice(given: seq<Assignment>, extra: seq<Assignment>, a: Assignment, b: Assignment)
    requires a in given && extra == [b] && StableKey(a.serial, a.index) == StableKey(b.serial, b.index)
    ensures !DistinctAssignedKeys(given + extra)
  {
    var k :| 0 <= k < |given| && given[k] == a;
    assert (given + extra)[k] == a && (given + extra)[|given|] == b;
  }

  lemma WitnessIsDistinct(p: Parent, serial: string, four: string)
    requires Witness(p, serial, four)
    ensures DistinctKeys(p.records)
  {}

  lemma WitnessSharesAKey(p: Parent, serial: string, four: string)
    requires Witness(p, serial, four)
    ensures DistinctKeys(p.records) && !DistinctAssignedKeys(Seeded(p))
  {
    var a, b := p.records[0], p.records[1];
    var rs := Sorted(p.records);
    WitnessIsDistinct(p, serial, four);
    SortTwo(a, b);
    assert p.records == [a, b];
    WitnessFirstPass(p, serial, four);
    var first := FirstPass(p, rs);
    WitnessSecondPass(p, serial, four, first.given);
    assert Assignment(1, four) in first.given;
    SameKeyTwice(first.given, SecondPass(p, first, rs), Assignment(1, four), Assignment(4, serial));
  }

  lemma BlankSerialSharesAKey(serial: string)
    requires Normalized(serial) == ""
    ensures exists p :: SharesAKey(p, serial)
  {
    var p, four := WitnessExists(serial);
    WitnessSharesAKey(p, serial, four);
    WitnessIsSurveyed(serial, four);
    assert SharesAKey(p, serial);
  }

  lemma WitnessIsSurveyed(serial: string, four: string)
    requires Normalized(four) != ""
    ensures var rs := [Record(serial, Some(2)), Record(four, Some(1))];
      RealSerials(rs[1..]) && forall r :: r in rs ==> Surveyed(r)
  {
    assert [Record(serial, Some(2)), Record(four, Some(1))][1..] == [Record(four, Some(1))];
  }

  /**
   For each serial without letters and digits, and for no other, there is a parent as the registry
   survey builds it that passes the distinctness check and yet gets one key at two indices.
   */
  lemma OneKeyPerIndexExactly(serial: string)
    ensures Normalized(serial) == "" <==> exists p :: SharesAKey(p, serial)
  {
    if Normalized(serial) == "" {
      BlankSerialSharesAKey(serial);
    }
    forall p | SharesAKey(p, serial) ensures Normalized(serial) == "" {
      if Normalized(serial) != "" {
        assert p.records == [p.records[0]] + p.records[1..];
        SeedingIsInjective(p);
      }
    }
  }
}
