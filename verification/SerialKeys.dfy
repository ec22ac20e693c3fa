/**
 The keys under which battery packs are registered: `battery_pack_` and the normalised
 serial, or the index of the battery when nothing of the serial is left.
 */
module SerialKeys {

  const PREFIX := "battery_pack_"

  predicate IsWord(c: char) {
    '0' <= c <= '9' || 'A' <= c <= 'Z' || 'a' <= c <= 'z' || c == '_'
  }

  function LowerChar(c: char): char {
    if 'A' <= c <= 'Z' then (c as int + 32) as char else c
  }

  function Lower(s: string): string {
    if s == "" then "" else [LowerChar(s[0])] + Lower(s[1..])
  }

  /** Every maximal run of other characters becomes one underscore. */
  function Collapse(s: string, inRun: bool): string {
    if s == "" then ""
    else if IsWord(s[0]) then [s[0]] + Collapse(s[1..], false)
    else (if inRun then "" else "_") + Collapse(s[1..], true)
  }

  function TrimLeft(s: string): string {
    if s != "" && s[0] == '_' then TrimLeft(s[1..]) else s
  }

  function TrimRight(s: string): string {
    if s != "" && s[|s| - 1] == '_' then TrimRight(s[..|s| - 1]) else s
  }

  /** Surrounding blanks need no separate treatment: they become underscores and are trimmed. */
  function Normalized(serial: string): string {
    Lower(TrimRight(TrimLeft(Collapse(serial, false))))
  }

  function Decimal(n: nat): string {
    (if n < 10 then "" else Decimal(n / 10)) + [('0' as int + n % 10) as char]
  }

  /** `stable_subdevice_key("battery_pack", serial, index)` */
  function StableKey(serial: string, index: nat): string {
    PREFIX + if Normalized(serial) != "" then Normalized(serial) else Decimal(index)
  }

  /** `s.rsplit("_", 1)[-1]` */
  function AfterLastUnderscore(s: string): string {
    if s == "" || s[|s| - 1] == '_' then "" else AfterLastUnderscore(s[..|s| - 1]) + [s[|s| - 1]]
  }

  /** `_battery_pack_serial_token` */
  function Token(serial: string, index: nat): string {
    AfterLastUnderscore(StableKey(serial, index))
  }

  /** The key names the battery itself, whatever its index, exactly when something of the serial is left. */
  lemma KeyIsIndexFree(serial: string)
    ensures (forall i, j :: StableKey(serial, i) == StableKey(serial, j)) <==> Normalized(serial) != ""
  {
    if Normalized(serial) == "" {
      assert Decimal(1) != Decimal(2) by {
        assert Decimal(1)[0] == '1' && Decimal(2)[0] == '2';
      }
      assert StableKey(serial, 1)[|PREFIX|..] == Decimal(1) && StableKey(serial, 2)[|PREFIX|..] == Decimal(2);
    }
  }

  // ---- What is left of a serial ----

  predicate IsNormalChar(c: char) {
    '0' <= c <= '9' || 'a' <= c <= 'z' || c == '_'
  }

  /** The letters and digits, in lower case. */
  function Essence(s: string): string {
    if s == "" then "" else EssenceOfChar(s[0]) + Essence(s[1..])
  }

  function EssenceOfChar(c: char): string {
    if '0' <= c <= '9' || 'a' <= c <= 'z' then [c]
    else if 'A' <= c <= 'Z' then [(c as int - 'A' as int + 'a' as int) as char]
    else ""
  }

  lemma {:induction false} EssenceOfParts(s: string, t: string)
    ensures Essence(s + t) == Essence(s) + Essence(t)
  {
    if s == "" {
      assert s + t == t;
    } else {
      EssenceOfParts(s[1..], t);
      assert s + t == [s[0]] + (s[1..] + t) && s == [s[0]] + s[1..];
      EssenceOfFirst(s[0], s[1..] + t);
      EssenceOfFirst(s[0], s[1..]);
      InThreeParts(EssenceOfChar(s[0]), Essence(s[1..]), Essence(t));
    }
  }

  lemma EssenceOfFirst(c: char, rest: string)
    ensures Essence([c] + rest) == EssenceOfChar(c) + Essence(rest)
  {
    var s := [c] + rest;
    assert s != "" && s[0] == c && s[1..] == rest;
  }

  lemma InThreeParts(a: string, b: string, c: string)
    ensures a + (b + c) == a + b + c
  {}

  lemma {:induction false} CollapseKeepsEssence(s: string, inRun: bool)
    ensures Essence(Collapse(s, inRun)) == Essence(s)
    ensures forall c :: c in Collapse(s, inRun) ==> IsWord(c)
  {
    if s != "" {
      CollapseKeepsEssence(s[1..], !IsWord(s[0]));
      var head := if IsWord(s[0]) then [s[0]] else if inRun then "" else "_";
      EssenceOfParts(head, Collapse(s[1..], !IsWord(s[0])));
    }
  }

  lemma {:induction false} TrimLeftKeepsEssence(s: string)
    ensures Essence(TrimLeft(s)) == Essence(s) && (TrimLeft(s) != "" ==> TrimLeft(s)[0] != '_')
    ensures forall c :: c in TrimLeft(s) ==> c in s
  {
    if s != "" && s[0] == '_' {
      TrimLeftKeepsEssence(s[1..]);
    }
  }

  lemma {:induction false} TrimRightKeepsEssence(s: string)
    ensures var t := TrimRight(s);
      && Essence(t) == Essence(s)
      && (t != "" ==> t[|t| - 1] != '_' && t[0] == s[0])
      && (forall c :: c in t ==> c in s)
  {
    if s != "" && s[|s| - 1] == '_' {
      var rest := s[..|s| - 1];
      assert s == rest + "_";
      UnderscoreAddsNothing(rest);
      TrimRightKeepsEssence(rest);
    }
  }

  lemma UnderscoreAddsNothing(s: string)
    ensures Essence(s + "_") == Essence(s)
  {
    EssenceOfParts(s, "_");
    assert Essence("_") == "";
  }

  lemma {:induction false} LowerKeepsEssence(s: string)
    ensures Essence(Lower(s)) == Essence(s) && |Lower(s)| == |s|
    ensures forall i :: 0 <= i < |s| ==> Lower(s)[i] == LowerChar(s[i])
  {
    if s != "" {
      LowerKeepsEssence(s[1..]);
    }
  }

  /** A normal form: lower-case letters, digits and underscores, with no underscore at either end. */
  predicate IsNormal(s: string) {
    && (forall i :: 0 <= i < |s| ==> IsNormalChar(s[i]))
    && (s != "" ==> s[0] != '_' && s[|s| - 1] != '_')
  }

  lemma TrimmingKeepsEssence(s: string)
    requires forall c :: c in s ==> IsWord(c)
    ensures var t := TrimRight(TrimLeft(s));
      && Essence(t) == Essence(s) && (forall i :: 0 <= i < |t| ==> IsWord(t[i]))
      && (t != "" ==> t[0] != '_' && t[|t| - 1] != '_')
  {
    TrimLeftKeepsEssence(s);
    TrimRightKeepsEssence(TrimLeft(s));
    var t := TrimRight(TrimLeft(s));
    forall i | 0 <= i < |t| ensures IsWord(t[i]) {
      assert t[i] in t;
    }
  }

  /** Normalising keeps all letters and digits in order, up to case, and leaves a normal form. */
  lemma NormalizedKeepsEssence(serial: string)
    ensures IsNormal(Normalized(serial)) && Essence(Normalized(serial)) == Essence(serial)
  {
    var collapsed := Collapse(serial, false);
    CollapseKeepsEssence(serial, false);
    TrimmingKeepsEssence(collapsed);
    LowerKeepsEssence(TrimRight(TrimLeft(collapsed)));
  }

  lemma {:induction false} CollapseKeepsWords(s: string, inRun: bool)
    requires forall i :: 0 <= i < |s| ==> IsNormalChar(s[i])
    ensures Collapse(s, inRun) == s && Lower(s) == s
  {
    if s != "" {
      CollapseKeepsWords(s[1..], false);
    }
  }

  /** Exactly the normal forms are their own normalisation. */
  lemma NormalExactly(serial: string)
    ensures Normalized(serial) == serial <==> IsNormal(serial)
  {
    NormalizedKeepsEssence(serial);
    if IsNormal(serial) {
      CollapseKeepsWords(serial, false);
    }
  }

  /** Neither letter nor digit nor underscore. */
  predicate IsSeparator(c: char) {
    !IsNormalChar(c) && !('A' <= c <= 'Z')
  }

  lemma {:induction false} SeparatorsCollapse(gap: string, rest: string, inRun: bool)
    requires gap != "" && forall i :: 0 <= i < |gap| ==> IsSeparator(gap[i])
    ensures Collapse(gap + rest, inRun) == (if inRun then "" else "_") + Collapse(rest, true)
  {
    assert (gap + rest)[1..] == gap[1..] + rest;
    if |gap| > 1 {
      SeparatorsCollapse(gap[1..], rest, true);
    }
  }

  lemma {:induction false} WordsStay(word: string, rest: string, inRun: bool)
    requires word != "" && forall i :: 0 <= i < |word| ==> IsNormalChar(word[i])
    ensures Collapse(word + rest, inRun) == word + Collapse(rest, false)
  {
    assert (word + rest)[1..] == word[1..] + rest;
    if |word| > 1 {
      WordsStay(word[1..], rest, false);
    }
  }

  /** Any run of other characters between two normal parts becomes exactly one underscore. */
  lemma GapBecomesUnderscore(left: string, gap: string, right: string)
    requires left != "" && IsNormal(left) && right != "" && IsNormal(right)
    requires gap != "" && forall i :: 0 <= i < |gap| ==> IsSeparator(gap[i])
    ensures Normalized(left + gap + right) == left + "_" + right
  {
    CollapsedGap(left, gap, right);
    JoinedIsNormal(left, right);
    CollapseKeepsWords(left + "_" + right, false);
    NormalExactly(left + "_" + right);
  }

  lemma CollapsedGap(left: string, gap: string, right: string)
    requires left != "" && IsNormal(left) && right != "" && IsNormal(right)
    requires gap != "" && forall i :: 0 <= i < |gap| ==> IsSeparator(gap[i])
    ensures Collapse(left + gap + right, false) == left + "_" + right
  {
    WordsStay(left, gap + right, false);
    SeparatorsCollapse(gap, right, false);
    CollapseKeepsWords(right, true);
    InThreeParts(left, gap, right);
    InThreeParts(left, "_", right);
  }

  lemma JoinedIsNormal(left: string, right: string)
    requires left != "" && IsNormal(left) && right != "" && IsNormal(right)
    ensures IsNormal(left + "_" + right)
  {}

  /** A serial has a normal form of its own exactly if it has a letter or a digit. */
  lemma IsNamedExactly(serial: string)
    ensures Normalized(serial) != "" <==> Essence(serial) != ""
  {
    NormalizedKeepsEssence(serial);
  }

  /** The number that a string of digits denotes. */
  function ValueOf(digits: string): int {
    if digits == "" then 0
    else 10 * ValueOf(digits[..|digits| - 1]) + (digits[|digits| - 1] as int - '0' as int)
  }

  lemma {:induction false} DecimalIsRead(n: nat)
    ensures ValueOf(Decimal(n)) == n && (n > 0 ==> Decimal(n)[0] != '0')
    ensures forall c :: c in Decimal(n) ==> '0' <= c <= '9'
  {
    var digits := Decimal(n);
    if n >= 10 {
      DecimalIsRead(n / 10);
      assert digits[..|digits| - 1] == Decimal(n / 10);
    } else {
      assert digits[..|digits| - 1] == "";
    }
  }

  lemma {:induction false} AfterLastOfSuffix(s: string, c: char)
    requires c != '_'
    ensures AfterLastUnderscore(s + "_" + [c]) == [c]
  {
    AfterLastExactly(s, [c]);
  }

  /** The part after an underscore that none follows. */
  lemma {:induction false} AfterLastExactly(s: string, tail: string)
    requires '_' !in tail
    ensures AfterLastUnderscore(s + "_" + tail) == tail
  {
    var whole := s + "_" + tail;
    if tail == "" {
      assert whole[|whole| - 1] == '_';
    } else {
      var n := |tail| - 1;
      AfterLastExactly(s, tail[..n]);
      assert whole[..|whole| - 1] == s + "_" + tail[..n] && whole[|whole| - 1] == tail[n];
      assert tail == tail[..n] + [tail[n]];
    }
  }

  lemma TokenOfKey(tail: string)
    requires '_' !in tail
    ensures AfterLastUnderscore(PREFIX + tail) == tail
  {
    assert PREFIX == "battery_pack" + "_";
    AfterLastExactly("battery_pack", tail);
  }

  /** A pack without letters and digits in its serial goes by its index. */
  lemma BlankSerialGoesByIndex(serial: string, index: nat)
    requires Normalized(serial) == ""
    ensures Token(serial, index) == Decimal(index)
  {
    DecimalIsRead(index);
    TokenOfKey(Decimal(index));
  }

  /** The token keeps only the part after the last underscore, so different packs can share it. */
  lemma TokensCanCoincide(i: nat, j: nat)
    ensures StableKey("A_1", i) != StableKey("B_1", j) && Token("A_1", i) == Token("B_1", j)
  {
    assert Normalized("A_1") == "a_1";
    assert Normalized("B_1") == "b_1";
    assert StableKey("A_1", i)[|PREFIX|] == 'a' && StableKey("B_1", j)[|PREFIX|] == 'b';
    assert StableKey("A_1", i) == PREFIX + "a" + "_" + "1";
    assert StableKey("B_1", j) == PREFIX + "b" + "_" + "1";
    AfterLastOfSuffix(PREFIX + "a", '1');
    AfterLastOfSuffix(PREFIX + "b", '1');
  }
}
