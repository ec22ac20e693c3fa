/**
 Decoded payloads: nested JSON objects, the paths that address their fields, and the
 notion of a blank value.
 */
module Json {

  /** A JSON object; the order of its keys is not observable. */
  type Tree = map<string, Value>

  /** A field path from the root of a payload; the root itself is `[]`. */
  type Path = seq<string>

  datatype Value =
    | Null
    | Bool(b: bool)
    | Num(r: real)
    | Str(s: string)
    | Arr(items: seq<Value>)
    | Obj(fields: Tree)

  /** What a payload holds at one path: nothing, an object, or any other value. */
  datatype Slot = Missing | Branch | Leaf(value: Value)

  /** Python's `dict.get`: an absent key reads as `None`. */
  function Get(t: Tree, k: string): Value {
    if k in t then t[k] else Null
  }

  /** The characters that Python's `str.strip` removes. */
  predicate IsSpace(c: char) {
    var n := c as int;
    || 0x09 <= n <= 0x0D
    || 0x1C <= n <= 0x20
    || n == 0x85 || n == 0xA0 || n == 0x1680
    || 0x2000 <= n <= 0x200A
    || n == 0x2028 || n == 0x2029 || n == 0x202F || n == 0x205F || n == 0x3000
  }

  /** Values that must never overwrite a populated field. */
  predicate Blank(v: Value) {
    match v
    case Null => true
    case Str(s) => forall i :: 0 <= i < |s| ==> IsSpace(s[i])
    case Arr(items) => items == []
    case Obj(fields) => fields == map[]
    case _ => false
  }

  /** The code points that count as white space, one by one. */
  const WHITESPACE: set<int> := {
    0x09, 0x0A, 0x0B, 0x0C, 0x0D, 0x1C, 0x1D, 0x1E, 0x1F, 0x20, 0x85, 0xA0, 0x1680, 0x2000, 0x2001, 0x2002, 0x2003,
    0x2004, 0x2005, 0x2006, 0x2007, 0x2008, 0x2009, 0x200A, 0x2028, 0x2029, 0x202F, 0x205F, 0x3000}

  /** Nothing, an empty list, an empty object and a string of spaces are blank; every number and truth value is not. */
  lemma BlankExactly(v: Value)
    ensures Blank(v) <==>
      (v == Null || v == Arr([]) || v == Obj(map[])
       || (v.Str? && forall i :: 0 <= i < |v.s| ==> v.s[i] as int in WHITESPACE))
    ensures Blank(Str("")) && Blank(Str(" \t\n")) && !Blank(Str("0")) && !Blank(Num(0.0)) && !Blank(Bool(false))
  {
    assert !IsSpace("0"[0]);
  }

  function SlotIn(t: Tree, q: Path): Slot
    decreases |q|, 0
  {
    if q == [] then Branch
    else if q[0] !in t then Missing
    else SlotOf(t[q[0]], q[1..])
  }

  function SlotOf(v: Value, q: Path): Slot
    decreases |q|, 1
  {
    if v.Obj? then SlotIn(v.fields, q) else if q == [] then Leaf(v) else Missing
  }

  /** Every nonempty path present in a tree. */
  function PathsOf(t: Tree): set<Path>
    decreases Obj(t), 0
  {
    set k, q | k in t && q in PathsBelow(t[k]) :: [k] + q
  }

  function PathsBelow(v: Value): set<Path>
    decreases v, 1
  {
    {[]} + if v.Obj? then PathsOf(v.fields) else {}
  }

  /** No value of one tree is an object where the other has a non-object. */
  ghost predicate SameShape(s: Slot, t: Slot) {
    !(s.Branch? && t.Leaf?) && !(s.Leaf? && t.Branch?)
  }

  ghost predicate Compatible(t: Tree, u: Tree) {
    forall q: Path :: SameShape(SlotIn(t, q), SlotIn(u, q))
  }

  lemma {:induction false} PathsAreSlots(t: Tree, q: Path)
    ensures q in PathsOf(t) <==> q != [] && SlotIn(t, q) != Missing
    decreases |q|
  {
    if q != [] && q[0] in t {
      assert [q[0]] + q[1..] == q;
      var v := t[q[0]];
      if v.Obj? {
        PathsAreSlots(v.fields, q[1..]);
      }
      assert q[1..] in PathsBelow(v) <==> SlotOf(v, q[1..]) != Missing;
      assert forall k, r :: [k] + r == q ==> k == q[0] && r == q[1..];
    }
  }

  lemma SlotBelow(t: Tree, k: string, q: Path)
    ensures SlotIn(t, [k] + q) == if k in t then SlotOf(t[k], q) else Missing
  {
    assert ([k] + q)[1..] == q;
  }

  /** A tree is determined by its slots. */
  lemma {:induction false} SlotsDetermineTree(t: Tree, u: Tree)
    requires forall q: Path :: SlotIn(t, q) == SlotIn(u, q)
    ensures t == u
    decreases Obj(t)
  {
    forall k: string
      ensures k in t <==> k in u
      ensures k in t && k in u ==> t[k] == u[k]
    {
      forall q: Path
        ensures (if k in t then SlotOf(t[k], q) else Missing) == if k in u then SlotOf(u[k], q) else Missing
      {
        SlotBelow(t, k, q);
        SlotBelow(u, k, q);
      }
      assert k in t <==> k in u by {
        SlotBelow(t, k, []);
        SlotBelow(u, k, []);
        assert forall v: Value :: SlotOf(v, []) != Missing;
      }
      if k in t {
        assert SlotOf(t[k], []) == SlotOf(u[k], []);
        if t[k].Obj? {
          forall q: Path ensures SlotIn(t[k].fields, q) == SlotIn(u[k].fields, q) {
            assert SlotOf(t[k], q) == SlotOf(u[k], q);
          }
          SlotsDetermineTree(t[k].fields, u[k].fields);
        }
      }
    }
  }

  lemma SameShapeAtKey(t: Tree, u: Tree, k: string)
    requires Compatible(t, u)
    ensures k in t && k in u ==> t[k].Obj? == u[k].Obj?
  {
    SlotBelow(t, k, []);
    SlotBelow(u, k, []);
    assert SameShape(SlotIn(t, [k] + []), SlotIn(u, [k] + []));
  }

  lemma CompatibleFields(t: Tree, u: Tree, k: string)
    requires Compatible(t, u) && k in t && k in u && t[k].Obj? && u[k].Obj?
    ensures Compatible(t[k].fields, u[k].fields)
  {
    forall q: Path ensures SameShape(SlotIn(t[k].fields, q), SlotIn(u[k].fields, q)) {
      SlotBelow(t, k, q);
      SlotBelow(u, k, q);
      assert SameShape(SlotIn(t, [k] + q), SlotIn(u, [k] + q));
    }
  }
}
