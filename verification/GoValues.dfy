/**
 The Go values that trie slots, nodes and roots hold, and what ethutil/value.go and Encode make of them.

 A slot written by the trie holds a Go `string` or `[]byte`; a slot that was read back holds a `[]byte`, or a `byte` for
 a single low byte.
 */
module GoValues {
  import opened ByteStrings
  import opened Rlp

  datatype GoValue = GoNil | GoString(s: Bytes) | GoBytes(b: Bytes) | GoByte(c: byte) | GoList(items: seq<GoValue>)

  /** What Encode writes (ethutil/rlp.go:150-224): a byte goes through `big.Int`, for which zero has no bytes. */
  function Plain(v: GoValue): Item {
    match v
    case GoNil => List([])
    case GoString(s) => Str(s)
    case GoBytes(b) => Str(b)
    case GoByte(c) => Str(ToBigEndian(c))
    case GoList(items) => List(PlainAll(items))
  }

  function PlainAll(vs: seq<GoValue>): (r: seq<Item>)
    ensures |r| == |vs| && forall i :: 0 <= i < |vs| ==> r[i] == Plain(vs[i])
  {
    if vs == [] then [] else [Plain(vs[0])] + PlainAll(vs[1..])
  }

  /** What Decode makes of an item. */
  function Reloaded(x: Item): GoValue {
    match x
    case Str(s) => if |s| == 1 && s[0] <= 0x7f then GoByte(s[0]) else GoBytes(s)
    case List(items) => GoList(ReloadedAll(items))
  }

  function ReloadedAll(xs: seq<Item>): (r: seq<GoValue>)
    ensures |r| == |xs| && forall i :: 0 <= i < |xs| ==> r[i] == Reloaded(xs[i])
  {
    if xs == [] then [] else [Reloaded(xs[0])] + ReloadedAll(xs[1..])
  }

  /** What is read is one byte below 0x80, or bytes, or a list; and what is written of a byte that was read. */
  lemma KindsExact(c: byte, s: Bytes, xs: seq<Item>)
    ensures Reloaded(Str([c])) == if c < 0x80 then GoByte(c) else GoBytes([c])
    ensures |s| != 1 ==> Reloaded(Str(s)) == GoBytes(s)
    ensures Reloaded(List(xs)).GoList? && |Reloaded(List(xs)).items| == |xs|
    ensures forall i :: 0 <= i < |xs| ==> Reloaded(List(xs)).items[i] == Reloaded(xs[i])
    ensures Plain(GoByte(c)) == Str(if c == 0 then [] else [c]) && Plain(GoNil) == List([])
  {
    DigitsExact(0, c, []);
  }

  // ---------- A decoded zero byte ----------

  const ZERO: Bytes := [0]

  /** No string in the item is a single zero byte. */
  predicate NoZeroByte(x: Item) {
    match x
    case Str(s) => s != ZERO
    case List(items) => forall i :: 0 <= i < |items| ==> NoZeroByte(items[i])
  }

  /** An item that is read and written again is the same item if and only if no string in it is a single zero byte. */
  lemma {:induction false} ReloadedPlain(x: Item)
    ensures Plain(Reloaded(x)) == x <==> NoZeroByte(x)
    decreases x
  {
    match x
    case Str(s) =>
      if |s| == 1 {
        SingleByte(s);
      }
    case List(items) =>
      var r := PlainAll(ReloadedAll(items));
      forall i | 0 <= i < |items| ensures r[i] == items[i] <==> NoZeroByte(items[i]) {
        ReloadedPlain(items[i]);
      }
      if r == items {
        assert forall i :: 0 <= i < |items| ==> r[i] == items[i];
      }
  }

  lemma SingleByte(s: Bytes)
    requires |s| == 1
    ensures ToBigEndian(s[0]) == s <==> s != ZERO
  {
    if s[0] != 0 {
      assert ToBigEndian(s[0]) == ToBigEndian(0) + [s[0]];
    }
  }

  /** Nothing in the value is nil or a zero byte. */
  predicate Whole(v: GoValue) {
    match v
    case GoNil => false
    case GoByte(c) => c != 0
    case GoList(items) => forall i :: 0 <= i < |items| ==> Whole(items[i])
    case _ => true
  }

  lemma {:induction false} ReloadedWhole(x: Item)
    requires NoZeroByte(x)
    ensures Whole(Reloaded(x)) && Plain(Reloaded(x)) == x
    decreases x
  {
    ReloadedPlain(x);
    if x.List? {
      forall i | 0 <= i < |x.items| ensures Whole(Reloaded(x.items[i])) {
        ReloadedWhole(x.items[i]);
      }
    }
  }

  /**
   A leaf of the value "\x00" that was read back, split by another key (trie.go:304), written and read back again: its
   value is gone, and its node is not the one that a trie without the reading back in between would have written.
   */
  lemma ZeroByteForgotten(path: Bytes, rest: Bytes)
    requires |path| > 1 && |rest| > 1
    ensures var leaf := Reloaded(Plain(GoList([GoString(path), GoString(ZERO)])));
            var moved := GoList([GoString(rest), leaf.items[1]]);
            && leaf == GoList([GoBytes(path), GoByte(0)])
            && Reloaded(Plain(moved)) == GoList([GoBytes(rest), GoBytes([])])
            && Encoded(Plain(moved)) != Encoded(Plain(GoList([GoString(rest), GoString(ZERO)])))
  {
    LastByte(Str(rest), Str(ZERO));
    LastByte(Str(rest), Str([]));
    assert Encoded(Str(ZERO)) == ZERO && Encoded(Str([])) == [0x80];
    assert Plain(GoList([GoString(rest), GoString(ZERO)])) == List([Str(rest), Str(ZERO)]);
    assert Plain(GoList([GoString(rest), GoByte(0)])) == List([Str(rest), Str([])]);
  }

  /** The encoding of a pair ends as that of its second item. */
  lemma LastByte(x: Item, y: Item)
    ensures var e := Encoded(List([x, y])); e[|e| - 1] == Encoded(y)[|Encoded(y)| - 1]
  {
    var xs := [x, y];
    assert xs[1..] == [y] && xs[1..][1..] == [];
    assert EncodedAll([y]) == Encoded(y) + [];
  }

  // ---------- Value (ethutil/value.go) ----------

  /** `val.Len()`: a byte has none. */
  function Len(v: GoValue): nat {
    match v
    case GoString(s) => |s|
    case GoBytes(b) => |b|
    case GoList(items) => |items|
    case _ => 0
  }

  /** `val.Str()`: a list has none. */
  function StrOf(v: GoValue): Bytes {
    match v
    case GoString(s) => s
    case GoBytes(b) => b
    case GoByte(c) => [c]
    case _ => []
  }

  /** `val.Bytes()`: only a `[]byte` has any. */
  function BytesOf(v: GoValue): Bytes {
    if v.GoBytes? then v.b else []
  }

  /** `val.Get(i)`. */
  function ItemAt(v: GoValue, i: int): GoValue {
    if v.GoList? && 0 <= i < |v.items| then v.items[i] else GoNil
  }

  /** The test for an empty place at lines 277 and 349 of trie.go, which any Go string passes. */
  predicate Vacant(v: GoValue) {
    v.GoNil? || (v.GoString? && (v.s == [] || ItemAt(v, 0).GoNil?)) || Len(v) == 0
  }

  /** `.Str()` keeps the bytes of all values but lists. */
  lemma StrKeepsBytes(v: GoValue)
    requires Whole(v)
    ensures Plain(v).Str? ==> Plain(v) == Str(StrOf(v))
    ensures Plain(v).List? ==> v.GoList? && StrOf(v) == []
  {
    if v.GoByte? {
      SingleByte([v.c]);
    }
  }
}
