/**
 RLP (ethutil/rlp.go, ReadVarint of ethutil/bytes.go; Appendix B of the Ethereum Yellow Paper).

 An item is a byte string or a list of items. Integers are encoded through their big-endian bytes,
 and a decoded single byte is a one-byte string.
 */
module Rlp {
  import opened ByteStrings

  datatype Item = Str(str: Bytes) | List(items: seq<Item>)

  /** What `binary.Read` makes of a length field: exact for 8, 4, 2 and 1 bytes, else only the first byte. */
  function ReadVarint(b: Bytes): nat {
    if |b| == 8 || |b| == 4 || |b| == 2 then FromBigEndian(b)
    else if b == [] then 0
    else b[0]
  }

  /** The length prefix: one byte below 56, else the width of the length and the length. */
  function Header(base: nat, length: nat): (h: Bytes)
    ensures |h| > 0
  {
    if length < 56 then [ToByte(length + base)]
    else [ToByte(|ToBigEndian(length)| + base + 55)] + ToBigEndian(length)
  }

  function Encoded(x: Item): (e: Bytes)
    ensures |e| > 0
    decreases x, 0
  {
    match x
    case Str(b) => if |b| == 1 && b[0] <= 0x7f then b else Header(0x80, |b|) + b
    case List(xs) => Header(0xc0, |EncodedAll(xs)|) + EncodedAll(xs)
  }

  function EncodedAll(xs: seq<Item>): (e: Bytes)
    decreases xs
  {
    if xs == [] then [] else Encoded(xs[0]) + EncodedAll(xs[1..])
  }

  /** `data[pos:pos+n]` as an item, None where Go panics on the bounds. */
  function TakeStr(data: Bytes, pos: nat, n: nat): Option<(Item, nat)> {
    if pos + n > |data| then None else Some((Str(data[pos..pos + n]), pos + n))
  }

  function DecodeAt(data: Bytes, pos: nat): (r: Option<(Item, nat)>)
    ensures r.Some? ==> pos < r.value.1 <= |data|
    decreases |data| - pos, 0
  {
    if pos >= |data| then None else
      var c := data[pos];
      if c <= 0x7f then Some((Str([c]), pos + 1))
      else if c <= 0xb7 then TakeStr(data, pos + 1, c - 0x80)
      else if c <= 0xbf then
        var w := c - 0xb7;
        if pos + 1 + w > |data| then None
        else TakeStr(data, pos + 1 + w, ReadVarint(data[pos + 1..pos + 1 + w]))
      else if c <= 0xf7 then AsList(DecodeItems(data, pos + 1, c - 0xc0))
      else
        var w := c - 0xf7;
        if pos + 1 + w > |data| then None
        else AsList(DecodeItems(data, pos + 1 + w, ReadVarint(data[pos + 1..pos + 1 + w])))
  }

  function AsList(r: Option<(seq<Item>, nat)>): Option<(Item, nat)> {
    if r.None? then None else Some((List(r.value.0), r.value.1))
  }

  /** Items from `pos` on until at least `need` bytes are read. */
  function DecodeItems(data: Bytes, pos: nat, need: int): (r: Option<(seq<Item>, nat)>)
    requires pos <= |data|
    ensures r.Some? ==> pos <= r.value.1 <= |data|
    decreases |data| - pos, 1
  {
    if need <= 0 then Some(([], pos)) else
      var head := DecodeAt(data, pos);
      if head.None? then None else Prepend([head.value.0], DecodeItems(data, head.value.1, need - (head.value.1 - pos)))
  }

  function Prepend(xs: seq<Item>, r: Option<(seq<Item>, nat)>): Option<(seq<Item>, nat)> {
    if r.None? then None else Some((xs + r.value.0, r.value.1))
  }

  // ---------- What reads back ----------

  /** The length the decoder sees for a payload of `n` bytes. */
  function ReadLength(n: nat): nat {
    if n < 56 then n else ReadVarint(ToBigEndian(n))
  }

  /** Reading items until `need` bytes are used stops exactly after the last of `xs`. */
  predicate StopsAfter(xs: seq<Item>, need: int) {
    if xs == [] then need <= 0 else |EncodedAll(xs[..|xs| - 1])| < need <= |EncodedAll(xs)|
  }

  predicate ReadsBack(x: Item)
    decreases x, 0
  {
    match x
    case Str(b) => ReadLength(|b|) == |b|
    case List(xs) => AllReadBack(xs) && StopsAfter(xs, ReadLength(|EncodedAll(xs)|))
  }

  predicate AllReadBack(xs: seq<Item>)
    decreases xs
  {
    xs != [] ==> ReadsBack(xs[0]) && AllReadBack(xs[1..])
  }

  ghost predicate At(data: Bytes, pos: nat, e: Bytes) {
    pos + |e| <= |data| && data[pos..pos + |e|] == e
  }

  ghost predicate DecodesTo(data: Bytes, pos: nat, x: Item) {
    DecodeAt(data, pos).Some? && DecodeAt(data, pos).value.0 == x
  }

  ghost predicate ItemsDecodeTo(data: Bytes, pos: nat, need: int, xs: seq<Item>)
    requires pos <= |data|
  {
    DecodeItems(data, pos, need).Some? && DecodeItems(data, pos, need).value.0 == xs
  }

  /** Decoding at `pos` yields `x`, and then stops behind its encoding, exactly when `x` reads back. */
  ghost predicate ItemExact(data: Bytes, pos: nat, x: Item) {
    && (DecodesTo(data, pos, x) <==> ReadsBack(x))
    && (ReadsBack(x) ==> DecodeAt(data, pos).value.1 == pos + |Encoded(x)|)
  }

  lemma ReadLengthBounds(n: nat)
    ensures ReadLength(n) <= n
    ensures n > 0 ==> ReadLength(n) > 0
  {
    if n >= 56 {
      var b := ToBigEndian(n);
      FromToBigEndian(n);
      LeadingByteBound(b);
    }
  }

  lemma {:induction false} EncodedAllFront(xs: seq<Item>)
    requires xs != []
    ensures |EncodedAll(xs)| == |EncodedAll(xs[..|xs| - 1])| + |Encoded(xs[|xs| - 1])|
  {
    if |xs| == 1 {
      assert xs[..0] == [];
    } else {
      EncodedAllFront(xs[1..]);
      assert xs[1..][..|xs| - 2] == xs[..|xs| - 1][1..];
    }
  }

  lemma EncodedAllTail(xs: seq<Item>)
    requires |xs| > 1
    ensures |EncodedAll(xs[..|xs| - 1])| == |Encoded(xs[0])| + |EncodedAll(xs[1..][..|xs| - 2])|
  {
    assert xs[1..][..|xs| - 2] == xs[..|xs| - 1][1..];
  }

  lemma AtSplit(data: Bytes, pos: nat, a: Bytes, b: Bytes)
    requires At(data, pos, a + b)
    ensures At(data, pos, a) && At(data, pos + |a|, b)
  {
    assert data[pos..pos + |a|] == (a + b)[..|a|];
    assert data[pos + |a|..pos + |a| + |b|] == (a + b)[|a|..];
  }

  /**
   Decoding at the place of an encoding returns the item and the position just past it exactly when
   the item reads back.
   */
  lemma {:induction false} DecodeExact(data: Bytes, pos: nat, x: Item)
    requires At(data, pos, Encoded(x)) && |Encoded(x)| < MAX_LENGTH
    ensures ItemExact(data, pos, x)
    decreases x, 2
  {
    match x
    case Str(b) =>
      if |b| == 1 && b[0] <= 0x7f {
        assert data[pos] == data[pos..pos + 1][0];
      } else {
        AtSplit(data, pos, Header(0x80, |b|), b);
        StrExact(data, pos, b);
      }
    case List(xs) => ListExact(data, pos, xs);
  }

  lemma {:induction false} ListExact(data: Bytes, pos: nat, xs: seq<Item>)
    requires At(data, pos, Encoded(List(xs))) && |Encoded(List(xs))| < MAX_LENGTH
    ensures ItemExact(data, pos, List(xs))
    decreases xs, 1
  {
    var p := EncodedAll(xs);
    var h := Header(0xc0, |p|);
    assert Encoded(List(xs)) == h + p;
    AtSplit(data, pos, h, p);
    DecodeItemsExact(data, pos + |h|, xs, ReadLength(|p|));
    ListOfItems(data, pos, h, p, xs);
  }

  lemma ListOfItems(data: Bytes, pos: nat, h: Bytes, p: Bytes, xs: seq<Item>)
    requires p == EncodedAll(xs) && h == Header(0xc0, |p|) && |p| < MAX_LENGTH
    requires At(data, pos, h) && pos + |h| + |p| <= |data|
    requires ItemsExact(data, pos + |h|, xs, ReadLength(|p|))
    ensures ItemExact(data, pos, List(xs))
  {
    ListHeader(data, pos, |p|);
  }

  lemma HeaderAt(data: Bytes, pos: nat, base: nat, n: nat)
    requires base + 63 < 256 && n < MAX_LENGTH && At(data, pos, Header(base, n))
    ensures n < 56 ==> |Header(base, n)| == 1 && data[pos] == base + n
    ensures n >= 56 ==>
              var w := |ToBigEndian(n)|;
              && 1 <= w <= 8 && |Header(base, n)| == 1 + w
              && data[pos] == base + 55 + w && data[pos + 1..pos + 1 + w] == ToBigEndian(n)
  {
    if n < 56 {
      FirstAt(data, pos, ToByte(base + n), []);
    } else {
      LengthFitsEightBytes(n);
      FirstAt(data, pos, ToByte(|ToBigEndian(n)| + base + 55), ToBigEndian(n));
    }
  }

  lemma FirstAt(data: Bytes, pos: nat, c: byte, rest: Bytes)
    requires At(data, pos, [c] + rest)
    ensures data[pos] == c && data[pos + 1..pos + 1 + |rest|] == rest
  {
    AtSplit(data, pos, [c], rest);
    assert data[pos] == data[pos..pos + 1][0];
  }

  lemma StrExact(data: Bytes, pos: nat, b: Bytes)
    requires !(|b| == 1 && b[0] <= 0x7f) && |b| < MAX_LENGTH
    requires At(data, pos, Header(0x80, |b|)) && At(data, pos + |Header(0x80, |b|)|, b)
    ensures DecodesTo(data, pos, Str(b)) <==> ReadLength(|b|) == |b|
    ensures ReadLength(|b|) == |b| ==> DecodeAt(data, pos).value.1 == pos + |Header(0x80, |b|)| + |b|
  {
    var start := pos + |Header(0x80, |b|)|;
    HeaderAt(data, pos, 0x80, |b|);
    assert DecodeAt(data, pos) == TakeStr(data, start, ReadLength(|b|));
    ReadLengthBounds(|b|);
    assert |data[start..start + ReadLength(|b|)]| == ReadLength(|b|);
  }

  lemma ListHeader(data: Bytes, pos: nat, n: nat)
    requires n < MAX_LENGTH && At(data, pos, Header(0xc0, n))
    ensures DecodeAt(data, pos) == AsList(DecodeItems(data, pos + |Header(0xc0, n)|, ReadLength(n)))
  {
    HeaderAt(data, pos, 0xc0, n);
  }

  lemma {:induction false} DecodeItemsExact(data: Bytes, pos: nat, xs: seq<Item>, need: int)
    requires At(data, pos, EncodedAll(xs)) && |EncodedAll(xs)| < MAX_LENGTH
    ensures ItemsExact(data, pos, xs, need)
    decreases xs, 0
  {
    if xs == [] || need <= 0 {
      NoItemsExact(data, pos, xs, need);
    } else {
      AtSplit(data, pos, Encoded(xs[0]), EncodedAll(xs[1..]));
      DecodeExact(data, pos, xs[0]);
      var l := |Encoded(xs[0])|;
      DecodeItemsExact(data, pos + l, xs[1..], need - l);
      ItemsExactStep(data, pos, xs, need);
    }
  }

  /** Decoding items at `pos` yields `xs` exactly when they read back and reading stops after them. */
  ghost predicate ItemsExact(data: Bytes, pos: nat, xs: seq<Item>, need: int)
    requires pos <= |data|
  {
    && (ItemsDecodeTo(data, pos, need, xs) <==> AllReadBack(xs) && StopsAfter(xs, need))
    && (ItemsDecodeTo(data, pos, need, xs) ==> DecodeItems(data, pos, need).value.1 == pos + |EncodedAll(xs)|)
  }

  lemma ItemsExactStep(data: Bytes, pos: nat, xs: seq<Item>, need: int)
    requires xs != [] && need > 0 && pos + |Encoded(xs[0])| <= |data|
    requires ItemExact(data, pos, xs[0])
    requires ItemsExact(data, pos + |Encoded(xs[0])|, xs[1..], need - |Encoded(xs[0])|)
    ensures ItemsExact(data, pos, xs, need)
  {
    if ReadsBack(xs[0]) {
      ItemsAfterGood(data, pos, xs, need);
    } else {
      HeadDecodes(data, pos, need);
    }
  }

  lemma ItemsAfterGood(data: Bytes, pos: nat, xs: seq<Item>, need: int)
    requires xs != [] && need > 0 && pos + |Encoded(xs[0])| <= |data|
    requires ItemExact(data, pos, xs[0]) && ReadsBack(xs[0])
    requires ItemsExact(data, pos + |Encoded(xs[0])|, xs[1..], need - |Encoded(xs[0])|)
    ensures ItemsExact(data, pos, xs, need)
  {
    var l := |Encoded(xs[0])|;
    var tail := DecodeItems(data, pos + l, need - l);
    assert DecodeItems(data, pos, need) == Prepend([xs[0]], tail);
    PrependOne(xs, tail);
    StopsStep(xs, need);
    assert |EncodedAll(xs)| == l + |EncodedAll(xs[1..])|;
  }

  lemma PrependOne(xs: seq<Item>, tail: Option<(seq<Item>, nat)>)
    requires xs != []
    ensures var r := Prepend([xs[0]], tail);
            && (r.Some? <==> tail.Some?)
            && (r.Some? ==> r.value.1 == tail.value.1 && (r.value.0 == xs <==> tail.value.0 == xs[1..]))
  {
    assert xs == [xs[0]] + xs[1..];
    if tail.Some? {
      assert ([xs[0]] + tail.value.0)[1..] == tail.value.0;
    }
  }

  lemma HeadDecodes(data: Bytes, pos: nat, need: int)
    requires pos <= |data| && need > 0
    ensures var r := DecodeItems(data, pos, need);
            r.Some? ==> r.value.0 != [] && DecodesTo(data, pos, r.value.0[0])
  {}

  lemma NoItemsExact(data: Bytes, pos: nat, xs: seq<Item>, need: int)
    requires pos <= |data| && (xs == [] || need <= 0)
    ensures ItemsExact(data, pos, xs, need)
  {}

  lemma StopsStep(xs: seq<Item>, need: int)
    requires xs != [] && need > 0
    ensures StopsAfter(xs, need) <==> StopsAfter(xs[1..], need - |Encoded(xs[0])|)
  {
    if |xs| > 1 {
      EncodedAllTail(xs);
    }
  }

  // ---------- Consequences ----------

  /**
   Round trip at any position: decoding prefix + encoding + suffix at the end of the prefix returns the
   item and the position just past it exactly when the item reads back.
   */
  lemma RoundTrip(prefix: Bytes, x: Item, suffix: Bytes)
    requires |Encoded(x)| < MAX_LENGTH
    ensures DecodeAt(prefix + Encoded(x) + suffix, |prefix|) == Some((x, |prefix| + |Encoded(x)|)) <==> ReadsBack(x)
    ensures DecodesTo(prefix + Encoded(x) + suffix, |prefix|, x) <==> ReadsBack(x)
  {
    var data := prefix + Encoded(x) + suffix;
    assert data[|prefix|..|prefix| + |Encoded(x)|] == Encoded(x);
    DecodeExact(data, |prefix|, x);
  }

  /** No encoding of a readable item is a prefix of another one's; in particular Encode is injective on them. */
  lemma PrefixFree(x: Item, y: Item)
    requires ReadsBack(x) && ReadsBack(y) && |Encoded(x)| < MAX_LENGTH && |Encoded(y)| < MAX_LENGTH
    requires Encoded(x) <= Encoded(y)
    ensures x == y
  {
    DecodeExact(Encoded(y), 0, x);
    DecodeExact(Encoded(y), 0, y);
  }

  /** Every length from 56 on has a length field of 1, 2, 4 or 8 bytes. */
  predicate ExactWidth(n: nat) {
    n < 56 || |ToBigEndian(n)| in {1, 2, 4, 8}
  }

  /** A byte string reads back exactly when its length field has one of the exact widths. */
  lemma StrReadsBack(b: Bytes)
    requires |b| < MAX_LENGTH
    ensures ReadsBack(Str(b)) <==> ExactWidth(|b|)
  {
    if |b| >= 56 {
      var f := ToBigEndian(|b|);
      LengthFitsEightBytes(|b|);
      FromToBigEndian(|b|);
      if |f| == 1 {
        assert f[..0] == [];
      } else {
        LeadingByteBound(f[..|f| - 1]);
        assert FromBigEndian(f) >= 256;
      }
    }
  }

  predicate AllWidthsExact(x: Item)
    decreases x, 0
  {
    match x
    case Str(b) => ExactWidth(|b|)
    case List(xs) => EachWidthExact(xs) && ExactWidth(|EncodedAll(xs)|)
  }

  predicate EachWidthExact(xs: seq<Item>)
    decreases xs
  {
    xs != [] ==> AllWidthsExact(xs[0]) && EachWidthExact(xs[1..])
  }

  /** Items all of whose length fields are 1, 2, 4 or 8 bytes wide read back. */
  lemma {:induction false} ExactWidthsReadBack(x: Item)
    requires AllWidthsExact(x) && |Encoded(x)| < MAX_LENGTH
    ensures ReadsBack(x)
    decreases x, 0
  {
    match x
    case Str(b) => StrReadsBack(b);
    case List(xs) =>
      EachReadsBack(xs);
      StrReadsBack(EncodedAll(xs));
      if xs != [] {
        EncodedAllFront(xs);
      }
  }

  lemma {:induction false} EachReadsBack(xs: seq<Item>)
    requires EachWidthExact(xs) && |EncodedAll(xs)| < MAX_LENGTH
    ensures AllReadBack(xs)
    decreases xs
  {
    if xs != [] {
      ExactWidthsReadBack(xs[0]);
      EachReadsBack(xs[1..]);
    }
  }

  /** An encoding below 65536 bytes has only exact widths, so it reads back. */
  lemma {:induction false} SmallReadsBack(x: Item)
    requires |Encoded(x)| < 65536
    ensures AllWidthsExact(x) && ReadsBack(x)
  {
    SmallWidths(x);
    ExactWidthsReadBack(x);
  }

  lemma {:induction false} SmallWidths(x: Item)
    requires |Encoded(x)| < 65536
    ensures AllWidthsExact(x)
    decreases x, 0
  {
    match x
    case Str(b) => SmallWidth(|b|);
    case List(xs) =>
      SmallWidth(|EncodedAll(xs)|);
      EachSmallWidth(xs);
  }

  lemma {:induction false} EachSmallWidth(xs: seq<Item>)
    requires |EncodedAll(xs)| < 65536
    ensures EachWidthExact(xs)
    decreases xs
  {
    if xs != [] {
      SmallWidths(xs[0]);
      EachSmallWidth(xs[1..]);
    }
  }

  lemma SmallWidth(n: nat)
    requires n < 65536
    ensures ExactWidth(n)
  {
    assert Pow256(2) == 256 * Pow256(1);
    BigEndianWidth(n, 2);
  }

  /** A string of 65536 bytes has a three-byte length field, of which the decoder reads only the first byte. */
  lemma ThreeByteLengthMisread(b: Bytes)
    requires |b| == 65536
    ensures !ReadsBack(Str(b)) && !DecodesTo(Encoded(Str(b)), 0, Str(b))
  {
    assert Pow256(3) == 256 * Pow256(2) && Pow256(2) == 256 * Pow256(1);
    BigEndianWidth(65536, 2);
    BigEndianWidth(65536, 3);
    StrReadsBack(b);
    assert [] + Encoded(Str(b)) + [] == Encoded(Str(b));
    assert |Encoded(Str(b))| < MAX_LENGTH by {
      LengthFitsEightBytes(65536);
    }
    RoundTrip([], Str(b), []);
  }

  // ---------- The printer and the parser as the source writes them ----------

  /** Encode: writes into a buffer; the elements of a list go through a buffer of their own. */
  method Encode(value: Item) returns (buff: Bytes)
    ensures buff == Encoded(value)
    decreases value
  {
    buff := [];
    match value
    case Str(t) =>
      if |t| == 1 && t[0] <= 0x7f {
        buff := buff + t;
      } else if |t| < 56 {
        buff := buff + [ToByte(|t| + 0x80)];
        buff := buff + t;
      } else {
        var b := ToBigEndian(|t|);
        buff := buff + [ToByte(|b| + 0xb7)];
        buff := buff + b;
        buff := buff + t;
      }
    case List(t) =>
      var b := [];
      var i := 0;
      while i < |t|
        invariant 0 <= i <= |t|
        invariant b + EncodedAll(t[i..]) == EncodedAll(t)
      {
        var e := Encode(t[i]);
        assert t[i..][1..] == t[i + 1..];
        b := b + e;
        i := i + 1;
      }
      buff := WriteSliceHeader(buff, |b|);
      buff := buff + b;
  }

  method WriteSliceHeader(buff: Bytes, length: nat) returns (r: Bytes)
    ensures r == buff + Header(0xc0, length)
  {
    if length < 56 {
      r := buff + [ToByte(length + 0xc0)];
    } else {
      var b := ToBigEndian(length);
      r := buff + [ToByte(|b| + 0xf7)];
      r := r + b;
    }
  }

  /** Decode at `pos0`; None is the panic on an index or slice out of range. */
  method Decode(data: Bytes, pos0: nat) returns (r: Option<(Item, nat)>)
    ensures r == DecodeAt(data, pos0)
    decreases |data| - pos0, 1
  {
    var pos := pos0;
    if pos >= |data| {
      return None;
    }
    var first := data[pos];
    if first <= 0x7f {
      return Some((Str([data[pos]]), pos + 1));
    } else if first <= 0xb7 {
      var b := data[pos] - 0x80;
      return TakeStr(data, pos + 1, b);
    } else if first <= 0xbf {
      var b := data[pos] - 0xb7;
      if pos + 1 + b > |data| {
        return None;
      }
      var b2 := ReadVarint(data[pos + 1..pos + 1 + b]);
      return TakeStr(data, pos + 1 + b, b2);
    } else if first <= 0xf7 {
      var b := data[pos] - 0xc0;
      pos := pos + 1;
      var items := DecodeLoop(data, pos, b);
      return AsList(items);
    } else {
      var l := data[pos] - 0xf7;
      if pos + 1 + l > |data| {
        return None;
      }
      var b := ReadVarint(data[pos + 1..pos + 1 + l]);
      pos := pos + l + 1;
      var items := DecodeLoop(data, pos, b);
      return AsList(items);
    }
  }

  /** The loop both list cases of Decode run. */
  method DecodeLoop(data: Bytes, pos0: nat, b: nat) returns (r: Option<(seq<Item>, nat)>)
    requires pos0 <= |data|
    ensures r == DecodeItems(data, pos0, b)
    decreases |data| - pos0, 2
  {
    var pos := pos0;
    var slice: seq<Item> := [];
    var i := 0;
    PrependNothing(DecodeItems(data, pos0, b));
    while i < b
      invariant pos0 <= pos <= |data|
      invariant DecodeItems(data, pos0, b) == Prepend(slice, DecodeItems(data, pos, b - i))
      decreases |data| - pos
    {
      var obj := Decode(data, pos);
      if obj.None? {
        return None;
      }
      PrependAssoc(slice, [obj.value.0], DecodeItems(data, obj.value.1, b - i - (obj.value.1 - pos)));
      slice := slice + [obj.value.0];
      i := i + (obj.value.1 - pos);
      pos := obj.value.1;
    }
    assert slice + [] == slice;
    return Some((slice, pos));
  }

  lemma PrependNothing(r: Option<(seq<Item>, nat)>)
    ensures Prepend([], r) == r
  {
    if r.Some? {
      assert [] + r.value.0 == r.value.0;
    }
  }

  lemma PrependAssoc(a: seq<Item>, b: seq<Item>, r: Option<(seq<Item>, nat)>)
    ensures Prepend(a, Prepend(b, r)) == Prepend(a + b, r)
  {
    if r.Some? {
      assert a + (b + r.value.0) == a + b + r.value.0;
    }
  }
}
