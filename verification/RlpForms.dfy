/**
 All the ways in which an item can be written so that Decode of ethutil/rlp.go reads it, and the one that Encode writes:
 the shortest.
 */
module RlpForms {
  import opened ByteStrings
  import opened Rlp

  // ---------- What Decode reads ----------

  /** A length field: 8, 4, 2 or 1 bytes are a number, and of any other width only the first byte counts. */
  ghost predicate LengthIs(f: Bytes, n: nat) {
    if |f| in {1, 2, 4, 8} then FromBigEndian(f) == n else f != [] && f[0] == n
  }

  /** A byte string: a single low byte, or a header and the bytes. */
  ghost predicate StrForm(d: Bytes, b: Bytes) {
    || (|b| == 1 && b[0] < 0x80 && d == b)
    || (|b| < 0x38 && d == [0x80 + |b|] + b)
    || (exists w :: 1 <= w <= 8 && LongForm(d, 0xb7, w, |b|) && d[1 + w..] == b)
  }

  /** A header with a length field of `w` bytes. */
  ghost predicate LongForm(d: Bytes, base: nat, w: nat, n: nat) {
    |d| >= 1 + w && d[0] == base + w && LengthIs(d[1..1 + w], n)
  }

  /** The headers of a list: its declared length, and where its items start. */
  ghost predicate ListForm(d: Bytes, start: nat, need: nat) {
    || (start == 1 && need < 0x38 && d != [] && d[0] == 0xc0 + need)
    || (2 <= start <= 9 && LongForm(d, 0xf7, start - 1, need))
  }

  /** `d` is written as the item. */
  ghost predicate Spells(d: Bytes, x: Item)
    decreases x, 1
  {
    match x
    case Str(b) => StrForm(d, b)
    case List(xs) => exists start: nat, need: nat :: ListForm(d, start, need) && SpellAll(d[start..], xs, need)
  }

  /** Items one after the other, the last of which reaches the declared length; it may go beyond. */
  ghost predicate SpellAll(d: Bytes, xs: seq<Item>, need: int)
    decreases xs, 0
  {
    if need <= 0 then xs == [] && d == []
    else xs != [] && exists n :: 0 < n <= |d| && Spells(d[..n], xs[0]) && SpellAll(d[n..], xs[1..], need - n)
  }

  lemma ReadVarintExact(f: Bytes, n: nat)
    requires f != []
    ensures LengthIs(f, n) <==> ReadVarint(f) == n
  {
    if |f| == 1 {
      assert f[..0] == [];
      assert FromBigEndian(f[..0]) == 0;
    }
  }

  /** A part of a part. */
  lemma Parts(data: Bytes, pos: nat, end: nat, a: nat, b: nat)
    requires pos <= end <= |data| && a <= b <= end - pos
    ensures data[pos..end][a..b] == data[pos + a..pos + b]
  {
    var d := data[pos..end];
    assert forall i :: a <= i < b ==> d[i] == data[pos + i];
  }

  lemma Halves(data: Bytes, pos: nat, end: nat, n: nat)
    requires pos <= end <= |data| && n <= end - pos
    ensures data[pos..end][..n] == data[pos..pos + n] && data[pos..end][n..] == data[pos + n..end]
  {
    Parts(data, pos, end, 0, n);
    Parts(data, pos, end, n, end - pos);
  }

  lemma LongFormAt(data: Bytes, pos: nat, base: nat, w: nat, n: nat, end: nat)
    requires 1 <= w && pos + 1 + w <= end <= |data| && data[pos] == base + w
    requires ReadVarint(data[pos + 1..pos + 1 + w]) == n
    ensures LongForm(data[pos..end], base, w, n)
  {
    Parts(data, pos, end, 1, 1 + w);
    ReadVarintExact(data[pos + 1..pos + 1 + w], n);
  }

  lemma {:induction false} ReadIsSpelled(data: Bytes, pos: nat)
    requires DecodeAt(data, pos).Some?
    ensures var r := DecodeAt(data, pos).value; Spells(data[pos..r.1], r.0)
    decreases |data| - pos, 1
  {
    var c := data[pos];
    if c < 0x80 {
      ReadLow(data, pos);
    } else if c <= 0xb7 {
      ReadShort(data, pos);
    } else if c <= 0xbf {
      ReadLong(data, pos);
    } else {
      ReadList(data, pos);
    }
  }

  /** What is read at `pos` is a string that is written there. */
  ghost predicate IsForm(data: Bytes, pos: nat, r: Option<(Item, nat)>) {
    && r.Some? && r.value.0.Str? && pos <= r.value.1 <= |data|
    && StrForm(data[pos..r.value.1], r.value.0.str)
  }

  lemma ReadLow(data: Bytes, pos: nat)
    requires pos < |data| && data[pos] < 0x80
    ensures IsForm(data, pos, DecodeAt(data, pos))
  {
    assert data[pos..pos + 1] == [data[pos]];
  }

  lemma ReadShort(data: Bytes, pos: nat)
    requires DecodeAt(data, pos).Some? && 0x80 <= data[pos] <= 0xb7
    ensures IsForm(data, pos, DecodeAt(data, pos))
  {
    var n := data[pos] - 0x80;
    ShortForm(data, pos, n);
    assert DecodeAt(data, pos) == Some((Str(data[pos + 1..pos + 1 + n]), pos + 1 + n));
  }

  lemma ReadLong(data: Bytes, pos: nat)
    requires DecodeAt(data, pos).Some? && 0xb7 < data[pos] <= 0xbf
    ensures IsForm(data, pos, DecodeAt(data, pos))
  {
    var w, n := LongHeader(data, pos);
    ReadLongOf(data, pos, w, n);
  }

  lemma LongHeader(data: Bytes, pos: nat) returns (w: nat, n: nat)
    requires DecodeAt(data, pos).Some? && 0xb7 < data[pos] <= 0xbf
    ensures 1 <= w <= 8 && pos + 1 + w + n <= |data| && data[pos] == 0xb7 + w
    ensures ReadVarint(data[pos + 1..pos + 1 + w]) == n
    ensures DecodeAt(data, pos) == TakeStr(data, pos + 1 + w, n)
  {
    w := data[pos] - 0xb7;
    n := ReadVarint(data[pos + 1..pos + 1 + w]);
  }

  lemma ReadLongOf(data: Bytes, pos: nat, w: nat, n: nat)
    requires 1 <= w <= 8 && pos + 1 + w + n <= |data| && data[pos] == 0xb7 + w
    requires ReadVarint(data[pos + 1..pos + 1 + w]) == n
    ensures IsForm(data, pos, TakeStr(data, pos + 1 + w, n))
  {
    LongStrForm(data, pos, w, n);
  }

  lemma ShortForm(data: Bytes, pos: nat, n: nat)
    requires n < 0x38 && pos + 1 + n <= |data| && data[pos] == 0x80 + n
    ensures StrForm(data[pos..pos + 1 + n], data[pos + 1..pos + 1 + n])
  {
    var d := data[pos..pos + 1 + n];
    Halves(data, pos, pos + 1 + n, 1);
    assert d == d[..1] + d[1..] && d[..1] == [0x80 + n];
  }

  lemma LongStrForm(data: Bytes, pos: nat, w: nat, n: nat)
    requires 1 <= w <= 8 && pos + 1 + w + n <= |data| && data[pos] == 0xb7 + w
    requires ReadVarint(data[pos + 1..pos + 1 + w]) == n
    ensures StrForm(data[pos..pos + 1 + w + n], data[pos + 1 + w..pos + 1 + w + n])
  {
    LongFormAt(data, pos, 0xb7, w, n, pos + 1 + w + n);
    Halves(data, pos, pos + 1 + w + n, 1 + w);
  }

  lemma {:induction false} ReadList(data: Bytes, pos: nat)
    requires DecodeAt(data, pos).Some? && data[pos] > 0xbf
    ensures var r := DecodeAt(data, pos).value; Spells(data[pos..r.1], r.0)
    decreases |data| - pos, 0
  {
    var c, r := data[pos], DecodeAt(data, pos).value;
    var d := data[pos..r.1];
    var start := if c <= 0xf7 then 1 else 1 + c - 0xf7;
    var need := if c <= 0xf7 then c - 0xc0 else ReadVarint(data[pos + 1..pos + start]);
    if c > 0xf7 {
      LongFormAt(data, pos, 0xf7, start - 1, need, r.1);
    }
    assert ListForm(d, start, need);
    ReadAll(data, pos + start, need);
    Halves(data, pos, r.1, start);
  }

  lemma {:induction false} ReadAll(data: Bytes, pos: nat, need: int)
    requires pos <= |data| && DecodeItems(data, pos, need).Some?
    ensures var r := DecodeItems(data, pos, need).value; SpellAll(data[pos..r.1], r.0, need)
    decreases |data| - pos, 2
  {
    if need > 0 {
      var head := DecodeAt(data, pos).value;
      ReadIsSpelled(data, pos);
      ReadAll(data, head.1, need - (head.1 - pos));
      ReadJoins(data, pos, head, DecodeItems(data, head.1, need - (head.1 - pos)).value, need);
    }
  }

  lemma ReadJoins(data: Bytes, pos: nat, head: (Item, nat), tail: (seq<Item>, nat), need: int)
    requires pos < head.1 <= tail.1 <= |data| && need > 0
    requires Spells(data[pos..head.1], head.0) && SpellAll(data[head.1..tail.1], tail.0, need - (head.1 - pos))
    ensures SpellAll(data[pos..tail.1], [head.0] + tail.0, need)
  {
    var n, d, xs := head.1 - pos, data[pos..tail.1], [head.0] + tail.0;
    Halves(data, pos, tail.1, n);
    assert xs[1..] == tail.0;
    assert Spells(d[..n], xs[0]) && SpellAll(d[n..], xs[1..], need - n);
  }

  lemma StrIsRead(data: Bytes, pos: nat, end: nat, b: Bytes)
    requires pos <= end <= |data| && StrForm(data[pos..end], b)
    ensures DecodeAt(data, pos) == Some((Str(b), end))
  {
    var d := data[pos..end];
    assert d != [] && d[0] == data[pos];
    if |b| == 1 && b[0] < 0x80 && d == b {
      assert b == [data[pos]];
    } else if |b| < 0x38 && d == [0x80 + |b|] + b {
      Parts(data, pos, end, 1, end - pos);
      assert d[1..] == b;
      assert data[pos + 1..end] == b;
    } else {
      LongStrIsRead(data, pos, end, b);
    }
  }

  lemma LongStrIsRead(data: Bytes, pos: nat, end: nat, b: Bytes)
    requires pos <= end <= |data|
    requires exists w :: 1 <= w <= 8 && LongForm(data[pos..end], 0xb7, w, |b|) && data[pos..end][1 + w..] == b
    ensures DecodeAt(data, pos) == Some((Str(b), end))
  {
    var d := data[pos..end];
    var w :| 1 <= w <= 8 && LongForm(d, 0xb7, w, |b|) && d[1 + w..] == b;
    Parts(data, pos, end, 1, 1 + w);
    Parts(data, pos, end, 1 + w, end - pos);
    ReadVarintExact(d[1..1 + w], |b|);
    assert data[pos + 1 + w..end] == b;
  }

  lemma {:induction false} SpelledIsRead(data: Bytes, pos: nat, end: nat, x: Item)
    requires pos <= end <= |data| && Spells(data[pos..end], x)
    ensures DecodeAt(data, pos) == Some((x, end))
    decreases x, 1
  {
    match x
    case Str(b) => StrIsRead(data, pos, end, b);
    case List(xs) =>
      var d := data[pos..end];
      var start: nat, need: nat :| ListForm(d, start, need) && SpellAll(d[start..], xs, need);
      Parts(data, pos, end, start, end - pos);
      assert d[start..] == data[pos + start..end];
      SpelledAllRead(data, pos + start, end, xs, need);
      ListIsRead(data, pos, end, start, need);
  }

  lemma ListIsRead(data: Bytes, pos: nat, end: nat, start: nat, need: nat)
    requires pos <= end <= |data| && ListForm(data[pos..end], start, need)
    ensures start <= end - pos && DecodeAt(data, pos) == AsList(DecodeItems(data, pos + start, need))
  {
    var d := data[pos..end];
    assert d[0] == data[pos];
    if start > 1 {
      Parts(data, pos, end, 1, start);
      ReadVarintExact(d[1..start], need);
    }
  }

  lemma {:induction false} SpelledAllRead(data: Bytes, pos: nat, end: nat, xs: seq<Item>, need: int)
    requires pos <= end <= |data| && SpellAll(data[pos..end], xs, need)
    ensures DecodeItems(data, pos, need) == Some((xs, end))
    decreases xs, 0
  {
    if need > 0 {
      var n := FirstPart(data, pos, end, xs, need);
      SpelledIsRead(data, pos, pos + n, xs[0]);
      SpelledAllRead(data, pos + n, end, xs[1..], need - n);
      ReadsOn(data, pos, pos + n, end, xs, need);
    }
  }

  lemma FirstPart(data: Bytes, pos: nat, end: nat, xs: seq<Item>, need: int) returns (n: nat)
    requires pos <= end <= |data| && SpellAll(data[pos..end], xs, need) && need > 0
    ensures xs != [] && 0 < n <= end - pos
    ensures Spells(data[pos..pos + n], xs[0]) && SpellAll(data[pos + n..end], xs[1..], need - n)
  {
    var d := data[pos..end];
    n :| 0 < n <= |d| && Spells(d[..n], xs[0]) && SpellAll(d[n..], xs[1..], need - n);
    Halves(data, pos, end, n);
  }

  lemma ReadsOn(data: Bytes, pos: nat, mid: nat, end: nat, xs: seq<Item>, need: int)
    requires xs != [] && need > 0 && DecodeAt(data, pos) == Some((xs[0], mid))
    requires DecodeItems(data, mid, need - (mid - pos)) == Some((xs[1..], end))
    ensures DecodeItems(data, pos, need) == Some((xs, end))
  {
    assert [xs[0]] + xs[1..] == xs;
  }

  /** On any data, at any position: Decode reads an item up to a place if and only if it is written there. */
  lemma DecodesSpelled(data: Bytes, pos: nat, x: Item, end: nat)
    ensures DecodeAt(data, pos) == Some((x, end)) <==> pos < end <= |data| && Spells(data[pos..end], x)
  {
    if DecodeAt(data, pos) == Some((x, end)) {
      ReadIsSpelled(data, pos);
    }
    if pos < end <= |data| && Spells(data[pos..end], x) {
      SpelledIsRead(data, pos, end, x);
    }
  }

  // ---------- What Encode writes ----------

  /** Written with lengths that are what they say, in every list. */
  ghost predicate Spelled(d: Bytes, x: Item)
    decreases x, 1
  {
    match x
    case Str(b) => StrForm(d, b)
    case List(xs) => exists start: nat :: start <= |d| && ListForm(d, start, |d| - start) && SpelledAll(d[start..], xs)
  }

  ghost predicate SpelledAll(d: Bytes, xs: seq<Item>)
    decreases xs, 0
  {
    if xs == [] then d == []
    else exists n :: 0 < n <= |d| && Spelled(d[..n], xs[0]) && SpelledAll(d[n..], xs[1..])
  }

  /** Decode reads all of these. */
  lemma {:induction false} SpelledDecodes(d: Bytes, x: Item)
    requires Spelled(d, x)
    ensures DecodeAt(d, 0) == Some((x, |d|))
  {
    SpelledSpells(d, x);
    assert d != [] && d[0..|d|] == d;
    DecodesSpelled(d, 0, x, |d|);
  }

  lemma {:induction false} SpelledSpells(d: Bytes, x: Item)
    requires Spelled(d, x)
    ensures d != [] && Spells(d, x)
    decreases x, 1
  {
    if x.List? {
      var start: nat :| start <= |d| && ListForm(d, start, |d| - start) && SpelledAll(d[start..], x.items);
      SpelledAllSpell(d[start..], x.items);
    }
  }

  lemma {:induction false} SpelledAllSpell(d: Bytes, xs: seq<Item>)
    requires SpelledAll(d, xs)
    ensures SpellAll(d, xs, |d|)
    decreases xs, 0
  {
    if xs != [] {
      var n :| 0 < n <= |d| && Spelled(d[..n], xs[0]) && SpelledAll(d[n..], xs[1..]);
      SpelledSpells(d[..n], xs[0]);
      SpelledAllSpell(d[n..], xs[1..]);
    }
  }

  /** It is the shortest such form, and there is no other one of that length. */
  ghost predicate Least(d: Bytes, e: Bytes) {
    |e| <= |d| && (|e| == |d| ==> e == d)
  }

  lemma FromBigEndianBound(f: Bytes)
    ensures FromBigEndian(f) < Pow256(|f|)
  {}

  lemma {:induction false} SameDigits(f: Bytes, g: Bytes)
    requires |f| == |g| && FromBigEndian(f) == FromBigEndian(g)
    ensures f == g
  {
    if f != [] {
      var k := |f| - 1;
      SameDigits(f[..k], g[..k]);
      assert f == f[..k] + [f[k]] && g == g[..k] + [g[k]];
    }
  }

  /** A length field is at least as wide as the number is, and of that width it is the number's bytes. */
  lemma LengthWidth(f: Bytes, n: nat)
    requires LengthIs(f, n)
    ensures Least(f, ToBigEndian(n))
  {
    FromBigEndianBound(f);
    FromToBigEndian(n);
    if |f| in {1, 2, 4, 8} {
      BigEndianWidth(n, |f|);
      if |ToBigEndian(n)| == |f| {
        SameDigits(f, ToBigEndian(n));
      }
    } else {
      BigEndianWidth(n, 1);
      assert Pow256(1) == 256;
    }
  }

  lemma WidthGrows(m: nat, n: nat)
    requires m <= n
    ensures |ToBigEndian(m)| <= |ToBigEndian(n)|
  {
    BigEndianWidth(n, |ToBigEndian(n)|);
    BigEndianWidth(m, |ToBigEndian(n)|);
  }

  lemma HeaderGrows(base: nat, m: nat, n: nat)
    requires m <= n
    ensures |Header(base, m)| <= |Header(base, n)|
  {
    WidthGrows(m, n);
  }

  lemma TailOf(h: Bytes)
    requires h != []
    ensures h[1..1 + (|h| - 1)] == h[1..] && h == [h[0]] + h[1..]
  {}

  /** The header that Encode writes, against any that declares the same length. */
  lemma HeaderLeast(h: Bytes, base: nat, n: nat)
    requires base in {0x80, 0xc0} && n < MAX_LENGTH
    requires (n < 0x38 && h == [base + n]) || (2 <= |h| <= 9 && LongForm(h, base + 55, |h| - 1, n))
    ensures Least(h, Header(base, n))
  {
    if |h| > 1 {
      TailOf(h);
      LengthWidth(h[1..], n);
    }
  }

  lemma LeastJoin(h: Bytes, p: Bytes, g: Bytes, q: Bytes)
    requires Least(h, g) && Least(p, q)
    ensures Least(h + p, g + q)
  {}

  lemma StrLeast(d: Bytes, b: Bytes)
    requires StrForm(d, b) && |b| < MAX_LENGTH
    ensures Least(d, Encoded(Str(b)))
  {
    if |b| == 1 && b[0] < 0x80 {
      if |b| < 0x38 && d == [0x80 + |b|] + b {
        assert |d| == 2;
      }
    } else if |b| < 0x38 && d == [0x80 + |b|] + b {
      HeaderLeast([0x80 + |b|], 0x80, |b|);
    } else {
      var w :| 1 <= w <= 8 && LongForm(d, 0xb7, w, |b|) && d[1 + w..] == b;
      var h := d[..1 + w];
      assert d == h + b && h[1..1 + (|h| - 1)] == d[1..1 + w];
      HeaderLeast(h, 0x80, |b|);
      LeastJoin(h, b, Header(0x80, |b|), b);
    }
  }

  lemma {:induction false} EncodeIsShortest(d: Bytes, x: Item)
    requires Spelled(d, x) && |d| < MAX_LENGTH
    ensures Least(d, Encoded(x))
    decreases x, 1
  {
    match x
    case Str(b) => StrLeast(d, b);
    case List(xs) =>
      var start: nat :| start <= |d| && ListForm(d, start, |d| - start) && SpelledAll(d[start..], xs);
      AllShortest(d[start..], xs);
      ListLeast(d, start, xs);
  }

  /** Whatever bytes are read as a string in full, Encode writes it in no more, and in the same number only alike. */
  lemma StrShortest(d: Bytes, b: Bytes)
    requires DecodeAt(d, 0) == Some((Str(b), |d|)) && |d| < MAX_LENGTH
    ensures Least(d, Encoded(Str(b)))
  {
    DecodesSpelled(d, 0, Str(b), |d|);
    assert d[0..|d|] == d;
    EncodeIsShortest(d, Str(b));
  }

  lemma ListLeast(d: Bytes, start: nat, xs: seq<Item>)
    requires start <= |d| < MAX_LENGTH && ListForm(d, start, |d| - start) && Least(d[start..], EncodedAll(xs))
    ensures Least(d, Encoded(List(xs)))
  {
    var h, p, q := d[..start], d[start..], EncodedAll(xs);
    assert d == h + p && (start > 1 ==> h[1..1 + (|h| - 1)] == d[1..1 + (start - 1)]);
    HeaderLeast(h, 0xc0, |p|);
    HeaderGrows(0xc0, |q|, |p|);
    assert Encoded(List(xs)) == Header(0xc0, |q|) + q;
  }

  lemma {:induction false} AllShortest(d: Bytes, xs: seq<Item>)
    requires SpelledAll(d, xs) && |d| < MAX_LENGTH
    ensures Least(d, EncodedAll(xs))
    decreases xs, 0
  {
    if xs != [] {
      var n :| 0 < n <= |d| && Spelled(d[..n], xs[0]) && SpelledAll(d[n..], xs[1..]);
      EncodeIsShortest(d[..n], xs[0]);
      AllShortest(d[n..], xs[1..]);
      ConsLeast(d, n, xs);
    }
  }

  lemma ConsLeast(d: Bytes, n: nat, xs: seq<Item>)
    requires n <= |d| && xs != [] && Least(d[..n], Encoded(xs[0])) && Least(d[n..], EncodedAll(xs[1..]))
    ensures Least(d, EncodedAll(xs))
  {
    LeastJoin(d[..n], d[n..], Encoded(xs[0]), EncodedAll(xs[1..]));
    assert d == d[..n] + d[n..];
  }

  /** And Encode writes one, whenever its length fields are 1, 2, 4 or 8 bytes wide. */
  lemma {:induction false} EncodeSpells(x: Item)
    requires AllWidthsExact(x) && |Encoded(x)| < MAX_LENGTH
    ensures Spelled(Encoded(x), x)
    decreases x, 1
  {
    match x
    case Str(b) =>
      if !(|b| == 1 && b[0] < 0x80) {
        HeaderDeclares(0x80, |b|);
        StrSpells(b);
      }
    case List(xs) =>
      EachSpells(xs);
      HeaderDeclares(0xc0, |EncodedAll(xs)|);
      ListSpells(xs);
  }

  lemma HeaderDeclares(base: nat, n: nat)
    requires base in {0x80, 0xc0} && n < MAX_LENGTH && ExactWidth(n)
    ensures var h := Header(base, n);
            if n < 0x38 then h == [base + n] else 2 <= |h| <= 9 && LongForm(h, base + 55, |h| - 1, n)
  {
    if n >= 0x38 {
      LengthFitsEightBytes(n);
      LongDeclares(base + 55, ToBigEndian(n), n);
    }
  }

  lemma LongDeclares(base: nat, f: Bytes, n: nat)
    requires base <= 0xf7 && 1 <= |f| <= 8 && |f| in {1, 2, 4, 8} && f == ToBigEndian(n)
    ensures LongForm([base + |f|] + f, base, |f|, n)
  {
    FromToBigEndian(n);
    assert ([base + |f|] + f)[1..1 + |f|] == f;
  }

  lemma StrSpells(b: Bytes)
    requires !(|b| == 1 && b[0] < 0x80) && |b| < MAX_LENGTH
    requires var h := Header(0x80, |b|);
             if |b| < 0x38 then h == [0x80 + |b|] else 2 <= |h| <= 9 && LongForm(h, 0xb7, |h| - 1, |b|)
    ensures StrForm(Encoded(Str(b)), b)
  {
    var h := Header(0x80, |b|);
    var d := h + b;
    assert Encoded(Str(b)) == d;
    if |b| >= 0x38 {
      assert d[1..1 + (|h| - 1)] == h[1..1 + (|h| - 1)] && d[1 + (|h| - 1)..] == b;
      assert LongForm(d, 0xb7, |h| - 1, |b|);
    }
  }

  lemma ListSpells(xs: seq<Item>)
    requires SpelledAll(EncodedAll(xs), xs)
    requires var n, h := |EncodedAll(xs)|, Header(0xc0, |EncodedAll(xs)|);
             if n < 0x38 then h == [0xc0 + n] else 2 <= |h| <= 9 && LongForm(h, 0xf7, |h| - 1, n)
    ensures Spelled(Encoded(List(xs)), List(xs))
  {
    var p := EncodedAll(xs);
    var h := Header(0xc0, |p|);
    var d := h + p;
    assert Encoded(List(xs)) == d && d[|h|..] == p;
    if |p| >= 0x38 {
      assert d[1..1 + (|h| - 1)] == h[1..1 + (|h| - 1)];
    }
    assert ListForm(d, |h|, |d| - |h|);
  }

  lemma {:induction false} EachSpells(xs: seq<Item>)
    requires EachWidthExact(xs) && |EncodedAll(xs)| < MAX_LENGTH
    ensures SpelledAll(EncodedAll(xs), xs)
    decreases xs, 0
  {
    if xs != [] {
      EncodeSpells(xs[0]);
      EachSpells(xs[1..]);
      var d, n := EncodedAll(xs), |Encoded(xs[0])|;
      assert d[..n] == Encoded(xs[0]) && d[n..] == EncodedAll(xs[1..]);
    }
  }

  /**
   Where a list declares less than it holds, its last item goes beyond, and such a form can be shorter than the one that
   Encode writes.
   */
  lemma OvershootIsShorter(z: Bytes)
    requires |z| == 55
    ensures var d, x := [0xc1, 0xb7] + z, List([Str(z)]);
            DecodeAt(d, 0) == Some((x, |d|)) && |Encoded(x)| == |d| + 1
  {
    var d := [0xc1, 0xb7] + z;
    assert d[2..57] == z;
    assert DecodeAt(d, 1) == Some((Str(z), 57));
    var none: seq<Item> := [];
    assert DecodeItems(d, 57, -55) == Some((none, 57));
    assert [Str(z)] + none == [Str(z)];
    assert DecodeItems(d, 1, 1) == Some(([Str(z)], 57));
    assert [Str(z)][1..] == none;
    assert |EncodedAll([Str(z)])| == 56;
    BigEndianWidth(56, 1);
    assert Pow256(1) == 256;
  }
}
