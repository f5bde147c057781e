/**
 Framing (ethwire/messaging.go): packing a message and splitting what was read into messages again.

 Reading from and writing to the connection are not modelled: a method gets or returns the bytes.
 */
module Wire {
  import opened ByteStrings
  import opened Rlp

  const MAGIC_TOKEN: Bytes := [34, 64, 8, 145]

  /** The data of a message is a list. */
  datatype Msg = Msg(kind: byte, data: seq<Item>)

  function Payload(m: Msg): Item {
    List([Str(ToBigEndian(m.kind))] + m.data)
  }

  const LENGTHS: nat := 0x1_0000_0000

  /** NumberToBytes of a `uint32`. */
  function FourBytes(n: nat): (b: Bytes)
    ensures |b| == 4
  {
    [n / 256 / 256 / 256 % 256, n / 256 / 256 % 256, n / 256 % 256, n % 256]
  }

  lemma FourDigits(b: Bytes)
    requires |b| == 4
    ensures FromBigEndian(b) == (((b[0] as int) * 256 + b[1]) * 256 + b[2]) * 256 + b[3]
  {
    assert b[..3][..2] == b[..2] && b[..2][..1] == b[..1] && b[..1][..0] == [];
    assert FromBigEndian(b[..1][..0]) == 0;
    var first: int := FromBigEndian(b[..1]);
    var second: int := FromBigEndian(b[..2]);
    assert first == b[0] && second == first * 256 + b[1];
  }

  lemma Remainder(n: nat, q: nat, d: nat)
    requires n == LENGTHS * q + d && d < LENGTHS
    ensures n % LENGTHS == d
  {}

  lemma DigitsBack(n: nat)
    ensures n % LENGTHS ==
            ((n / 256 / 256 / 256 % 256 * 256 + n / 256 / 256 % 256) * 256 + n / 256 % 256) * 256 + n % 256
  {
    var a := n / 256;
    var b := a / 256;
    var c := b / 256;
    Remainder(n, c / 256, ((c % 256 * 256 + b % 256) * 256 + a % 256) * 256 + n % 256);
  }

  /** BytesToNumber pads to eight bytes, which does not change the number. */
  lemma FourBytesBack(n: nat)
    ensures FromBigEndian(FourBytes(n)) == n % LENGTHS
  {
    FourDigits(FourBytes(n));
    DigitsBack(n);
  }

  /** Token, length and payload; the length is cut to 32 bits. */
  function Packed(m: Msg): Bytes {
    MAGIC_TOKEN + FourBytes(|Encoded(Payload(m))|) + Encoded(Payload(m))
  }

  method WriteMessage(m: Msg) returns (pack: Bytes)
    ensures pack == Packed(m)
  {
    var encoded := Encode(List([Str(ToBigEndian(m.kind))] + m.data));
    pack := MAGIC_TOKEN + FourBytes(|encoded|);
    pack := pack + encoded;
  }

  // ---------- Reading ----------

  /** A message, the end, an error (which leaves nothing to read), or a panic. */
  datatype ReadResult = Read(msg: Msg, remaining: Bytes) | Done | Bad | Panic

  /** Value.Get(0).Uint() and Value.SliceFrom(1) of the decoded payload; None when taking the slice panics. */
  function AsMsg(r: Option<(Item, nat)>): Option<Msg> {
    if r.None? || r.value.0.Str? || r.value.0.items == [] then None
    else
      var items := r.value.0.items;
      Some(Msg(ToByte(if items[0].Str? then ReadVarint(items[0].str) else 0), items[1..]))
  }

  /** Behind the length; slicing beyond what was read panics before the length is compared. */
  function ReadBody(data: Bytes, length: nat): (r: ReadResult)
    ensures r.Read? ==> |r.remaining| + 8 <= |data|
  {
    if 8 + length > |data| then Panic
    else
      var m := AsMsg(DecodeAt(data[8..8 + length], 0));
      if m.None? then Panic else Read(m.value, data[8 + length..])
  }

  function ReadMessage(data: Bytes): (r: ReadResult)
    ensures r.Read? ==> |r.remaining| < |data|
  {
    if data == [] then Done
    else if |data| <= 8 then Bad
    else if data[..4] != MAGIC_TOKEN then Bad
    else ReadBody(data, FromBigEndian(data[4..8]))
  }

  /** What the loop makes of everything read: the messages, and whether it panicked. After an error it is done. */
  function ReadAll(buff: Bytes): (seq<Msg>, bool)
    decreases |buff|
  {
    match ReadMessage(buff)
    case Done => ([], false)
    case Bad => ([], false)
    case Panic => ([], true)
    case Read(m, rest) => ([m] + ReadAll(rest).0, ReadAll(rest).1)
  }

  /** What the loop ends with when it has `msgs` and the last result was `r`. */
  function From(msgs: seq<Msg>, r: ReadResult): (seq<Msg>, bool) {
    match r
    case Read(m, rest) => (msgs + [m] + ReadAll(rest).0, ReadAll(rest).1)
    case _ => (msgs, r.Panic?)
  }

  lemma FromNext(msgs: seq<Msg>, r: ReadResult)
    requires r.Read?
    ensures From(msgs + [r.msg], ReadMessage(r.remaining)) == From(msgs, r)
  {
    var next := ReadMessage(r.remaining);
    if next.Read? {
      assert msgs + [r.msg] + ([next.msg] + ReadAll(next.remaining).0) ==
             msgs + [r.msg] + [next.msg] + ReadAll(next.remaining).0;
    } else {
      assert msgs + [r.msg] + [] == msgs + [r.msg];
    }
  }

  method ReadMessages(buff: Bytes) returns (msgs: seq<Msg>, err: bool)
    ensures (msgs, err) == ReadAll(buff)
  {
    msgs := [];
    var r := ReadMessage(buff);
    if r.Read? {
      assert [] + [r.msg] == [r.msg];
    }
    while r.Read?
      invariant From(msgs, r) == ReadAll(buff)
      decreases if r.Read? then |r.remaining| + 1 else 0
    {
      FromNext(msgs, r);
      msgs := msgs + [r.msg];
      r := ReadMessage(r.remaining);
    }
    err := r.Panic?;
  }

  // ---------- Round trips ----------

  /** The kind is always read in full. */
  lemma KindReadsBack(kind: byte)
    ensures ReadsBack(Str(ToBigEndian(kind))) && ReadVarint(ToBigEndian(kind)) == kind
  {
    if kind > 0 {
      assert ToBigEndian(kind) == ToBigEndian(0) + [kind];
    }
  }

  ghost predicate Fits(m: Msg) {
    |Encoded(Payload(m))| < LENGTHS
  }

  /** Decoding a packed payload yields the message exactly when the payload reads back. */
  lemma PayloadExact(m: Msg)
    requires Fits(m)
    ensures AsMsg(DecodeAt(Encoded(Payload(m)), 0)) == Some(m) <==> ReadsBack(Payload(m))
  {
    var x := Payload(m);
    var e := Encoded(x);
    RoundTrip([], x, []);
    assert [] + e + [] == e;
    KindReadsBack(m.kind);
    if AsMsg(DecodeAt(e, 0)) == Some(m) {
      KindDecodes(m);
      var items := DecodeAt(e, 0).value.0.items;
      assert items == [items[0]] + items[1..];
    }
  }

  /** Whatever becomes of the data, the kind in front of it is read as it was written. */
  lemma KindDecodes(m: Msg)
    requires Fits(m) && AsMsg(DecodeAt(Encoded(Payload(m)), 0)).Some?
    ensures DecodeAt(Encoded(Payload(m)), 0).value.0.items[0] == Str(ToBigEndian(m.kind))
  {
    var kind := Str(ToBigEndian(m.kind));
    var xs := [kind] + m.data;
    var p := EncodedAll(xs);
    var h := Header(0xc0, |p|);
    assert xs[1..] == m.data;
    assert p == Encoded(kind) + EncodedAll(m.data);
    var e := h + p;
    assert At(e, 0, e);
    AtSplit(e, 0, h, p);
    ListHeader(e, 0, |p|);
    ReadLengthBounds(|p|);
    AtSplit(e, |h|, Encoded(kind), EncodedAll(m.data));
    HeadDecodes(e, |h|, ReadLength(|p|));
    DecodeExact(e, |h|, kind);
    KindReadsBack(m.kind);
  }

  lemma FrameOf(m: Msg, rest: Bytes)
    ensures var e := Encoded(Payload(m));
            var data := Packed(m) + rest;
            && data[..4] == MAGIC_TOKEN && data[4..8] == FourBytes(|e|)
             && data[8..8 + |e|] == e && data[8 + |e|..] == rest
  {}

  /** A packed message in front of anything is read as itself, leaving the rest, exactly when its payload reads back. */
  lemma ReadsPacked(m: Msg, rest: Bytes)
    requires Fits(m)
    ensures var r := ReadMessage(Packed(m) + rest);
            && (r == Read(m, rest) <==> ReadsBack(Payload(m)))
            && (r == Panic || (r.Read? && r.remaining == rest))
  {
    ReadsFrame(m, rest);
    PayloadExact(m);
  }

  lemma ReadsFrame(m: Msg, rest: Bytes)
    requires Fits(m)
    ensures var r := AsMsg(DecodeAt(Encoded(Payload(m)), 0));
            ReadMessage(Packed(m) + rest) == if r.None? then Panic else Read(r.value, rest)
  {
    BodyOf(m, rest);
    LengthOf(m, rest);
  }

  lemma BodyOf(m: Msg, rest: Bytes)
    ensures var e := Encoded(Payload(m));
            var r := AsMsg(DecodeAt(e, 0));
            ReadBody(Packed(m) + rest, |e|) == if r.None? then Panic else Read(r.value, rest)
  {
    FrameOf(m, rest);
  }

  lemma LengthOf(m: Msg, rest: Bytes)
    requires Fits(m)
    ensures ReadMessage(Packed(m) + rest) == ReadBody(Packed(m) + rest, |Encoded(Payload(m))|)
  {
    var e := Encoded(Payload(m));
    FrameOf(m, rest);
    FourBytesBack(|e|);
    var data := Packed(m) + rest;
    assert FromBigEndian(data[4..8]) == |e|;
  }

  function PackedAll(msgs: seq<Msg>): Bytes {
    if msgs == [] then [] else Packed(msgs[0]) + PackedAll(msgs[1..])
  }

  ghost predicate AllReadable(msgs: seq<Msg>) {
    forall m :: m in msgs ==> ReadsBack(Payload(m))
  }

  /** Reading goes on behind the first message whatever became of it, unless it panicked. */
  lemma FirstOfAll(m: Msg, more: seq<Msg>, data: Bytes, rest: Bytes)
    requires var r := ReadMessage(data); (r == Panic || (r.Read? && r.remaining == rest))
    ensures ReadAll(data) == ([m] + more, false)
       <==> ReadMessage(data) == Read(m, rest) && ReadAll(rest) == (more, false)
  {
    var r := ReadMessage(data);
    if r.Read? {
      assert ([r.msg] + ReadAll(rest).0)[1..] == ReadAll(rest).0;
      assert ([m] + more)[1..] == more;
    }
  }

  /**
   For messages whose payloads fit 32-bit lengths: what was packed one after the other is split into exactly those
   messages in order, without an error, if and only if every payload reads back.
   */
  lemma {:induction false} FramingRoundTrip(msgs: seq<Msg>)
    requires forall m :: m in msgs ==> Fits(m)
    ensures ReadAll(PackedAll(msgs)) == (msgs, false) <==> AllReadable(msgs)
  {
    if msgs != [] {
      var m, rest := msgs[0], PackedAll(msgs[1..]);
      assert msgs == [m] + msgs[1..];
      FramingRoundTrip(msgs[1..]);
      ReadsPacked(m, rest);
      FirstOfAll(m, msgs[1..], Packed(m) + rest, rest);
    }
  }

  /** In particular when every length field is 1, 2, 4 or 8 bytes wide, as it is below 65536 bytes. */
  lemma SmallMessages(msgs: seq<Msg>)
    requires forall m :: m in msgs ==> |Encoded(Payload(m))| < 65536
    ensures ReadAll(PackedAll(msgs)) == (msgs, false)
  {
    forall m | m in msgs
      ensures Fits(m) && ReadsBack(Payload(m))
    {
      SmallReadsBack(Payload(m));
    }
    FramingRoundTrip(msgs);
  }

  /**
   What is read behind messages: they are kept whatever comes next. Too few bytes or another token end the reading
   silently; a length beyond what was read ends it with a panic.
   */
  lemma ReadsUpTo(msgs: seq<Msg>, rest: Bytes)
    requires AllReadable(msgs) && forall m :: m in msgs ==> Fits(m)
    ensures |rest| <= 8 || rest[..4] != [34, 64, 8, 145] ==> ReadAll(PackedAll(msgs) + rest) == (msgs, false)
    ensures |rest| > 8 && rest[..4] == [34, 64, 8, 145] && 8 + FromBigEndian(rest[4..8]) > |rest| ==>
              ReadAll(PackedAll(msgs) + rest) == (msgs, true)
  {
    ReadsAll(msgs, rest, ReadAll(rest));
    assert msgs + [] == msgs;
  }

  lemma {:induction false} ReadsAll(msgs: seq<Msg>, rest: Bytes, out: (seq<Msg>, bool))
    requires AllReadable(msgs) && (forall m :: m in msgs ==> Fits(m)) && ReadAll(rest) == out
    ensures ReadAll(PackedAll(msgs) + rest) == (msgs + out.0, out.1)
  {
    if msgs == [] {
      assert PackedAll(msgs) + rest == rest && msgs + out.0 == out.0;
    } else {
      ReadsAll(msgs[1..], rest, out);
      PackedFirst(msgs, rest);
      ReadsNext(msgs[0], msgs[1..], PackedAll(msgs[1..]) + rest, out);
      assert [msgs[0]] + msgs[1..] == msgs;
    }
  }

  lemma PackedFirst(msgs: seq<Msg>, rest: Bytes)
    requires msgs != []
    ensures PackedAll(msgs) + rest == Packed(msgs[0]) + (PackedAll(msgs[1..]) + rest)
  {}

  lemma ReadsNext(m: Msg, ms: seq<Msg>, more: Bytes, out: (seq<Msg>, bool))
    requires Fits(m) && ReadsBack(Payload(m)) && ReadAll(more) == (ms + out.0, out.1)
    ensures ReadAll(Packed(m) + more) == ([m] + ms + out.0, out.1)
  {
    ReadsFirst(m, more);
    assert [m] + (ms + out.0) == [m] + ms + out.0;
  }

  lemma ReadsFirst(m: Msg, rest: Bytes)
    requires Fits(m) && ReadsBack(Payload(m))
    ensures ReadAll(Packed(m) + rest) == ([m] + ReadAll(rest).0, ReadAll(rest).1)
  {
    ReadsPacked(m, rest);
  }

  // ---------- The bytes of a packet ----------

  /** The token, four bytes of length with the most significant first, and a list of the kind and the data. */
  lemma PacketExact(m: Msg)
    ensures var e, p := Encoded(List([Str(ToBigEndian(m.kind))] + m.data)), Packed(m);
            && |p| == 8 + |e| && p[..4] == [34, 64, 8, 145] && p[8..] == e
            && (|e| < 0x1_0000_0000 ==>
                  ((p[4] as int * 256 + p[5] as int) * 256 + p[6] as int) * 256 + p[7] as int == |e|)
  {
    var n := |Encoded(Payload(m))|;
    FourBytesBack(n);
    FourDigits(FourBytes(n));
  }

  /**
   What is read from bytes: nothing from none; an error when there is nothing behind the token and the length, or
   another token; a panic when there are fewer bytes than the length says; else the payload, if it is a list, and the
   bytes behind it.
   */
  lemma ReadExact(data: Bytes)
    ensures ReadMessage(data) == Done <==> data == []
    ensures ReadMessage(data) == Bad <==> 0 < |data| <= 8 || (|data| > 8 && data[..4] != [34, 64, 8, 145])
    ensures |data| > 8 && data[..4] == [34, 64, 8, 145] ==>
              var n := ((data[4] as int * 256 + data[5] as int) * 256 + data[6] as int) * 256 + data[7] as int;
              && (8 + n > |data| ==> ReadMessage(data) == Panic)
              && (8 + n <= |data| ==> ReadsAs(ReadMessage(data), DecodeAt(data[8..8 + n], 0), data[8 + n..]))
  {
    if |data| > 8 {
      FourDigits(data[4..8]);
    }
  }

  /** A list that is not empty is a message; its first item is the kind, 0 for a list and the low byte of a number. */
  predicate ReadsAs(r: ReadResult, payload: Option<(Item, nat)>, rest: Bytes) {
    if payload.None? || payload.value.0.Str? || payload.value.0.items == [] then r == Panic
    else
      var items := payload.value.0.items;
      && r.Read? && r.remaining == rest && r.msg.data == items[1..]
      && (items[0].List? ==> r.msg.kind == 0)
      && (items[0].Str? ==> r.msg.kind == ReadVarint(items[0].str) % 256)
  }
}
