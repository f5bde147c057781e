/**
 The mnemonic coder of ethutil/mnemonic.go. The word table is a parameter: all that matters is that it has 1626
 different words.
 */
module Mnemonic {
  import opened ByteStrings

  const WORDS: int := 1626

  predicate IsTable(words: seq<string>) {
    |words| == WORDS && forall i, j :: 0 <= i < j < |words| ==> words[i] != words[j]
  }

  // ---------- Hexadecimal digits ----------

  function Digit(d: nat): (c: char)
    requires d < 16
    ensures DigitValue(c) == Some(d) && IsLower(c)
  {
    if d < 10 then '0' + d as char else 'a' + (d - 10) as char
  }

  function DigitValue(c: char): (d: Option<nat>)
    ensures d.Some? ==> d.value < 16
  {
    if '0' <= c <= '9' then Some((c - '0') as nat)
    else if 'a' <= c <= 'f' then Some((c - 'a') as nat + 10)
    else if 'A' <= c <= 'F' then Some((c - 'A') as nat + 10)
    else None
  }

  /** The digits that `%x` prints. */
  predicate IsLower(c: char) {
    '0' <= c <= '9' || 'a' <= c <= 'f'
  }

  predicate AllLower(s: string) {
    forall i :: 0 <= i < |s| ==> IsLower(s[i])
  }

  function HexValue(s: string): Option<nat> {
    if s == "" then Some(0)
    else
      var high, low := HexValue(s[..|s| - 1]), DigitValue(s[|s| - 1]);
      if high.None? || low.None? then None else Some(high.value * 16 + low.value)
  }

  /** `strconv.ParseInt(s, 16, 64)` of a short string, its error dropped. */
  function ParseInt(s: string): int {
    var digits := if s != "" && (s[0] == '+' || s[0] == '-') then s[1..] else s;
    if digits == "" || HexValue(digits).None? then 0
    else if s[0] == '-' then -(HexValue(digits).value as int)
    else HexValue(digits).value
  }

  function Fixed(v: nat, k: nat): (s: string)
    ensures |s| == k && AllLower(s)
  {
    if k == 0 then "" else Fixed(v / 16, k - 1) + [Digit(v % 16)]
  }

  const EIGHT_DIGITS: nat := 0x1_0000_0000

  function Long(v: nat): (s: string)
    ensures |s| >= 8 && AllLower(s)
    ensures |s| == 8 <==> v < EIGHT_DIGITS
  {
    if v < EIGHT_DIGITS then Fixed(v, 8) else Long(v / 16) + [Digit(v % 16)]
  }

  /** `Sprintf("%08x", x)`. */
  function Print(x: int): string {
    if x >= 0 then Long(x) else "-" + Long(-x)[1..]
  }

  function Pow16(k: nat): (p: nat)
    ensures p >= 1
  {
    if k == 0 then 1 else 16 * Pow16(k - 1)
  }

  lemma LastDigit(high: nat, low: nat, k: nat)
    requires low < 16 && high < Pow16(k)
    ensures (high * 16 + low) / 16 == high && (high * 16 + low) % 16 == low && high * 16 + low < Pow16(k + 1)
  {}

  lemma LowerDigit(c: char)
    requires IsLower(c)
    ensures DigitValue(c).Some? && Digit(DigitValue(c).value) == c
  {}

  /** A lower-case string is what its value prints at its length. */
  lemma {:induction false} PrintsValue(s: string)
    requires AllLower(s)
    ensures HexValue(s).Some? && HexValue(s).value < Pow16(|s|) && Fixed(HexValue(s).value, |s|) == s
  {
    if s != "" {
      var front, last := s[..|s| - 1], s[|s| - 1];
      PrintsValue(front);
      LowerDigit(last);
      LastDigit(HexValue(front).value, DigitValue(last).value, |front|);
    }
  }

  // ---------- Three words for 32 bits ----------

  /** Go's division and remainder, towards zero. */
  function Quo(a: int, n: int): int
    requires n > 0
  {
    if a >= 0 then a / n else -(-a / n)
  }

  function Rem(a: int, n: int): int
    requires n > 0
  {
    a - n * Quo(a, n)
  }

  function Word1(bit: int): int {
    Rem(bit, WORDS)
  }

  function Word2(bit: int): int {
    Rem(Quo(bit, WORDS) + Word1(bit), WORDS)
  }

  function Word3(bit: int): int {
    Rem(Quo(Quo(bit, WORDS), WORDS) + Word2(bit), WORDS)
  }

  /** A difference of places, brought back above zero. */
  function Corrected(d: int): int {
    if Rem(d, WORDS) < 0 then Rem(d, WORDS) + WORDS else Rem(d, WORDS)
  }

  function Joined(w1: int, w2: int, w3: int): int {
    w1 + WORDS * Corrected(w2 - w1) + WORDS * WORDS * Corrected(w3 - w2)
  }

  lemma CorrectedIsMod(d: int)
    requires -WORDS < d < WORDS
    ensures Corrected(d) == d % WORDS
  {}

  /** The difference of a sum's remainder and one summand is the other summand's remainder. */
  lemma DifferenceBack(q: nat, w: nat)
    requires w < WORDS
    ensures Corrected((q + w) % WORDS - w) == q % WORDS
  {
    var a := q % WORDS;
    assert (q + w) % WORDS == (a + w) % WORDS by {
      assert q == WORDS * (q / WORDS) + a;
      AddMultiple(a + w, q / WORDS);
    }
    CorrectedIsMod((q + w) % WORDS - w);
    if a + w < WORDS {
      assert (a + w) % WORDS == a + w;
    } else {
      assert (a + w) % WORDS == a + w - WORDS;
    }
  }

  lemma AddMultiple(a: int, k: nat)
    ensures (a + WORDS * k) % WORDS == a % WORDS
  {}

  lemma WordsOf(bit: nat)
    ensures Word1(bit) == bit % WORDS
    ensures Word2(bit) == (bit / WORDS + Word1(bit)) % WORDS
    ensures Word3(bit) == (bit / WORDS / WORDS + Word2(bit)) % WORDS
    ensures 0 <= Word1(bit) < WORDS && 0 <= Word2(bit) < WORDS && 0 <= Word3(bit) < WORDS
  {
    RemIsMod(bit);
    RemIsMod(bit / WORDS + Word1(bit));
    RemIsMod(bit / WORDS / WORDS + Word2(bit));
  }

  lemma RemIsMod(a: nat)
    ensures Rem(a, WORDS) == a % WORDS && Quo(a, WORDS) == a / WORDS && 0 <= a % WORDS < WORDS
  {}

  /** 1626^3 exceeds 2^32, so three words tell 32 bits. */
  lemma JoinedBack(bit: nat)
    requires bit < EIGHT_DIGITS
    ensures Joined(Word1(bit), Word2(bit), Word3(bit)) == bit
  {
    WordsOf(bit);
    DifferenceBack(bit / WORDS, Word1(bit));
    DifferenceBack(bit / WORDS / WORDS, Word2(bit));
    ThirdSmall(bit);
    Digits(bit);
  }

  lemma ThirdSmall(bit: nat)
    requires bit < EIGHT_DIGITS
    ensures bit / WORDS / WORDS % WORDS == bit / WORDS / WORDS
  {}

  lemma Digits(bit: nat)
    ensures bit == bit % WORDS + WORDS * (bit / WORDS % WORDS) + WORDS * WORDS * (bit / WORDS / WORDS)
  {}

  // ---------- The two directions ----------

  /** IndexOf: the first place of a word, -1 when there is none. */
  function Place(words: seq<string>, w: string): (p: int)
    ensures -1 <= p < |words|
    ensures p == -1 ==> w !in words
    ensures p >= 0 ==> words[p] == w && w !in words[..p]
  {
    if words == [] then -1
    else if words[0] == w then 0
    else
      var p := Place(words[1..], w);
      if p == -1 then -1 else assert words[..p + 1] == [words[0]] + words[1..][..p]; p + 1
  }

  method IndexOf(words: seq<string>, value: string) returns (p: int)
    ensures p == Place(words, value)
  {
    for i := 0 to |words|
      invariant value !in words[..i]
    {
      if words[i] == value {
        PlaceOf(words, i);
        return i;
      }
    }
    p := -1;
  }

  lemma PlaceOf(words: seq<string>, i: nat)
    requires i < |words| && words[i] !in words[..i]
    ensures Place(words, words[i]) == i
  {
    var p := Place(words, words[i]);
    assert forall k :: 0 <= k < i ==> words[..i][k] != words[i];
    assert forall k :: 0 <= k < p ==> words[..p][k] != words[i];
  }

  /** The words of a chunk; None when a place is out of range and Go panics. */
  function Triple(words: seq<string>, x: string): Option<seq<string>> {
    var bit := ParseInt(x);
    if 0 <= Word1(bit) < |words| && 0 <= Word2(bit) < |words| && 0 <= Word3(bit) < |words|
    then Some([words[Word1(bit)], words[Word2(bit)], words[Word3(bit)]])
    else None
  }

  function After(front: seq<string>, rest: Option<seq<string>>): Option<seq<string>> {
    if rest.None? then None else Some(front + rest.value)
  }

  /** The words of the chunks from place `i` on, eight characters every `step`, one chunk's given by `f`. */
  function EncodeWith(f: string -> Option<seq<string>>, s: string, step: nat, i: nat): Option<seq<string>>
    requires step > 0 || |s| < 8
    decreases |s| - i
  {
    if i >= |s| then Some([])
    else if i + 8 > |s| || f(s[i..i + 8]).None? then None
    else After(f(s[i..i + 8]).value, EncodeWith(f, s, step, i + step))
  }

  function Triples(words: seq<string>): string -> Option<seq<string>> {
    x => Triple(words, x)
  }

  function Encoded(words: seq<string>, s: string): Option<seq<string>> {
    EncodeWith(Triples(words), s, |s| / 8, 0)
  }

  /** The places of a number's three words. */
  method PlacesOf(n: int, bit: int) returns (w1: int, w2: int, w3: int)
    requires n == WORDS
    ensures w1 == Word1(bit) && w2 == Word2(bit) && w3 == Word3(bit)
  {
    w1 := Rem(bit, n);
    w2 := Rem(Quo(bit, n) + w1, n);
    w3 := Rem(Quo(Quo(bit, n), n) + w2, n);
  }

  /** One turn of the loop of MnemonicEncode. */
  method EncodeChunk(words: seq<string>, x: string,
                     ghost f: string -> Option<seq<string>>) returns (t: Option<seq<string>>)
    requires IsTable(words) && f == Triples(words)
    ensures t == f(x)
  {
    var n := |words|;
    var bit := ParseInt(x);
    var w1, w2, w3 := PlacesOf(n, bit);
    if !(0 <= w1 < n && 0 <= w2 < n && 0 <= w3 < n) {
      return None;
    }
    t := Some([words[w1], words[w2], words[w3]]);
  }

  method MnemonicEncode(words: seq<string>, message: string) returns (out: Option<seq<string>>)
    requires IsTable(words)
    ensures out == Encoded(words, message)
  {
    out := EncodeLoop(words, message, |message| / 8, Triples(words));
  }

  /** The loop, with the step it takes. */
  method EncodeLoop(words: seq<string>, message: string, step: nat, ghost f: string -> Option<seq<string>>)
    returns (out: Option<seq<string>>)
    requires IsTable(words) && f == Triples(words) && (step > 0 || |message| < 8)
    ensures out == EncodeWith(f, message, step, 0)
  {
    ghost var all := EncodeWith(f, message, step, 0);
    var ws: seq<string> := [];
    var i := 0;
    AfterNothing(all);
    while i < |message|
      invariant all == After(ws, EncodeWith(f, message, step, i))
      decreases |message| - i
    {
      if i + 8 > |message| {
        return None;
      }
      var t := EncodeChunk(words, message[i..i + 8], f);
      if t.None? {
        return None;
      }
      AfterAfter(ws, t.value, EncodeWith(f, message, step, i + step));
      ws := ws + t.value;
      i := i + step;
    }
    assert ws + [] == ws;
    out := Some(ws);
  }

  lemma AfterNothing(rest: Option<seq<string>>)
    ensures After([], rest) == rest
  {
    if rest.Some? {
      assert [] + rest.value == rest.value;
    }
  }

  lemma AfterAfter(a: seq<string>, b: seq<string>, rest: Option<seq<string>>)
    ensures After(a, After(b, rest)) == After(a + b, rest)
  {
    if rest.Some? {
      assert a + (b + rest.value) == (a + b) + rest.value;
    }
  }

  /** What three words print. */
  function Chunk(words: seq<string>, ws: seq<string>): string {
    if |ws| < 3 then "" else Print(Joined(Place(words, ws[0]), Place(words, ws[1]), Place(words, ws[2])))
  }

  function Plus(s: string, r: Option<string>): Option<string> {
    if r.None? then None else Some(s + r.value)
  }

  /** What the words print, three of them as `g` says; None when they do not come in threes and Go panics. */
  function DecodeWith(g: seq<string> -> string, ws: seq<string>): Option<string> {
    if ws == [] then Some("")
    else if |ws| < 3 then None
    else Plus(g(ws[..3]), DecodeWith(g, ws[3..]))
  }

  function Chunker(words: seq<string>): seq<string> -> string {
    ws => Chunk(words, ws)
  }

  function Decoded(words: seq<string>, ws: seq<string>): Option<string> {
    DecodeWith(Chunker(words), ws)
  }

  lemma DecodedStep(g: seq<string> -> string, t: seq<string>, rest: seq<string>)
    requires |t| == 3
    ensures DecodeWith(g, t + rest) == Plus(g(t), DecodeWith(g, rest))
  {
    assert (t + rest)[3..] == rest && (t + rest)[..3] == t;
  }

  lemma PlusPlus(a: string, b: string, r: Option<string>)
    ensures Plus(a, Plus(b, r)) == Plus(a + b, r)
  {
    if r.Some? {
      assert a + (b + r.value) == (a + b) + r.value;
    }
  }

  lemma PlusNothing(a: string, r: Option<string>)
    ensures Plus("", r) == r && Plus(a, Some("")) == Some(a)
  {
    assert a + "" == a;
    if r.Some? {
      assert "" + r.value == r.value;
    }
  }

  /** The number of three places. */
  method JoinPlaces(n: int, w1: int, w2: int, w3: int) returns (x: int)
    requires n == WORDS
    ensures x == Joined(w1, w2, w3)
  {
    var y := Rem(w2 - w1, n);
    var z := Rem(w3 - w2, n);
    if z < 0 {
      z := z + n;
    }
    if y < 0 {
      y := y + n;
    }
    x := w1 + n * y + n * n * z;
  }

  /** One turn of the loop of MnemonicDecode. */
  method DecodeChunk(words: seq<string>, ws: seq<string>) returns (out: string)
    requires IsTable(words) && |ws| == 3
    ensures out == Chunker(words)(ws)
  {
    var w1 := IndexOf(words, ws[0]);
    var w2 := IndexOf(words, ws[1]);
    var w3 := IndexOf(words, ws[2]);
    var x := JoinPlaces(|words|, w1, w2, w3);
    out := Print(x);
  }

  method MnemonicDecode(words: seq<string>, ws: seq<string>) returns (out: Option<string>)
    requires IsTable(words)
    ensures out == Decoded(words, ws)
  {
    ghost var g := Chunker(words);
    var s := "";
    var i := 0;
    assert ws[0..] == ws;
    PlusNothing("", DecodeWith(g, ws));
    while i < |ws|
      invariant i <= |ws|
      invariant DecodeWith(g, ws) == Plus(s, DecodeWith(g, ws[i..]))
    {
      if i + 2 >= |ws| {
        return None;
      }
      var x := DecodeChunk(words, ws[i..i + 3]);
      assert ws[i..] == ws[i..i + 3] + ws[i + 3..];
      DecodedStep(g, ws[i..i + 3], ws[i + 3..]);
      PlusPlus(s, x, DecodeWith(g, ws[i + 3..]));
      s := s + x;
      i := i + 3;
    }
    PlusNothing(s, None);
    out := Some(s);
  }

  // ---------- Round trip ----------

  lemma {:induction false} HexBound(s: string)
    requires HexValue(s).Some?
    ensures HexValue(s).value < Pow16(|s|)
  {
    if s != "" {
      var front := s[..|s| - 1];
      HexBound(front);
      LastDigit(HexValue(front).value, DigitValue(s[|s| - 1]).value, |front|);
    }
  }

  /** A negative number of up to seven digits has no words. */
  lemma NegativeHasNoWords(bit: int)
    requires -(EIGHT_DIGITS as int) < bit < 0
    ensures Word1(bit) < 0 || Word2(bit) < 0 || Word3(bit) < 0
  {
    var a := -bit / WORDS;
    if Word1(bit) >= 0 && Word2(bit) >= 0 {
      assert bit == -WORDS * a;
      assert Word2(bit) == Rem(-a, WORDS);
      var b := a / WORDS;
      assert a == WORDS * b;
      assert Word3(bit) == Rem(-b, WORDS);
    }
  }

  lemma ParseBounds(x: string)
    requires |x| == 8
    ensures -(EIGHT_DIGITS as int) < ParseInt(x) < EIGHT_DIGITS
  {
    var digits := if x[0] == '+' || x[0] == '-' then x[1..] else x;
    if HexValue(digits).Some? {
      HexBound(digits);
      assert Pow16(8) == EIGHT_DIGITS && Pow16(7) < EIGHT_DIGITS;
    }
  }

  /** The words of a chunk print the chunk's number, in eight digits. */
  lemma ChunkPrints(words: seq<string>, x: string)
    requires IsTable(words) && |x| == 8 && Triple(words, x).Some?
    ensures ParseInt(x) >= 0 && Chunk(words, Triple(words, x).value) == Fixed(ParseInt(x), 8)
  {
    var bit := ParseInt(x);
    ParseBounds(x);
    if bit < 0 {
      NegativeHasNoWords(bit);
    } else {
      JoinedBack(bit);
      PlacesBack(words, Word1(bit), Word2(bit), Word3(bit));
    }
  }

  lemma PlacesBack(words: seq<string>, w1: nat, w2: nat, w3: nat)
    requires IsTable(words) && w1 < |words| && w2 < |words| && w3 < |words|
    ensures Chunk(words, [words[w1], words[w2], words[w3]]) == Print(Joined(w1, w2, w3))
  {
    PlaceInTable(words, w1);
    PlaceInTable(words, w2);
    PlaceInTable(words, w3);
  }

  lemma PlaceInTable(words: seq<string>, i: nat)
    requires IsTable(words) && i < |words|
    ensures Place(words, words[i]) == i
  {
    PlaceOf(words, i);
  }

  /** A lower-case chunk has words, and they print it. */
  lemma LowerChunk(words: seq<string>, x: string)
    requires IsTable(words) && |x| == 8 && AllLower(x)
    ensures Triple(words, x).Some? && Fixed(ParseInt(x), 8) == x
  {
    PrintsValue(x);
    assert ParseInt(x) == HexValue(x).value;
    assert Pow16(8) == EIGHT_DIGITS;
    JoinedBack(HexValue(x).value);
  }

  function Chunks(n: nat, step: nat, i: nat): nat
    requires step > 0
    decreases n - i
  {
    if i >= n then 0 else 1 + Chunks(n, step, i + step)
  }

  /** On every chunk that has words, `g` prints eight lower-case digits for the three words of `f`. */
  ghost predicate PrintsEight(f: string -> Option<seq<string>>, g: seq<string> -> string) {
    forall x :: |x| == 8 && f(x).Some? ==> |f(x).value| == 3 && |g(f(x).value)| == 8 && AllLower(g(f(x).value))
  }

  /** Whatever is encoded decodes to lower-case digits, eight for every chunk. */
  lemma {:induction false} DecodesToDigits(f: string -> Option<seq<string>>, g: seq<string> -> string, s: string,
                                           step: nat, i: nat)
    requires PrintsEight(f, g) && step > 0 && EncodeWith(f, s, step, i).Some?
    ensures var d := DecodeWith(g, EncodeWith(f, s, step, i).value);
            d.Some? && AllLower(d.value) && |d.value| == 8 * Chunks(|s|, step, i)
    decreases |s| - i
  {
    if i < |s| {
      var t, rest := f(s[i..i + 8]).value, EncodeWith(f, s, step, i + step).value;
      DecodesToDigits(f, g, s, step, i + step);
      DecodedStep(g, t, rest);
    }
  }

  lemma {:induction false} ChunksCount(n: nat, step: nat, i: nat)
    requires step > 0 && i < n
    ensures Chunks(n, step, i) >= 1 && Chunks(n, step, i) * step >= n - i && (Chunks(n, step, i) - 1) * step < n - i
    decreases n - i
  {
    if i + step < n {
      ChunksCount(n, step, i + step);
      OneMore(Chunks(n, step, i + step), step);
    }
  }

  lemma OneMore(c: int, k: int)
    ensures (c + 1) * k == c * k + k && (c - 1) * k == c * k - k
  {}

  /** Only 64 characters make as many digits as they are. */
  lemma OnlySixtyFour(n: nat)
    requires n >= 8 && 8 * Chunks(n, n / 8, 0) == n
    ensures n == 64
  {
    var c := Chunks(n, n / 8, 0);
    ChunksCount(n, n / 8, 0);
    assert n / 8 == c;
    Square(c);
  }

  lemma ProductSign(c: int, d: int)
    requires c > 0
    ensures c * d >= 0 <==> d >= 0
  {}

  lemma Square(c: nat)
    requires c > 0 && c * c >= 8 * c && (c - 1) * c < 8 * c
    ensures c == 8
  {
    ProductSign(c, c - 8);
    ProductSign(c, c - 9);
  }

  /** On every lower-case chunk, `g` prints the chunk for the three words of `f`. */
  ghost predicate PrintsBack(f: string -> Option<seq<string>>, g: seq<string> -> string) {
    forall x :: |x| == 8 && AllLower(x) ==> f(x).Some? && |f(x).value| == 3 && g(f(x).value) == x
  }

  lemma {:induction false} LowerBack(f: string -> Option<seq<string>>, g: seq<string> -> string, s: string, k: nat)
    requires PrintsBack(f, g) && |s| == 64 && AllLower(s) && k <= 8
    ensures EncodeWith(f, s, 8, 8 * k).Some? && DecodeWith(g, EncodeWith(f, s, 8, 8 * k).value) == Some(s[8 * k..])
    decreases 8 - k
  {
    if k < 8 {
      var x := s[8 * k..8 * k + 8];
      LowerBack(f, g, s, k + 1);
      var t, rest := f(x).value, EncodeWith(f, s, 8, 8 * k + 8).value;
      DecodedStep(g, t, rest);
      assert s[8 * k..] == x + s[8 * k + 8..];
    } else {
      assert s[8 * k..] == "";
    }
  }

  lemma CoderPrints(words: seq<string>)
    requires IsTable(words)
    ensures PrintsEight(Triples(words), Chunker(words)) && PrintsBack(Triples(words), Chunker(words))
  {
    var f, g := Triples(words), Chunker(words);
    forall x | |x| == 8 && f(x).Some?
      ensures |f(x).value| == 3 && |g(f(x).value)| == 8 && AllLower(g(f(x).value))
    {
      ChunkPrints(words, x);
    }
    forall x | |x| == 8 && AllLower(x)
      ensures f(x).Some? && |f(x).value| == 3 && g(f(x).value) == x
    {
      LowerChunk(words, x);
      ChunkPrints(words, x);
    }
  }

  function Back(words: seq<string>, s: string): Option<string> {
    var ws := Encoded(words, s);
    if ws.None? then None else Decoded(words, ws.value)
  }

  /** Anything that comes back has as many characters as it makes digits. */
  lemma OnlyLowerBack(words: seq<string>, s: string)
    requires IsTable(words) && s != "" && Back(words, s) == Some(s)
    ensures |s| == 64 && AllLower(s)
  {
    CoderPrints(words);
    assert |s| < 8 ==> Encoded(words, s) == None;
    if |s| >= 8 {
      DecodesToDigits(Triples(words), Chunker(words), s, |s| / 8, 0);
      OnlySixtyFour(|s|);
    }
  }

  lemma SixtyFourBack(words: seq<string>, s: string)
    requires IsTable(words) && |s| == 64 && AllLower(s)
    ensures Back(words, s) == Some(s)
  {
    CoderPrints(words);
    LowerBack(Triples(words), Chunker(words), s, 0);
    assert s[0..] == s;
  }

  /** A string comes back from the mnemonic coder exactly when it is empty or 64 lower-case hexadecimal digits. */
  lemma MnemonicRoundTrip(words: seq<string>, s: string)
    requires IsTable(words)
    ensures Back(words, s) == Some(s) <==> s == "" || (|s| == 64 && AllLower(s))
  {
    if s == "" {
      assert Encoded(words, s) == Some([]);
    } else if |s| == 64 && AllLower(s) {
      SixtyFourBack(words, s);
    } else if Back(words, s) == Some(s) {
      OnlyLowerBack(words, s);
    }
  }

  // ---------- What is encoded and decoded ----------

  /** The hexadecimal digits in order, of either case; and one more digit behind a number. */
  lemma HexExact(d: nat, s: string)
    requires d < 16 && HexValue(s).Some?
    ensures var c := "0123456789abcdef"[d];
            && Digit(d) == c && DigitValue(c) == DigitValue("0123456789ABCDEF"[d]) == Some(d)
            && HexValue("") == Some(0) && HexValue(s + [c]) == Some(16 * HexValue(s).value + d)
  {
    var c := "0123456789abcdef"[d];
    assert (s + [c])[..|s|] == s;
  }

  /** The three words of a 32-bit number. */
  function WordsFor(words: seq<string>, x: nat): seq<string>
    requires |words| == 1626
  {
    var first := x % 1626;
    var second := (x / 1626 + first) % 1626;
    var third := (x / 1626 / 1626 + second) % 1626;
    [words[first], words[second], words[third]]
  }

  /** The words of 64 digits, three for every eight. */
  lemma EncodeExact(words: seq<string>, s: string, k: nat)
    requires IsTable(words) && |s| == 64 && AllLower(s) && k < 8
    ensures Encoded(words, s).Some? && |Encoded(words, s).value| == 24
    ensures HexValue(s[8 * k..8 * k + 8]).Some?
    ensures Encoded(words, s).value[3 * k..3 * k + 3] == WordsFor(words, HexValue(s[8 * k..8 * k + 8]).value)
  {
    EncodesFrom(words, s, 0, k);
  }

  lemma ChunkWords(words: seq<string>, x: string)
    requires IsTable(words) && |x| == 8 && AllLower(x)
    ensures HexValue(x).Some? && Triples(words)(x) == Some(WordsFor(words, HexValue(x).value))
  {
    LowerParses(x);
    NumberWords(words, x, HexValue(x).value);
  }

  lemma LowerParses(x: string)
    requires x != "" && AllLower(x)
    ensures HexValue(x).Some? && ParseInt(x) == HexValue(x).value
  {
    PrintsValue(x);
  }

  lemma NumberWords(words: seq<string>, x: string, bit: nat)
    requires |words| == 1626 && ParseInt(x) == bit
    ensures Triple(words, x) == Some(WordsFor(words, bit))
  {
    WordsOf(bit);
  }

  lemma {:induction false} EncodesFrom(words: seq<string>, s: string, i: nat, k: nat)
    requires IsTable(words) && |s| == 64 && AllLower(s) && i <= 8 && k < 8
    ensures EncodeWith(Triples(words), s, 8, 8 * i).Some?
    ensures |EncodeWith(Triples(words), s, 8, 8 * i).value| == 24 - 3 * i && HexValue(s[8 * k..8 * k + 8]).Some?
    ensures i <= k ==>
              EncodeWith(Triples(words), s, 8, 8 * i).value[3 * (k - i)..3 * (k - i) + 3] ==
              WordsFor(words, HexValue(s[8 * k..8 * k + 8]).value)
    decreases 8 - i
  {
    ChunkWords(words, s[8 * k..8 * k + 8]);
    if i < 8 {
      EncodesFrom(words, s, i + 1, k);
      var x := s[8 * i..8 * i + 8];
      ChunkWords(words, x);
      var t, rest := WordsFor(words, HexValue(x).value), EncodeWith(Triples(words), s, 8, 8 * i + 8).value;
      EncodesOne(Triples(words), s, i, t, rest);
      if i < k {
        Behind(t, rest, k - i);
      }
    }
  }

  lemma EncodesOne(f: string -> Option<seq<string>>, s: string, i: nat, t: seq<string>, rest: seq<string>)
    requires |s| == 64 && i < 8 && f(s[8 * i..8 * i + 8]) == Some(t) && EncodeWith(f, s, 8, 8 * i + 8) == Some(rest)
    ensures EncodeWith(f, s, 8, 8 * i) == Some(t + rest)
  {}

  lemma Behind(t: seq<string>, rest: seq<string>, n: nat)
    requires |t| == 3 && n > 0 && |rest| >= 3 * n
    ensures (t + rest)[3 * n..3 * n + 3] == rest[3 * (n - 1)..3 * (n - 1) + 3]
  {}

  /** What three words of the table print, whether or not some number has them. */
  lemma DecodeExact(words: seq<string>, a: nat, b: nat, c: nat)
    requires IsTable(words) && a < 1626 && b < 1626 && c < 1626
    ensures Decoded(words, [words[a], words[b], words[c]]) ==
            Some(Print(a + 1626 * ((b - a) % 1626) + 2643876 * ((c - b) % 1626)))
  {
    var t := [words[a], words[b], words[c]];
    PlacesBack(words, a, b, c);
    CorrectedIsMod(b - a);
    CorrectedIsMod(c - b);
    assert t + [] == t;
    DecodedStep(Chunker(words), t, []);
    PlusNothing(Chunk(words, t), Some(""));
  }
}
