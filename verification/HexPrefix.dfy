/**
 Nibble paths and their hex-prefix form (ethutil/encoding.go), and the two slice
 comparisons of ethutil/helpers.go.

 A path is a list of nibbles 0..15, possibly closed by the terminator 16.
 */
module HexPrefix {
  import opened ByteStrings

  const TERMINATOR := 16

  predicate AllNibbles(s: seq<int>) {
    forall i :: 0 <= i < |s| ==> 0 <= s[i] < 16
  }

  /** A non-empty nibble list with an optional final terminator. */
  predicate IsPath(h: seq<int>) {
    |h| > 0 && AllNibbles(h[..|h| - 1]) && 0 <= h[|h| - 1] <= TERMINATOR
  }

  predicate IsTerminated(h: seq<int>) {
    IsPath(h) && h[|h| - 1] == TERMINATOR
  }

  /** Two nibbles to a byte, as the loop at encoding.go:28 writes them; an odd last one is dropped. */
  function PackPairs(s: seq<int>): (b: Bytes)
    ensures |b| == |s| / 2
  {
    if |s| < 2 then [] else [ToByte(16 * s[0] + s[1])] + PackPairs(s[2..])
  }

  /** The two hex digits of every byte. */
  function UnpackPairs(b: Bytes): (s: seq<int>)
    ensures |s| == 2 * |b| && AllNibbles(s)
    ensures |b| > 0 ==> s[0] == b[0] / 16 && s[1] == b[0] % 16
  {
    if b == [] then [] else [b[0] / 16, b[0] % 16] + UnpackPairs(b[1..])
  }

  lemma ByteOfNibbles(a: int, b: int)
    requires 0 <= a < 16 && 0 <= b < 16
    ensures ToByte(16 * a + b) == 16 * a + b
    ensures (16 * a + b) / 16 == a && (16 * a + b) % 16 == b
  {}

  lemma {:induction false} UnpackInvertsPack(s: seq<int>)
    requires |s| % 2 == 0 && AllNibbles(s)
    ensures UnpackPairs(PackPairs(s)) == s
  {
    if |s| > 0 {
      var rest := s[2..];
      UnpackInvertsPack(rest);
      ByteOfNibbles(s[0], s[1]);
      UnpackCons(ToByte(16 * s[0] + s[1]), PackPairs(rest));
      assert s == [s[0], s[1]] + rest;
    }
  }

  lemma UnpackCons(x: byte, b: Bytes)
    ensures UnpackPairs([x] + b) == [x / 16, x % 16] + UnpackPairs(b)
  {
    assert ([x] + b)[1..] == b;
  }

  lemma {:induction false} PackInvertsUnpack(b: Bytes)
    ensures PackPairs(UnpackPairs(b)) == b
  {
    if b != [] {
      var digits := UnpackPairs(b[1..]);
      PackInvertsUnpack(b[1..]);
      assert ([b[0] / 16, b[0] % 16] + digits)[2..] == digits;
      ByteOfNibbles(b[0] / 16, b[0] % 16);
    }
  }

  // ---------- encoding.go ----------

  /** The nibbles CompactEncode packs: a flag nibble (2 for a terminator, 1 for odd length), padding, the path. */
  function Flagged(h: seq<int>): (f: seq<int>)
    requires |h| > 0
    ensures |f| % 2 == 0
  {
    var terminator := if h[|h| - 1] == TERMINATOR then 1 else 0;
    var path := h[..|h| - terminator];
    if |path| % 2 != 0 then [2 * terminator + 1] + path else [2 * terminator, 0] + path
  }

  function Compact(h: seq<int>): Bytes
    requires |h| > 0
  {
    PackPairs(Flagged(h))
  }

  function Expand(str: Bytes): seq<int>
    requires |str| > 0
  {
    Unflagged(UnpackPairs(str))
  }

  function Unflagged(base: seq<int>): seq<int>
    requires |base| >= 2
  {
    var closed := if base[0] >= 2 then base + [TERMINATOR] else base;
    if base[0] % 2 == 1 then closed[1..] else closed[2..]
  }

  /** The path of a whole trie key: its hex digits, terminated. */
  function KeyPath(key: Bytes): (h: seq<int>)
    ensures IsTerminated(h) && |h| == 2 * |key| + 1
  {
    UnpackPairs(key) + [TERMINATOR]
  }

  function Digits(key: seq<int>): (d: seq<int>)
    ensures |d| <= |key|
  {
    if key == [] then [] else Digits(key[..|key| - 1]) + if key[|key| - 1] < 16 then [key[|key| - 1]] else []
  }

  /** `hex.DecodeString` keeps whole pairs and drops an odd last digit. */
  function PathKey(key: seq<int>): Bytes {
    PackPairs(Digits(key))
  }

  /** CompactDecode inverts CompactEncode on every path: both parities, with or without a terminator. */
  lemma ExpandInvertsCompact(h: seq<int>)
    requires IsPath(h)
    ensures |Compact(h)| > 0
    ensures Expand(Compact(h)) == h
  {
    UnpackInvertsPack(Flagged(h));
  }

  /** Hence two paths with one compact form are equal. */
  lemma CompactInjective(a: seq<int>, b: seq<int>)
    requires IsPath(a) && IsPath(b) && Compact(a) == Compact(b)
    ensures a == b
  {
    ExpandInvertsCompact(a);
    ExpandInvertsCompact(b);
  }

  /** A flag nibble below 4, a zero padding nibble after an even flag, and not the empty unterminated path. */
  predicate IsCompact(str: Bytes) {
    |str| > 0 && str[0] / 16 < 4 && (str[0] / 16 % 2 == 0 ==> str[0] % 16 == 0) && str != [0]
  }

  lemma CompactIsCompact(h: seq<int>)
    requires IsPath(h)
    ensures IsCompact(Compact(h))
  {
    var f := Flagged(h);
    assert Compact(h)[0] == 16 * f[0] + f[1];
    ExpandInvertsCompact(h);
  }

  lemma FlaggedInvertsUnflagged(base: seq<int>)
    requires |base| >= 2 && |base| % 2 == 0 && AllNibbles(base)
    requires base[0] < 4 && (base[0] % 2 == 0 ==> base[1] == 0) && base != [0, 0]
    ensures IsPath(Unflagged(base)) && Flagged(Unflagged(base)) == base
  {
    if base[0] == 1 || base[0] == 3 {
      var path := base[1..];
      assert base == [base[0]] + path;
      UnflaggedFlagged(path, base[0] == 3, true);
    } else {
      var path := base[2..];
      assert base == [base[0], 0] + path;
      UnflaggedFlagged(path, base[0] == 2, false);
    }
  }

  lemma UnflaggedFlagged(path: seq<int>, closed: bool, odd: bool)
    requires AllNibbles(path) && (|path| % 2 != 0 <==> odd) && (closed || path != [])
    ensures var flag := (if closed then 2 else 0) + if odd then 1 else 0;
            var base := (if odd then [flag] else [flag, 0]) + path;
            IsPath(Unflagged(base)) && Flagged(Unflagged(base)) == base
  {
    var flag := (if closed then 2 else 0) + if odd then 1 else 0;
    var base := (if odd then [flag] else [flag, 0]) + path;
    if closed {
      FlaggedClosed(path);
      assert Unflagged(base) == path + [TERMINATOR];
    } else {
      FlaggedOpen(path);
      assert Unflagged(base) == path;
    }
  }

  lemma FlaggedOpen(path: seq<int>)
    requires |path| > 0 && AllNibbles(path)
    ensures IsPath(path)
    ensures Flagged(path) == (if |path| % 2 != 0 then [1] else [0, 0]) + path
  {
    assert path[..|path| - 0] == path;
  }

  lemma FlaggedClosed(path: seq<int>)
    requires AllNibbles(path)
    ensures IsPath(path + [TERMINATOR])
    ensures Flagged(path + [TERMINATOR]) == (if |path| % 2 != 0 then [3] else [2, 0]) + path
  {
    var h := path + [TERMINATOR];
    assert h[..|h| - 1] == path;
  }

  /** The compact forms are exactly the strings CompactEncode gives back after CompactDecode. */
  lemma CompactInvertsExpand(str: Bytes)
    requires |str| > 0
    ensures IsCompact(str) <==> IsPath(Expand(str)) && Compact(Expand(str)) == str
  {
    if IsCompact(str) {
      FlaggedInvertsUnflagged(UnpackPairs(str));
      PackInvertsUnpack(str);
    } else if IsPath(Expand(str)) {
      CompactIsCompact(Expand(str));
    }
  }

  /** DecodeCompact inverts CompactHexDecode on every byte string. */
  lemma PathKeyInvertsKeyPath(key: Bytes)
    ensures PathKey(KeyPath(key)) == key
  {
    var h := KeyPath(key);
    assert h[..|h| - 1] == UnpackPairs(key);
    DigitsOfNibbles(UnpackPairs(key));
    assert Digits(h) == UnpackPairs(key);
    PackInvertsUnpack(key);
  }

  lemma {:induction false} DigitsOfNibbles(s: seq<int>)
    requires AllNibbles(s)
    ensures Digits(s) == s
  {
    if s != [] {
      DigitsOfNibbles(s[..|s| - 1]);
    }
  }

  lemma KeyPathInjective(a: Bytes, b: Bytes)
    requires KeyPath(a) == KeyPath(b)
    ensures a == b
  {
    PathKeyInvertsKeyPath(a);
    PathKeyInvertsKeyPath(b);
  }

  // ---------- Byte by byte ----------

  lemma {:induction false} PackAt(s: seq<int>, i: nat)
    requires AllNibbles(s) && i < |s| / 2
    ensures PackPairs(s)[i] == 16 * s[2 * i] + s[2 * i + 1]
  {
    ByteOfNibbles(s[0], s[1]);
    if i > 0 {
      PackAt(s[2..], i - 1);
    }
  }

  lemma {:induction false} UnpackAt(b: Bytes, i: nat)
    requires i < |b|
    ensures UnpackPairs(b)[2 * i] == b[i] / 16 && UnpackPairs(b)[2 * i + 1] == b[i] % 16
  {
    if i > 0 {
      UnpackAt(b[1..], i - 1);
    }
  }

  /** The high digit of a byte comes first, and the terminator last. */
  lemma KeyPathExact(key: Bytes)
    ensures var h := KeyPath(key);
            && |h| == 2 * |key| + 1 && h[2 * |key|] == 16
            && forall i :: 0 <= i < |key| ==> h[2 * i] == key[i] / 16 && h[2 * i + 1] == key[i] % 16
  {
    forall i | 0 <= i < |key|
      ensures KeyPath(key)[2 * i] == key[i] / 16 && KeyPath(key)[2 * i + 1] == key[i] % 16
    {
      UnpackAt(key, i);
    }
  }

  /** Two nibbles to a byte, and an odd one at the end dropped; a terminator is passed over. */
  lemma PathKeyExact(path: seq<int>, closed: bool, i: nat)
    requires AllNibbles(path) && i < |path| / 2
    ensures var b := PathKey(Ended(path, closed)); |b| == |path| / 2 && b[i] == 16 * path[2 * i] + path[2 * i + 1]
  {
    DigitsOfNibbles(path);
    if closed {
      assert (path + [16])[..|path|] == path;
      assert Digits(path + [16]) == Digits(path) + [];
      assert Digits(path) + [] == path;
    }
    PackAt(path, i);
  }

  /** The path with or without its terminator. */
  function Ended(path: seq<int>, closed: bool): seq<int> {
    if closed then path + [16] else path
  }

  /**
   The first byte has 2 for a terminator and 1 for an odd length in its high digit, and the first nibble of an odd path
   in its low one; two nibbles follow in every other byte.
   */
  lemma CompactExact(path: seq<int>, closed: bool)
    requires AllNibbles(path) && (closed || path != [])
    ensures var b, odd := Compact(Ended(path, closed)), |path| % 2;
            && |b| == |path| / 2 + 1
            && b[0] == 16 * ((if closed then 2 else 0) + odd) + (if odd == 1 then path[0] else 0)
            && forall i :: 0 <= i < |path| / 2 ==> b[1 + i] == 16 * path[odd + 2 * i] + path[odd + 2 * i + 1]
  {
    var odd := |path| % 2;
    if closed {
      FlaggedClosed(path);
    } else {
      FlaggedOpen(path);
    }
    PackedBehind(if closed then 2 + odd else odd, path);
  }

  /** The flag and the padding in front of a path. */
  lemma PackedBehind(flag: int, path: seq<int>)
    requires 0 <= flag < 16 && AllNibbles(path)
    ensures var odd := |path| % 2;
            var b := PackPairs((if odd == 1 then [flag] else [flag, 0]) + path);
            && |b| == |path| / 2 + 1 && b[0] == 16 * flag + (if odd == 1 then path[0] else 0)
            && forall i :: 0 <= i < |path| / 2 ==> b[1 + i] == 16 * path[odd + 2 * i] + path[odd + 2 * i + 1]
  {
    var odd := |path| % 2;
    var front := if odd == 1 then [flag] else [flag, 0];
    var f := front + path;
    assert AllNibbles(f);
    PackAt(f, 0);
    forall i | 0 <= i < |path| / 2
      ensures PackPairs(f)[1 + i] == 16 * path[odd + 2 * i] + path[odd + 2 * i + 1]
    {
      PackAt(f, 1 + i);
    }
  }

  /** The digit at `j` of a byte string. */
  function DigitAt(b: Bytes, j: nat): int
    requires j < 2 * |b|
  {
    if j % 2 == 0 then b[j / 2] / 16 else b[j / 2] % 16
  }

  lemma DigitOf(b: Bytes, j: nat)
    requires j < 2 * |b|
    ensures UnpackPairs(b)[j] == DigitAt(b, j)
  {
    var i := j / 2;
    UnpackAt(b, i);
    if j % 2 == 0 {
      assert j == 2 * i;
    } else {
      assert j == 2 * i + 1;
    }
  }

  lemma UnflaggedAt(base: seq<int>, j: nat)
    requires |base| >= 2 && AllNibbles(base) && j < |base| - (2 - base[0] % 2)
    ensures var h, skip := Unflagged(base), 2 - base[0] % 2;
            && |h| == |base| - skip + (if base[0] >= 2 then 1 else 0) && h[j] == base[skip + j]
            && (base[0] >= 2 ==> h[|h| - 1] == 16)
  {}

  /** What is read from any string: its digits behind the flag and the padding, and a terminator for a flag above 1. */
  lemma ExpandExact(str: Bytes)
    requires str != []
    ensures var h, flag := Expand(str), str[0] / 16;
            var skip := 2 - flag % 2;
            && |h| == 2 * |str| - skip + (if flag >= 2 then 1 else 0) && (flag >= 2 ==> h[|h| - 1] == 16)
            && forall j :: 0 <= j < 2 * |str| - skip ==> h[j] == DigitAt(str, skip + j)
  {
    var base, skip := UnpackPairs(str), 2 - str[0] / 16 % 2;
    forall j | 0 <= j < 2 * |str| - skip
      ensures Expand(str)[j] == DigitAt(str, skip + j)
    {
      UnflaggedAt(base, j);
      DigitOf(str, skip + j);
    }
  }

  method CompactEncode(hexSlice: seq<int>) returns (r: Bytes)
    requires |hexSlice| > 0
    ensures r == Compact(hexSlice)
  {
    var terminator := 0;
    var path := hexSlice;
    if hexSlice[|hexSlice| - 1] == 16 {
      terminator := 1;
    }
    if terminator == 1 {
      path := path[..|path| - 1];
    }
    var oddlen := |path| % 2;
    var flags := 2 * terminator + oddlen;
    if oddlen != 0 {
      path := [flags] + path;
    } else {
      path := [flags, 0] + path;
    }
    assert path == Flagged(hexSlice);
    r := WriteNibbles(path);
  }

  /** The buffer loop of CompactEncode. */
  method WriteNibbles(hexSlice: seq<int>) returns (buff: Bytes)
    requires |hexSlice| % 2 == 0
    ensures buff == PackPairs(hexSlice)
  {
    buff := [];
    var i := 0;
    ghost var left := |hexSlice| / 2;
    assert |hexSlice| == 2 * left;
    while i < |hexSlice|
      invariant 0 <= i && 0 <= left && i + 2 * left == |hexSlice|
      invariant buff + PackPairs(hexSlice[i..]) == PackPairs(hexSlice)
    {
      PackStep(hexSlice, i);
      buff := buff + [ToByte(16 * hexSlice[i] + hexSlice[i + 1])];
      i := i + 2;
      left := left - 1;
    }
  }

  lemma PackStep(s: seq<int>, i: nat)
    requires i + 1 < |s|
    ensures PackPairs(s[i..]) == [ToByte(16 * s[i] + s[i + 1])] + PackPairs(s[i + 2..])
  {
    assert s[i..][2..] == s[i + 2..];
  }

  method CompactHexDecode(str: Bytes) returns (hexSlice: seq<int>)
    ensures hexSlice == KeyPath(str)
  {
    hexSlice := [];
    for i := 0 to |str|
      invariant hexSlice == UnpackPairs(str[..i])
    {
      UnpackSnoc(str[..i], str[i]);
      assert str[..i + 1] == str[..i] + [str[i]];
      hexSlice := hexSlice + [str[i] / 16];
      hexSlice := hexSlice + [str[i] % 16];
    }
    assert str[..|str|] == str;
    hexSlice := hexSlice + [16];
  }

  lemma {:induction false} UnpackSnoc(b: Bytes, x: byte)
    ensures UnpackPairs(b + [x]) == UnpackPairs(b) + [x / 16, x % 16]
  {
    if b != [] {
      UnpackSnoc(b[1..], x);
      assert (b + [x])[1..] == b[1..] + [x];
    }
  }

  method CompactDecode(str: Bytes) returns (base: seq<int>)
    requires |str| > 0
    ensures base == Expand(str)
  {
    base := CompactHexDecode(str);
    base := base[..|base| - 1];
    assert base == UnpackPairs(str);
    if base[0] >= 2 {
      base := base + [16];
    }
    if base[0] % 2 == 1 {
      base := base[1..];
    } else {
      base := base[2..];
    }
  }

  method DecodeCompact(key: seq<int>) returns (res: Bytes)
    ensures res == PathKey(key)
  {
    var str := [];
    for i := 0 to |key|
      invariant str == Digits(key[..i])
    {
      assert key[..i + 1][..i] == key[..i];
      if key[i] < 16 {
        str := str + [key[i]];
      }
    }
    assert key[..|key|] == key;
    res := PackPairs(str);
  }
}
