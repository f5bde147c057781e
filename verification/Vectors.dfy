/**
 The examples of ethutil's tests, and the bytes of a few packets, accounts and trie nodes.
 */
module Vectors {
  import opened ByteStrings
  import opened HexPrefix
  import opened Slices
  import opened Rlp
  import opened PatriciaTree
  import opened NodeRefs
  import Transactions
  import Wire
  import Mnemonic

  // ---------- Hex-prefix paths (encoding_test.go) ----------

  lemma Pair(a: int, b: int, s: seq<int>)
    ensures PackPairs([a, b] + s) == [ToByte(16 * a + b)] + PackPairs(s)
  {
    assert ([a, b] + s)[2..] == s;
  }

  lemma Packs(a: int, b: int, c: int, d: int, e: int, f: int)
    ensures PackPairs([a, b, c, d, e, f]) == [ToByte(16 * a + b), ToByte(16 * c + d), ToByte(16 * e + f)]
    ensures PackPairs([a, b, c, d]) == [ToByte(16 * a + b), ToByte(16 * c + d)]
    ensures PackPairs([a, b]) == [ToByte(16 * a + b)]
  {
    Pair(a, b, [c, d] + [e, f]);
    Pair(a, b, [c, d]);
    Pair(c, d, [e, f]);
    Pair(c, d, []);
    Pair(e, f, []);
    Pair(a, b, []);
    assert [a, b] + ([c, d] + [e, f]) == [a, b, c, d, e, f] && [a, b] + [c, d] == [a, b, c, d];
    assert [a, b] + [] == [a, b] && [c, d] + [] == [c, d] && [e, f] + [] == [e, f];
  }

  /** Paths of odd length, open and terminated. */
  lemma OddVectors()
    ensures Compact([1, 2, 3, 4, 5]) == [0x11, 0x23, 0x45]
    ensures Compact([15, 1, 12, 11, 8, 16]) == [0x3f, 0x1c, 0xb8]
  {
    Packs(1, 1, 2, 3, 4, 5);
    assert Flagged([1, 2, 3, 4, 5]) == [1, 1, 2, 3, 4, 5];
    Packs(3, 15, 1, 12, 11, 8);
    assert Flagged([15, 1, 12, 11, 8, 16]) == [3, 15, 1, 12, 11, 8];
  }

  /** Paths of even length. */
  lemma EvenVectors()
    ensures Compact([0, 1, 2, 3, 4, 5]) == [0x00, 0x01, 0x23, 0x45]
    ensures Compact([0, 15, 1, 12, 11, 8, 16]) == [0x20, 0x0f, 0x1c, 0xb8]
  {
    Packs(0, 1, 2, 3, 4, 5);
    Pair(0, 0, [0, 1, 2, 3, 4, 5]);
    assert Flagged([0, 1, 2, 3, 4, 5]) == [0, 0] + [0, 1, 2, 3, 4, 5];
    Packs(0, 15, 1, 12, 11, 8);
    Pair(2, 0, [0, 15, 1, 12, 11, 8]);
    assert Flagged([0, 15, 1, 12, 11, 8, 16]) == [2, 0] + [0, 15, 1, 12, 11, 8];
  }

  /** "verb". */
  lemma KeyPathVector()
    ensures KeyPath([0x76, 0x65, 0x72, 0x62]) == [7, 6, 6, 5, 7, 2, 6, 2, 16]
  {
    UnpackCons(0x76, [0x65, 0x72, 0x62]);
    UnpackCons(0x65, [0x72, 0x62]);
    UnpackCons(0x72, [0x62]);
    UnpackCons(0x62, []);
    assert [0x76] + [0x65, 0x72, 0x62] == [0x76, 0x65, 0x72, 0x62] && [0x65] + [0x72, 0x62] == [0x65, 0x72, 0x62];
    assert [0x72] + [0x62] == [0x72, 0x62] && [0x62] + [] == [0x62];
  }

  // ---------- RLP (rlp_test.go) ----------

  /** A string of two to 55 bytes, or the empty one; and any single low byte. */
  lemma ShortStr(b: Bytes)
    requires |b| != 1 && |b| < 56
    ensures Encoded(Str(b)) == [0x80 + |b|] + b
  {}

  lemma LowByte(c: byte)
    requires c <= 0x7f
    ensures Encoded(Str([c])) == [c]
  {}

  lemma ShortList(xs: seq<Item>)
    requires |EncodedAll(xs)| < 56
    ensures Encoded(List(xs)) == [0xc0 + |EncodedAll(xs)|] + EncodedAll(xs)
  {}

  lemma Cons(x: Item, xs: seq<Item>)
    ensures EncodedAll([x] + xs) == Encoded(x) + EncodedAll(xs)
  {
    assert ([x] + xs)[1..] == xs;
  }

  lemma TwoItems(x: Item, y: Item)
    ensures EncodedAll([x, y]) == Encoded(x) + Encoded(y)
  {
    Cons(x, [y]);
    Cons(y, []);
    assert [x] + [y] == [x, y] && [y] + [] == [y];
  }

  lemma ThreeItems(x: Item, y: Item, z: Item)
    ensures EncodedAll([x, y, z]) == Encoded(x) + Encoded(y) + Encoded(z)
  {
    Cons(x, [y, z]);
    TwoItems(y, z);
    assert [x] + [y, z] == [x, y, z];
  }

  lemma TwoBytes(high: nat, low: nat)
    requires 0 < high < 256 && low < 256
    ensures ToBigEndian(256 * high + low) == [high, low]
  {
    OneByte(high);
    DigitsExact(high, low, []);
  }

  lemma OneByte(n: nat)
    requires 0 < n < 256
    ensures ToBigEndian(n) == [n]
  {
    DigitsExact(0, n, []);
  }

  /** "a", "dog", "", the empty list, and 1024. */
  lemma ItemVectors()
    ensures Encoded(Str([0x61])) == [0x61]
    ensures Encoded(Str([0x64, 0x6f, 0x67])) == [0x83, 0x64, 0x6f, 0x67]
    ensures Encoded(Str([])) == [0x80] && Encoded(List([])) == [0xc0]
    ensures Encoded(Str(ToBigEndian(1024))) == [0x82, 0x04, 0x00]
  {
    TwoBytes(4, 0);
    ShortStr([0x64, 0x6f, 0x67]);
    ShortStr([4, 0]);
    ShortStr([]);
    ShortList([]);
  }

  /** ["dog", "god", "cat"]. */
  lemma ListVector()
    ensures Encoded(List([Str([0x64, 0x6f, 0x67]), Str([0x67, 0x6f, 0x64]), Str([0x63, 0x61, 0x74])])) ==
            [0xcc, 0x83, 0x64, 0x6f, 0x67, 0x83, 0x67, 0x6f, 0x64, 0x83, 0x63, 0x61, 0x74]
  {
    var dog, god, cat := [0x64, 0x6f, 0x67], [0x67, 0x6f, 0x64], [0x63, 0x61, 0x74];
    ShortStr(dog);
    ShortStr(god);
    ShortStr(cat);
    ThreeItems(Str(dog), Str(god), Str(cat));
    ShortList([Str(dog), Str(god), Str(cat)]);
  }

  /** From 56 bytes on, the length has a field of its own. */
  lemma LongVectors(b: Bytes)
    ensures |b| == 56 ==> Encoded(Str(b)) == [0xb8, 56] + b
    ensures |b| == 1024 ==> Encoded(Str(b)) == [0xb9, 0x04, 0x00] + b
  {
    OneByte(56);
    TwoBytes(4, 0);
  }

  // ---------- Accounts and packets ----------

  /** The record of an account with amount 1024 and nonce 7, without storage, and with a code hash of one byte. */
  lemma RecordVector()
    ensures Encoded(Transactions.AccountItem(Transactions.Account(1024, 7), Str([]), [0x61])) ==
            [0xc6, 0x82, 0x04, 0x00, 0x07, 0x80, 0x61]
  {
    ItemVectors();
    OneByte(7);
    LowByte(7);
    var amount, nonce, root, code := Str([4, 0]), Str([7]), Str([]), Str([0x61]);
    TwoBytes(4, 0);
    Cons(amount, [nonce, root, code]);
    ThreeItems(nonce, root, code);
    assert [amount] + [nonce, root, code] == [amount, nonce, root, code];
    ShortList([amount, nonce, root, code]);
  }

  /** A message of kind 0x13 without data. */
  lemma PacketVector()
    ensures Wire.Packed(Wire.Msg(0x13, [])) == [34, 64, 8, 145, 0, 0, 0, 2, 0xc1, 0x13]
  {
    OneByte(0x13);
    LowByte(0x13);
    var kind := Str([0x13]);
    Cons(kind, []);
    assert [kind] + [] == [kind];
    ShortList([kind]);
    assert Wire.Payload(Wire.Msg(0x13, [])) == List([kind]);
  }

  // ---------- Trie nodes ----------

  /** A leaf, and a node below a path: the path in hex-prefix form, and what it leads to. */
  lemma NodeExact(k: seq<int>, v: Bytes, c: Node, h: Hash)
    requires IsPath(k) && Keyed(c)
    ensures NodeItem(Short(k, Value(v)), h) == List([Str(Compact(k)), Str(v)])
    ensures Inner(c) && |Encoded(NodeItem(c, h))| <= 31 ==>
              NodeItem(Short(k, c), h) == List([Str(Compact(k)), NodeItem(c, h)])
    ensures Inner(c) && |Encoded(NodeItem(c, h))| >= 32 ==>
              NodeItem(Short(k, c), h) == List([Str(Compact(k)), Str(h(Encoded(NodeItem(c, h))))])
  {}

  /** The trie with "a" under the key "a" alone. */
  lemma LeafVector(h: Hash)
    ensures var t := Insert(Empty, KeyPath([0x61]), Value([0x61]));
            && t == Short([6, 1, 16], Value([0x61]))
            && Keyed(t) && Encoded(NodeItem(t, h)) == [0xc4, 0x82, 0x20, 0x61, 0x61]
  {
    UnpackCons(0x61, []);
    assert [0x61] + [] == [0x61] && KeyPath([0x61]) == [6, 1, 16];
    LeafPath();
    NodeExact([6, 1, 16], [0x61], Empty, h);
    LeafBytes();
  }

  lemma LeafPath()
    ensures Compact([6, 1, 16]) == [0x20, 0x61] && IsPath([6, 1, 16])
  {
    Pair(2, 0, [6, 1]);
    Packs(6, 1, 0, 0, 0, 0);
    assert Flagged([6, 1, 16]) == [2, 0] + [6, 1];
  }

  lemma LeafBytes()
    ensures Encoded(List([Str([0x20, 0x61]), Str([0x61])])) == [0xc4, 0x82, 0x20, 0x61, 0x61]
  {
    LowByte(0x61);
    ShortStr([0x20, 0x61]);
    TwoItems(Str([0x20, 0x61]), Str([0x61]));
    ShortList([Str([0x20, 0x61]), Str([0x61])]);
  }

  /** Two keys that part in their first nibble make a branch, with each key's rest in the slot of its nibble. */
  lemma BranchVector()
    ensures var t := Insert(Insert(Empty, KeyPath([0x10]), Value([1])), KeyPath([0x2f]), Value([2]));
            && t.Full? && |t.slots| == 17
            && t.slots[1] == Short([0, 16], Value([1])) && t.slots[2] == Short([15, 16], Value([2]))
            && forall i :: 0 <= i < 17 && i != 1 && i != 2 ==> t.slots[i] == Empty
  {
    UnpackCons(0x10, []);
    UnpackCons(0x2f, []);
    assert [0x10] + [] == [0x10] && [0x2f] + [] == [0x2f];
    var a, b := KeyPath([0x10]), KeyPath([0x2f]);
    assert a == [1, 0, 16] && b == [2, 15, 16];
    assert a[1..] == [0, 16] && b[1..] == [15, 16] && b[..0] == [];
    assert MatchLength(b, a) == 0;
  }

  // ---------- The mnemonic coder (mnemonic_test.go) ----------

  /** One more digit. */
  lemma Digit(s: string, v: nat, d: nat, t: string)
    requires d < 16 && Mnemonic.HexValue(s) == Some(v) && t == s + ["0123456789abcdef"[d]]
    ensures Mnemonic.HexValue(t) == Some(16 * v + d)
  {
    Mnemonic.HexExact(d, s);
  }

  lemma DigitsVector()
    ensures Mnemonic.HexValue("c61d43dc") == Some(0xc61d43dc)
  {
    Digit("", 0, 12, "c");
    Digit("c", 0xc, 6, "c6");
    Digit("c6", 0xc6, 1, "c61");
    Digit("c61", 0xc61, 13, "c61d");
    Digit("c61d", 0xc61d, 4, "c61d4");
    Digit("c61d4", 0xc61d4, 3, "c61d43");
    Digit("c61d43", 0xc61d43, 13, "c61d43d");
    Digit("c61d43d", 0xc61d43d, 12, "c61d43dc");
  }

  /** The first eight digits of the test: "ink", "balance" and "gain" stand at these places of the table. */
  lemma MnemonicVector()
    ensures Mnemonic.ParseInt("c61d43dc") == 0xc61d43dc && Mnemonic.ParseInt("-c61d43dc") == -0xc61d43dc
    ensures Mnemonic.Word1(0xc61d43dc) == 898 && Mnemonic.Word2(0xc61d43dc) == 1177
    ensures Mnemonic.Word3(0xc61d43dc) == 808 && Mnemonic.Joined(898, 1177, 808) == 0xc61d43dc
  {
    DigitsVector();
    assert "-c61d43dc"[1..] == "c61d43dc";
  }
}
