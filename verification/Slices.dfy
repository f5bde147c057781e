/**
 Go slices with their spare capacity, and the slice comparisons of ethutil/helpers.go.

 `a[:n]` is allowed in Go up to the capacity of `a`, past its length, and panics beyond that.
 MatchingNibbleLength and the trie's delete both slice before they test a bound, so what they do
 depends on the elements and the room behind a slice.
 */
module Slices {
  import opened ByteStrings
  import opened HexPrefix

  /** `len` elements of a backing array that reaches to its capacity. */
  datatype IntSlice = IntSlice(backing: seq<int>, len: nat) {
    predicate Valid() {
      len <= |backing|
    }

    function Contents(): seq<int>
      requires Valid()
    {
      backing[..len]
    }
  }

  method CompareIntSlice(a: seq<int>, b: seq<int>) returns (r: bool)
    ensures r <==> a == b
  {
    if |a| != |b| {
      return false;
    }
    for i := 0 to |a|
      invariant a[..i] == b[..i]
    {
      if a[i] != b[i] {
        return false;
      }
    }
    assert a == a[..|a|] && b == b[..|a|];
    return true;
  }

  function MatchLength(a: seq<int>, b: seq<int>): (m: nat)
    ensures m <= |a| && m <= |b| && a[..m] == b[..m]
    ensures m < |a| && m < |b| ==> a[m] != b[m]
  {
    if a == [] || b == [] || a[0] != b[0] then 0 else
      var m := 1 + MatchLength(a[1..], b[1..]);
      assert a[..m] == [a[0]] + a[1..][..m - 1] && b[..m] == [b[0]] + b[1..][..m - 1];
      m
  }

  /** The loop of MatchingNibbleLength; None is a slice-bounds panic. */
  method MatchingNibbleLength(a: IntSlice, b: IntSlice) returns (r: Option<nat>)
    requires a.Valid() && b.Valid()
    ensures r == var m := MatchLength(a.backing, b.backing);
                 var stop := if m < b.len then m else b.len;
                 if stop < |a.backing| && stop < |b.backing| then Some(stop) else None
  {
    var i := 0;
    while true
      invariant i <= b.len && i <= MatchLength(a.backing, b.backing)
      decreases b.len - i
    {
      if i + 1 > |a.backing| || i + 1 > |b.backing| {
        return None;
      }
      var same := CompareIntSlice(a.backing[..i + 1], b.backing[..i + 1]);
      MatchReaches(a.backing, b.backing, i + 1);
      if !(same && i < b.len) {
        return Some(i);
      }
      i := i + 1;
    }
  }

  lemma MatchReaches(a: seq<int>, b: seq<int>, n: nat)
    requires n <= |a| && n <= |b|
    ensures n <= MatchLength(a, b) <==> a[..n] == b[..n]
  {
    var m := MatchLength(a, b);
    if n <= m {
      assert a[..n] == a[..m][..n] && b[..n] == b[..m][..n];
    } else {
      assert a[..n][m] == a[m] && b[..n][m] == b[m];
    }
  }

  /** CompactDecode as a slice: the terminator it cuts off stays behind as spare room. */
  function ExpandSlice(str: Bytes): (s: IntSlice)
    requires |str| > 0
    ensures s.Valid() && s.Contents() == Expand(str)
  {
    var digits := UnpackPairs(str);
    var from := if digits[0] % 2 == 1 then 1 else 2;
    var kept := if digits[0] >= 2 then 1 else 0;
    var s := IntSlice(KeyPath(str)[from..], |digits| - from + kept);
    assert s.Contents() == Expand(str);
    s
  }

  /**
   In the trie, with a terminated key against a decoded path other than it, MatchingNibbleLength never
   panics and finds the common prefix, whatever lies behind the key: a path without terminator always
   has one spare element.
   */
  lemma MatchingNibblesInTrie(key: IntSlice, str: Bytes)
    requires |str| > 0 && IsPath(Expand(str)) && key.Valid() && IsTerminated(key.Contents())
    requires Expand(str) != key.Contents()
    ensures var k := ExpandSlice(str);
            var m := MatchLength(key.backing, k.backing);
            var stop := if m < k.len then m else k.len;
            && stop < |key.backing| && stop < |k.backing|
            && stop == MatchLength(key.Contents(), Expand(str))
  {
    var a, b := key.backing, ExpandSlice(str).backing;
    var n := MatchLength(key.Contents(), Expand(str));
    PathsPart(key.Contents(), Expand(str));
    assert a[..n] == key.Contents()[..n] && b[..n] == Expand(str)[..n];
    MatchReaches(a, b, n);
    if n < |Expand(str)| {
      assert a[..n + 1][n] != b[..n + 1][n];
      MatchReaches(a, b, n + 1);
    }
  }

  /** A terminated key and a different path part before the end of the key; only an open path can be used up. */
  lemma PathsPart(key: seq<int>, k: seq<int>)
    requires IsTerminated(key) && IsPath(k) && k != key
    ensures MatchLength(key, k) < |key|
    ensures MatchLength(key, k) == |k| ==> !IsTerminated(k)
  {
    var n := MatchLength(key, k);
    assert forall i :: 0 <= i < n ==> key[i] == key[..n][i] == k[..n][i] == k[i];
  }
}
