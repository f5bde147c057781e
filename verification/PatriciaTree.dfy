/**
 What the trie of ethutil/trie.go is meant to be: a tree, with every reference to a stored node followed
 (Appendix D of the Ethereum Yellow Paper).

 A node is empty, a value, a two-slot node (a path and what it leads to), or a node of 17 slots. Get, Insert and
 Delete are GetState, InsertState and DeleteState where these do what they are for; CodedTree has all that they do.
 */
module PatriciaTree {
  import opened ByteStrings
  import opened HexPrefix
  import opened Slices

  datatype Node =
    | Empty
    | Value(v: Bytes)
    | Short(key: seq<int>, child: Node)
    | Full(slots: seq<Node>)

  /** The slots of a branch: one for each nibble, and one for a value. */
  const SLOTS: nat := 17

  /** EmptyStringSlice. */
  function EmptySlots(l: nat): (s: seq<Node>)
    ensures |s| == l && forall i :: 0 <= i < l ==> s[i].Empty?
  {
    if l == 0 then [] else EmptySlots(l - 1) + [Empty]
  }

  // ---------- Shapes ----------

  predicate Inner(t: Node) {
    t.Short? || t.Full?
  }

  /** What may follow a terminator. */
  predicate ValueSlot(t: Node) {
    t.Empty? || (t.Value? && t.v != [])
  }

  /** What the recursion relies on: paths are paths, and values sit only behind a terminator. */
  predicate Shaped(t: Node) {
    match t
    case Empty => true
    case Value(_) => false
    case Short(k, c) => IsPath(k) && if IsTerminated(k) then ValueSlot(c) else Shaped(c)
    case Full(s) => |s| == 17 && ValueSlot(s[16]) && forall i :: 0 <= i < 16 ==> Shaped(s[i])
  }

  predicate Occupied(s: seq<Node>, i: int) {
    0 <= i < |s| && !s[i].Empty?
  }

  predicate SomeOccupied(s: seq<Node>) {
    exists i :: 0 <= i < |s| && Occupied(s, i)
  }

  /**
   The canonical non-empty node: a leaf path ends in 16 and leads to a non-empty value, an extension path
   is open and leads to a branch, and a branch has at least two occupied slots.
   */
  predicate Sub(t: Node) {
    match t
    case Empty => false
    case Value(_) => false
    case Short(k, c) =>
      IsPath(k) && if IsTerminated(k) then c.Value? && c.v != [] else c.Full? && Sub(c)
    case Full(s) =>
      && |s| == 17
      && (forall i :: 0 <= i < 16 ==> s[i].Empty? || Sub(s[i]))
      && ValueSlot(s[16])
      && exists i, j :: 0 <= i < j < 17 && Occupied(s, i) && Occupied(s, j)
  }

  predicate Canonical(t: Node) {
    t.Empty? || Sub(t)
  }

  lemma {:induction false} SubIsShaped(t: Node)
    requires Canonical(t)
    ensures Shaped(t)
  {
    match t
    case Empty =>
    case Short(k, c) =>
      if !IsTerminated(k) {
        SubIsShaped(c);
      }
    case Full(s) =>
      forall i | 0 <= i < 16 ensures Shaped(s[i]) {
        SubIsShaped(s[i]);
      }
  }

  // ---------- Lookup, insertion, deletion ----------

  /** What is left of a terminated key: nothing, or a terminated key again. */
  predicate IsRest(key: seq<int>) {
    key == [] || IsTerminated(key)
  }

  /** A path that begins a terminated key is the whole key, or open with a terminated rest. */
  lemma PathInKey(k: seq<int>, key: seq<int>)
    requires IsPath(k) && IsTerminated(key) && k <= key
    ensures if k == key then IsTerminated(k) else !IsTerminated(k) && IsTerminated(key[|k|..])
  {
    assert k[|k| - 1] == key[|k| - 1];
    if k != key {
      assert key[|k| - 1] == key[..|key| - 1][|k| - 1];
      RestOfKey(key, |k|);
    } else {
      assert k == key;
    }
  }

  lemma RestOfKey(key: seq<int>, n: nat)
    requires IsTerminated(key) && n < |key|
    ensures IsTerminated(key[n..])
    ensures n > 0 ==> forall i :: 0 <= i < n ==> 0 <= key[i] < 16
  {
    assert key[n..][..|key[n..]| - 1] == key[..|key| - 1][n..];
    assert forall i :: 0 <= i < n ==> key[i] == key[..|key| - 1][i];
  }

  /** The first nibble of a terminated key; the rest is empty only behind the terminator. */
  lemma HeadOfKey(key: seq<int>)
    requires IsTerminated(key)
    ensures 0 <= key[0] <= 16 && IsRest(key[1..]) && (key[0] == 16 <==> key[1..] == [])
  {
    if |key| > 1 {
      RestOfKey(key, 1);
    }
  }

  /** GetState. */
  function Get(t: Node, key: seq<int>): Node
    requires key == [] || (IsTerminated(key) && Shaped(t))
    decreases |key|
  {
    if key == [] then t else
      match t
      case Short(k, c) =>
        if k <= key then PathInKey(k, key); Get(c, key[|k|..]) else Empty
      case Full(s) => HeadOfKey(key); Get(s[key[0]], key[1..])
      case _ => Empty
  }

  /** The value at a key, "" where there is none. */
  function Lookup(t: Node, key: seq<int>): Bytes
    requires key == [] || (IsTerminated(key) && Shaped(t))
  {
    var n := Get(t, key);
    if n.Value? then n.v else []
  }

  /** InsertState on an empty node: a two-slot node, or the value itself when no path is left. */
  function Attach(k: seq<int>, val: Node): Node {
    if k == [] then val else Short(k, val)
  }

  /** InsertState. */
  function Insert(t: Node, key: seq<int>, val: Node): Node
    requires key == [] || (IsTerminated(key) && Shaped(t))
    decreases |key|
  {
    if key == [] then val else
      match t
      case Short(k, c) =>
        if k == key then Short(key, val) else
          var m := MatchLength(key, k);
          PathsPart(key, k);
          if m == |k| then
            assert k == key[..m];
            PathInKey(k, key);
            Attach(key[..m], Insert(c, key[m..], val))
          else
            Attach(key[..m], Full(Forked(k, c, key, val, m)))
      case Full(s) => HeadOfKey(key); Full(s[key[0] := Insert(s[key[0]], key[1..], val)])
      case _ => Short(key, val)
  }

  /** The 17 slots that replace a path which a new key leaves after `m` nibbles. */
  function Forked(k: seq<int>, c: Node, key: seq<int>, val: Node, m: nat): (s: seq<Node>)
    requires IsPath(k) && IsTerminated(key) && m < |k| && m < |key|
    ensures |s| == 17
  {
    PathBounds(k, m);
    PathBounds(key, m);
    EmptySlots(SLOTS)[k[m] := Attach(k[m + 1..], c)][key[m] := Attach(key[m + 1..], val)]
  }

  lemma PathBounds(k: seq<int>, m: nat)
    requires IsPath(k) && m < |k|
    ensures 0 <= k[m] <= 16 && (k[m] == 16 ==> m == |k| - 1)
  {
    if m < |k| - 1 {
      assert k[m] == k[..|k| - 1][m];
    }
  }

  /** -1 when no slot is occupied, -2 when several are, else the only one: what the loop at trie.go:392-401 is for. */
  function Amount(s: seq<Node>, n: nat): (a: int)
    requires n <= |s|
    ensures a == -1 <==> forall i :: 0 <= i < n ==> s[i].Empty?
    ensures a >= 0 ==> a < n && !s[a].Empty? && forall i :: 0 <= i < n && i != a ==> s[i].Empty?
    ensures a < -1 ==> a == -2 && exists i, j :: 0 <= i < j < n && Occupied(s, i) && Occupied(s, j)
  {
    if n == 0 then -1 else
      var a := Amount(s, n - 1);
      if s[n - 1].Empty? then a
      else if a == -1 then n - 1
      else
        assert Occupied(s, n - 1);
        assert a >= 0 ==> Occupied(s, a);
        -2
  }

  /** The node for a branch, after one of its slots was cleared. */
  function Collapsed(s: seq<Node>): Node
    requires |s| == 17
  {
    var a := Amount(s, 17);
    if a == 16 then Short([16], s[16])
    else if a >= 0 && s[a].Full? then Short([a], s[a])
    else if a >= 0 && s[a].Short? then Short([a] + s[a].key, s[a].child)
    else Full(s)
  }

  /** The node above a child that a deletion below an extension returned. */
  function Joined(k: seq<int>, child: Node): Node {
    if child.Short? then Short(k + child.key, child.child) else Short(k, child)
  }

  /** What DeleteState is for; CodedTree has what it does. */
  function Delete(t: Node, key: seq<int>): Node
    requires key == [] || (IsTerminated(key) && Shaped(t))
    decreases |key|
  {
    if key == [] then Empty else
      match t
      case Short(k, c) =>
        if k == key then Empty
        else if k <= key then PathInKey(k, key); Joined(k, Delete(c, key[|k|..]))
        else t
      case Full(s) =>
        HeadOfKey(key);
        Collapsed(s[key[0] := Delete(s[key[0]], key[1..])])
      case _ => Empty
  }

  // ---------- Shapes kept on every input ----------

  lemma OpenRest(k: seq<int>, m: nat)
    requires IsPath(k) && m < |k|
    ensures IsPath(k[m..]) && (IsTerminated(k[m..]) <==> IsTerminated(k))
  {
    assert k[m..][..|k[m..]| - 1] == k[..|k| - 1][m..];
  }

  lemma OpenPrefix(key: seq<int>, m: nat)
    requires IsTerminated(key) && 0 < m < |key|
    ensures IsPath(key[..m]) && !IsTerminated(key[..m])
  {
    RestOfKey(key, m);
  }

  lemma JoinPaths(k: seq<int>, k2: seq<int>)
    requires IsPath(k) && !IsTerminated(k) && IsPath(k2)
    ensures IsPath(k + k2) && (IsTerminated(k + k2) <==> IsTerminated(k2))
  {
    assert (k + k2)[..|k + k2| - 1] == k + k2[..|k2| - 1];
    assert k == k[..|k| - 1] + [k[|k| - 1]];
  }

  lemma ShapedAttach(k: seq<int>, m: nat, c: Node)
    requires IsPath(k) && m < |k|
    requires if IsTerminated(k) then ValueSlot(c) else Shaped(c)
    ensures var a := Attach(k[m + 1..], c);
            if k[m] == 16 then ValueSlot(a) else Shaped(a)
  {
    PathBounds(k, m);
    if m + 1 < |k| {
      OpenRest(k, m + 1);
    }
  }

  lemma {:induction false} InsertShaped(t: Node, key: seq<int>, v: Bytes)
    requires IsTerminated(key) && Shaped(t) && v != []
    ensures Shaped(Insert(t, key, Value(v)))
    decreases |key|
  {
    match t
    case Empty =>
    case Short(k, c) =>
      if k != key {
        var m := MatchLength(key, k);
        PathsPart(key, k);
        if m > 0 {
          OpenPrefix(key, m);
        }
        if m == |k| {
          assert k == key[..m];
          PathInKey(k, key);
          InsertShaped(c, key[m..], v);
        } else {
          ForkedShaped(k, c, key, v, m);
        }
      }
    case Full(s) =>
      HeadOfKey(key);
      if key[0] != 16 {
        InsertShaped(s[key[0]], key[1..], v);
      }
  }

  lemma ForkedShaped(k: seq<int>, c: Node, key: seq<int>, v: Bytes, m: nat)
    requires Shaped(Short(k, c)) && IsTerminated(key) && m < |k| && m < |key| && v != []
    ensures Shaped(Full(Forked(k, c, key, Value(v), m)))
  {
    PathBounds(k, m);
    PathBounds(key, m);
    ShapedAttach(k, m, c);
    ShapedAttach(key, m, Value(v));
  }

  lemma JoinedShaped(k: seq<int>, h: Node)
    requires IsPath(k) && !IsTerminated(k) && Shaped(h)
    ensures Shaped(Joined(k, h))
  {
    if h.Short? {
      JoinPaths(k, h.key);
    }
  }

  lemma CollapsedShaped(s: seq<Node>)
    requires Shaped(Full(s))
    ensures Shaped(Collapsed(s))
  {
    var a := Amount(s, 17);
    if 0 <= a < 16 && s[a].Short? {
      JoinPaths([a], s[a].key);
    }
  }

  lemma {:induction false} DeleteShaped(t: Node, key: seq<int>)
    requires IsTerminated(key) && Shaped(t)
    ensures Shaped(Delete(t, key))
    decreases |key|
  {
    match t
    case Empty =>
    case Short(k, c) =>
      if k != key && k <= key {
        PathInKey(k, key);
        DeleteShaped(c, key[|k|..]);
        JoinedShaped(k, Delete(c, key[|k|..]));
      }
    case Full(s) =>
      HeadOfKey(key);
      if key[0] != 16 {
        DeleteShaped(s[key[0]], key[1..]);
      }
      CollapsedShaped(s[key[0] := Delete(s[key[0]], key[1..])]);
  }

  // ---------- Canonical shape ----------

  lemma AttachIsCanonical(k: seq<int>, m: nat, c: Node)
    requires IsPath(k) && m < |k|
    requires if IsTerminated(k) then c.Value? && c.v != [] else c.Full? && Sub(c)
    ensures var a := Attach(k[m + 1..], c);
            if k[m] == 16 then a.Value? && a.v != [] else Sub(a)
  {
    PathBounds(k, m);
    if k[m] != 16 && m + 1 < |k| {
      OpenRest(k, m + 1);
    }
  }

  /** Every insertion keeps the canonical shape, and keeps a branch a branch. */
  lemma {:induction false} InsertCanonical(t: Node, key: seq<int>, v: Bytes)
    requires IsTerminated(key) && Canonical(t) && v != []
    ensures Shaped(t)
    ensures Sub(Insert(t, key, Value(v))) && (t.Full? ==> Insert(t, key, Value(v)).Full?)
    decreases |key|
  {
    SubIsShaped(t);
    match t
    case Empty =>
    case Short(k, c) =>
      if k != key {
        var m := MatchLength(key, k);
        PathsPart(key, k);
        if m == |k| {
          assert k == key[..m];
          PathInKey(k, key);
          InsertCanonical(c, key[m..], v);
        } else {
          ForkedIsCanonical(k, c, key, v, m);
          if m > 0 {
            OpenPrefix(key, m);
          }
        }
      }
    case Full(s) =>
      HeadOfKey(key);
      if key[0] != 16 {
        InsertCanonical(s[key[0]], key[1..], v);
      }
      var s' := s[key[0] := Insert(s[key[0]], key[1..], Value(v))];
      assert forall i :: Occupied(s, i) ==> Occupied(s', i);
  }

  lemma ForkedIsCanonical(k: seq<int>, c: Node, key: seq<int>, v: Bytes, m: nat)
    requires Sub(Short(k, c)) && IsTerminated(key) && v != []
    requires m < |k| && m < |key| && k[m] != key[m]
    ensures Sub(Full(Forked(k, c, key, Value(v), m)))
  {
    PathBounds(k, m);
    PathBounds(key, m);
    AttachIsCanonical(k, m, c);
    AttachIsCanonical(key, m, Value(v));
    var s := Forked(k, c, key, Value(v), m);
    assert Occupied(s, k[m]) && Occupied(s, key[m]);
  }

  /** Every deletion keeps the canonical shape; a branch never becomes empty. */
  lemma {:induction false} DeleteCanonical(t: Node, key: seq<int>)
    requires IsTerminated(key) && Canonical(t)
    ensures Shaped(t) && Canonical(Delete(t, key))
    ensures t.Full? ==> Inner(Delete(t, key))
    decreases |key|
  {
    SubIsShaped(t);
    match t
    case Empty =>
    case Short(k, c) =>
      if k != key && k <= key {
        PathInKey(k, key);
        DeleteCanonical(c, key[|k|..]);
        JoinedIsCanonical(k, Delete(c, key[|k|..]));
      }
    case Full(s) =>
      HeadOfKey(key);
      if key[0] != 16 {
        DeleteCanonical(s[key[0]], key[1..]);
      }
      StillOccupied(s, key[0], Delete(s[key[0]], key[1..]));
      CollapsedIsCanonical(s[key[0] := Delete(s[key[0]], key[1..])]);
  }

  lemma JoinedIsCanonical(k: seq<int>, child: Node)
    requires IsPath(k) && !IsTerminated(k) && Sub(child)
    ensures Sub(Joined(k, child))
  {
    if child.Short? {
      JoinPaths(k, child.key);
    }
  }

  predicate SlotsCanonical(s: seq<Node>) {
    && |s| == 17
    && (forall i :: 0 <= i < 16 ==> s[i].Empty? || Sub(s[i]))
    && ValueSlot(s[16])
  }

  lemma CollapsedIsCanonical(s: seq<Node>)
    requires SlotsCanonical(s) && SomeOccupied(s)
    ensures Sub(Collapsed(s))
  {
    var a := Amount(s, 17);
    if 0 <= a < 16 && s[a].Short? {
      JoinPaths([a], s[a].key);
    }
  }

  lemma StillOccupied(s: seq<Node>, i: int, d: Node)
    requires Sub(Full(s)) && 0 <= i < 17
    ensures SomeOccupied(s[i := d])
  {
    var a, b :| 0 <= a < b < 17 && Occupied(s, a) && Occupied(s, b);
    assert Occupied(s[i := d], a) || Occupied(s[i := d], b);
  }

  // ---------- The tree refines a map ----------

  lemma LookupAttach(k: seq<int>, c: Node, key: seq<int>)
    requires k == [] || IsPath(k)
    requires IsRest(key) && (key == [] ==> k == [])
    requires Shaped(Attach(k, c)) || (key == [] && k == [])
    ensures k <= key ==> (key[|k|..] == [] || (IsTerminated(key[|k|..]) && Shaped(c)))
    ensures Lookup(Attach(k, c), key) == if k <= key then Lookup(c, key[|k|..]) else []
  {
    if k == [] {
      assert key[0..] == key;
    } else if k <= key {
      PathInKey(k, key);
    }
  }

  /** After Update(key, v), Get returns v at the key and the old value at every other key. */
  lemma {:induction false} LookupInsert(t: Node, key: seq<int>, v: Bytes, other: seq<int>)
    requires IsTerminated(key) && IsTerminated(other) && Shaped(t) && v != []
    ensures Shaped(Insert(t, key, Value(v)))
    ensures Lookup(Insert(t, key, Value(v)), other) == if other == key then v else Lookup(t, other)
    decreases |key|
  {
    InsertShaped(t, key, v);
    match t
    case Empty => LookupAttach(key, Value(v), other);
    case Short(k, c) =>
      LookupAttach(k, c, other);
      if k == key {
        LookupAttach(key, Value(v), other);
      } else {
        var m := MatchLength(key, k);
        PathsPart(key, k);
        if m == |k| {
          LookupInsertBelow(k, c, key, v, other);
        } else {
          LookupForked(k, c, key, v, m, other);
        }
      }
    case Full(s) =>
      HeadOfKey(key);
      HeadOfKey(other);
      assert key == [key[0]] + key[1..] && other == [other[0]] + other[1..];
      var below := Insert(s[key[0]], key[1..], Value(v));
      assert Insert(t, key, Value(v)).slots[other[0]] == if other[0] == key[0] then below else s[other[0]];
      if key[0] == other[0] {
        if key[0] == 16 {
          assert below == Value(v);
          assert key == [16] == other;
          assert Get(Insert(t, key, Value(v)), other) == Get(below, []);
        } else {
          LookupInsert(s[key[0]], key[1..], v, other[1..]);
        }
      }
  }

  lemma {:induction false} LookupInsertBelow(k: seq<int>, c: Node, key: seq<int>, v: Bytes, other: seq<int>)
    requires Shaped(Short(k, c)) && k != key && IsTerminated(key) && IsTerminated(other) && v != []
    requires MatchLength(key, k) == |k|
    ensures Shaped(Insert(Short(k, c), key, Value(v)))
    ensures Lookup(Insert(Short(k, c), key, Value(v)), other) == if other == key then v else Lookup(Short(k, c), other)
    decreases |key|, 0
  {
    InsertShaped(Short(k, c), key, v);
    assert k == key[..|k|];
    PathInKey(k, key);
    var below := Insert(c, key[|k|..], Value(v));
    LookupAttach(k, c, other);
    LookupAttach(k, below, other);
    if k <= other {
      PathInKey(k, other);
      LookupInsert(c, key[|k|..], v, other[|k|..]);
      assert key == k + key[|k|..] && other == k + other[|k|..];
    }
  }

  lemma LookupForked(k: seq<int>, c: Node, key: seq<int>, v: Bytes, m: nat, other: seq<int>)
    requires Shaped(Short(k, c)) && IsTerminated(key) && IsTerminated(other) && v != []
    requires m < |k| && m < |key| && key[..m] == k[..m] && key[m] != k[m]
    ensures Shaped(Attach(key[..m], Full(Forked(k, c, key, Value(v), m))))
    ensures Lookup(Attach(key[..m], Full(Forked(k, c, key, Value(v), m))), other)
         == if other == key then v else Lookup(Short(k, c), other)
  {
    var s := Forked(k, c, key, Value(v), m);
    ForkedShaped(k, c, key, v, m);
    if m > 0 {
      OpenPrefix(key, m);
    }
    LookupAttach(key[..m], Full(s), other);
    LookupAttach(k, c, other);
    if key[..m] <= other {
      ForkPoint(key, other, m);
      ForkPoint(k, other, m);
      RestOfKey(other, m);
      LookupBelowFork(k, c, key, v, m, other);
    } else {
      NotPrefix(k, other, m);
    }
  }

  lemma LookupBelowFork(k: seq<int>, c: Node, key: seq<int>, v: Bytes, m: nat, other: seq<int>)
    requires Shaped(Short(k, c)) && IsTerminated(key) && v != []
    requires m < |k| && m < |key| && m < |other| && key[m] != k[m] && IsTerminated(other[m..])
    ensures Shaped(Full(Forked(k, c, key, Value(v), m)))
    ensures k[m] == other[m] && k[m + 1..] <= other[m + 1..] ==>
              var rest := other[m + 1..][|k[m + 1..]|..];
              rest == [] || (IsTerminated(rest) && Shaped(c))
    ensures Lookup(Full(Forked(k, c, key, Value(v), m)), other[m..])
         == if key[m] == other[m] && key[m + 1..] == other[m + 1..] then v
            else if k[m] == other[m] && k[m + 1..] <= other[m + 1..] then Lookup(c, other[m + 1..][|k[m + 1..]|..])
            else []
  {
    var s := Forked(k, c, key, Value(v), m);
    ForkedShaped(k, c, key, v, m);
    PathBounds(k, m);
    PathBounds(key, m);
    HeadOfKey(other[m..]);
    assert other[m..][1..] == other[m + 1..];
    assert Get(Full(s), other[m..]) == Get(s[other[m]], other[m + 1..]);
    if other[m] == key[m] {
      RestOfKey(key, m);
      HeadOfKey(key[m..]);
      assert key[m..][1..] == key[m + 1..];
      LookupLeaf(key[m + 1..], v, other[m + 1..]);
    } else if other[m] == k[m] {
      LookupOldPath(k, c, m, other[m + 1..]);
    } else {
      assert s[other[m]].Empty?;
    }
  }

  lemma LookupOldPath(k: seq<int>, c: Node, m: nat, rest: seq<int>)
    requires Shaped(Short(k, c)) && m < |k| && IsRest(rest) && (rest == [] <==> k[m] == 16)
    ensures k[m + 1..] <= rest ==> IsRest(rest[|k[m + 1..]|..])
    ensures k[m + 1..] <= rest && rest[|k[m + 1..]|..] != [] ==> Shaped(c)
    ensures rest != [] ==> Shaped(Attach(k[m + 1..], c))
    ensures Lookup(Attach(k[m + 1..], c), rest) == if k[m + 1..] <= rest then Lookup(c, rest[|k[m + 1..]|..]) else []
  {
    PathBounds(k, m);
    ShapedAttach(k, m, c);
    if k[m] != 16 {
      OpenRest(k, m);
    }
    LookupAttach(k[m + 1..], c, rest);
  }

  lemma LookupLeaf(key: seq<int>, v: Bytes, other: seq<int>)
    requires v != [] && IsRest(key) && IsRest(other) && (key == [] <==> other == [])
    ensures Lookup(Attach(key, Value(v)), other) == if key == other then v else []
  {
    LookupAttach(key, Value(v), other);
    if key != [] && key <= other {
      PathInKey(key, other);
    }
  }

  lemma NotPrefix(k: seq<int>, other: seq<int>, m: nat)
    requires m <= |k| && !(k[..m] <= other)
    ensures !(k <= other)
  {}

  /** Two lists with a common start are compared behind it. */
  lemma ForkPoint(k: seq<int>, other: seq<int>, m: nat)
    requires m < |k| && k[..m] <= other
    ensures m < |other| && k[m] == other[m] ==> (k <= other <==> k[m + 1..] <= other[m + 1..])
    ensures m < |other| && k[m] == other[m] ==> (k == other <==> k[m + 1..] == other[m + 1..])
    ensures (m < |other| ==> k[m] != other[m]) ==> !(k <= other)
    ensures k <= other ==> other[|k|..] == other[m + 1..][|k[m + 1..]|..]
  {
    assert k == k[..m] + [k[m]] + k[m + 1..];
    if m < |other| {
      assert other == other[..m] + [other[m]] + other[m + 1..];
    }
  }

  lemma SplitPrefix(k: seq<int>, k2: seq<int>, key: seq<int>)
    ensures k + k2 <= key <==> k <= key && k2 <= key[|k|..]
    ensures k + k2 <= key ==> key[|k + k2|..] == key[|k|..][|k2|..]
  {
    if |k + k2| <= |key| {
      assert key[..|k + k2|] == key[..|k|] + key[|k|..][..|k2|];
      assert (k + k2)[..|k|] == k && (k + k2)[|k|..] == k2;
    }
  }

  lemma LookupJoined(k: seq<int>, h: Node, key: seq<int>)
    requires IsPath(k) && !IsTerminated(k) && Shaped(h) && IsTerminated(key)
    ensures Shaped(Joined(k, h)) && (k <= key ==> IsTerminated(key[|k|..]))
    ensures Lookup(Joined(k, h), key) == if k <= key then Lookup(h, key[|k|..]) else []
  {
    JoinedShaped(k, h);
    if k <= key {
      PathInKey(k, key);
    }
    if h.Short? {
      SplitPrefix(k, h.key, key);
    }
  }

  /** Replacing a branch with a single occupied slot by a two-slot node changes no lookup. */
  lemma LookupCollapsed(s: seq<Node>, key: seq<int>)
    requires Shaped(Full(s)) && IsTerminated(key)
    ensures Shaped(Collapsed(s)) && Lookup(Collapsed(s), key) == Lookup(Full(s), key)
  {
    CollapsedShaped(s);
    HeadOfKey(key);
    assert Get(Full(s), key) == Get(s[key[0]], key[1..]);
    var a := Amount(s, 17);
    if 0 <= a < 16 {
      if s[a].Short? {
        SplitPrefix([a], s[a].key, key);
      }
      assert [a] <= key <==> key[0] == a;
    } else if a == 16 {
      assert [16] <= key <==> key == [16];
    }
  }

  /** After Delete(key), Get returns "" at the key and the old value elsewhere. */
  lemma {:induction false} LookupDelete(t: Node, key: seq<int>, other: seq<int>)
    requires IsTerminated(key) && IsTerminated(other) && Shaped(t)
    ensures Shaped(Delete(t, key)) && Lookup(Delete(t, key), other) == if other == key then [] else Lookup(t, other)
    decreases |key|
  {
    DeleteShaped(t, key);
    match t
    case Empty =>
    case Short(k, c) =>
      LookupAttach(k, c, other);
      if k == key {
        if k <= other {
          PathInKey(k, other);
        }
      } else if k <= key {
        LookupDeleteBelow(k, c, key, other);
      }
    case Full(s) => LookupDeleteInBranch(s, key, other);
  }

  lemma {:induction false} LookupDeleteBelow(k: seq<int>, c: Node, key: seq<int>, other: seq<int>)
    requires IsTerminated(key) && IsTerminated(other) && Shaped(Short(k, c)) && k <= key && k != key
    ensures Shaped(Delete(Short(k, c), key))
    ensures Lookup(Delete(Short(k, c), key), other) == if other == key then [] else Lookup(Short(k, c), other)
    decreases |key|, 0
  {
    PathInKey(k, key);
    var h := Delete(c, key[|k|..]);
    DeleteShaped(c, key[|k|..]);
    LookupJoined(k, h, other);
    LookupAttach(k, c, other);
    if k <= other {
      PathInKey(k, other);
      LookupDelete(c, key[|k|..], other[|k|..]);
      assert key == k + key[|k|..] && other == k + other[|k|..];
    }
  }

  lemma {:induction false} LookupDeleteInBranch(s: seq<Node>, key: seq<int>, other: seq<int>)
    requires IsTerminated(key) && IsTerminated(other) && Shaped(Full(s))
    ensures Shaped(Delete(Full(s), key))
    ensures Lookup(Delete(Full(s), key), other) == if other == key then [] else Lookup(Full(s), other)
    decreases |key|, 0
  {
    DeleteShaped(Full(s), key);
    HeadOfKey(key);
    HeadOfKey(other);
    assert key == [key[0]] + key[1..] && other == [other[0]] + other[1..];
    var d := Delete(s[key[0]], key[1..]);
    var s' := s[key[0] := d];
    if key[0] != 16 {
      DeleteShaped(s[key[0]], key[1..]);
    }
    LookupCollapsed(s', other);
    assert Get(Full(s'), other) == Get(s'[other[0]], other[1..]);
    if key[0] == other[0] != 16 {
      LookupDelete(s[key[0]], key[1..], other[1..]);
    }
  }

  // ---------- Canonical nodes hold keys ----------

  /** Every canonical non-empty node holds a key. */
  lemma {:induction false} SomeKey(t: Node) returns (key: seq<int>)
    requires Sub(t)
    ensures IsTerminated(key) && Shaped(t) && Lookup(t, key) != []
    decreases t
  {
    SubIsShaped(t);
    match t
    case Short(k, c) =>
      if IsTerminated(k) {
        key := k;
        assert Get(t, key) == Get(c, []);
      } else {
        var rest := SomeKey(c);
        key := k + rest;
        JoinPaths(k, rest);
        assert key[|k|..] == rest;
      }
    case Full(s) =>
      var i, j :| 0 <= i < j < 17 && Occupied(s, i) && Occupied(s, j);
      key := SomeKeyAt(s, i);
  }

  /** Every occupied slot of a branch holds a key. */
  lemma {:induction false} SomeKeyAt(s: seq<Node>, i: int) returns (key: seq<int>)
    requires Sub(Full(s)) && Occupied(s, i)
    ensures IsTerminated(key) && key[0] == i && Shaped(Full(s)) && Lookup(Full(s), key) != []
    decreases s, i
  {
    SubIsShaped(Full(s));
    if i == 16 {
      key := [16];
    } else {
      var rest := SomeKey(s[i]);
      key := [i] + rest;
      JoinPaths([i], rest);
      assert key[1..] == rest;
    }
    assert Get(Full(s), key) == Get(s[i], key[1..]);
  }
}
