/**
 The nodes that runs of given updates can put are finitely many: a tree never gets deeper than its longest key, and its
 values are those that were written.
 */
module RunNodes {
  import opened ByteStrings
  import opened HexPrefix
  import opened Slices
  import opened Rlp
  import opened PatriciaTree
  import opened TrieTheorems
  import opened CodedTree
  import opened CodedRight
  import opened SharedNodes
  import opened CodedRuns
  import opened NodeRefs
  import opened TrieSteps
  import opened TrieRuns

  /** At most `d` nibbles deep, with these values. */
  predicate Small(n: Node, d: int, values: set<Bytes>)
    decreases n
  {
    match n
    case Empty => true
    case Value(v) => v in values
    case Short(k, c) => 1 <= |k| <= d && Nibbles(k) && Small(c, d - |k|, values)
    case Full(s) => s == [] || (|s| == 17 && d >= 1 && forall i :: 0 <= i < 17 ==> Small(s[i], d - 1, values))
  }

  predicate Nibbles(k: seq<int>) {
    forall i :: 0 <= i < |k| ==> 0 <= k[i] <= 16
  }

  // ---------- A finite set of nodes ----------

  /** Everything that is so deep at most, with these values. */
  ghost predicate Covers(nodes: set<Node>, d: int, values: set<Bytes>) {
    forall n :: Small(n, d, values) ==> n in nodes
  }

  function Flat(values: set<Bytes>): set<Node> {
    {Empty, Full([])} + set v | v in values :: Value(v)
  }

  /** Two-slot nodes: a nibble more than these. */
  function Shorts(below: set<Node>): set<Node> {
    (set x: int, c | 0 <= x <= 16 && c in below :: Short([x], c))
    + set x: int, n | 0 <= x <= 16 && n in below && n.Short? :: Short([x] + n.key, n.child)
  }

  function Slots(m: nat, below: set<Node>): set<seq<Node>>
    decreases m
  {
    if m == 0 then {[]} else set c, s | c in below && s in Slots(m - 1, below) :: [c] + s
  }

  function Fulls(below: set<Node>): set<Node> {
    set s | s in Slots(17, below) :: Full(s)
  }

  lemma {:induction false} SlotsHold(s: seq<Node>, below: set<Node>)
    requires forall i :: 0 <= i < |s| ==> s[i] in below
    ensures s in Slots(|s|, below)
  {
    if s != [] {
      SlotsHold(s[1..], below);
      assert s == [s[0]] + s[1..];
    }
  }

  lemma FullHolds(s: seq<Node>, below: set<Node>)
    requires |s| == 17 && forall i :: 0 <= i < 17 ==> s[i] in below
    ensures Full(s) in Fulls(below)
  {
    SlotsHold(s, below);
  }

  lemma ShortHolds(k: seq<int>, c: Node, below: set<Node>)
    requires k != [] && 0 <= k[0] <= 16 && (if |k| == 1 then c in below else Short(k[1..], c) in below)
    ensures Short(k, c) in Shorts(below)
  {
    assert k == [k[0]] + k[1..];
    if |k| == 1 {
      assert k == [k[0]];
    } else {
      var n := Short(k[1..], c);
      assert Short([k[0]] + n.key, n.child) == Short(k, c);
    }
  }

  /** What is one nibble deeper. */
  lemma Deeper(n: Node, d: int, values: set<Bytes>, below: set<Node>)
    requires Covers(below, d, values) && Small(n, d + 1, values)
    ensures n in below || n in Shorts(below) || n in Fulls(below)
  {
    match n
    case Short(k, c) =>
      assert Nibbles(k[1..]);
      assert |k| == 1 ==> Small(c, d, values);
      assert |k| > 1 ==> Small(Short(k[1..], c), d, values);
      ShortHolds(k, c, below);
    case Full(s) =>
      if s != [] {
        FullHolds(s, below);
      } else {
        assert Small(n, d, values);
      }
    case _ => assert Small(n, d, values);
  }

  lemma {:induction false} NodesExist(d: nat, values: set<Bytes>) returns (nodes: set<Node>)
    ensures Covers(nodes, d, values)
    decreases d
  {
    if d == 0 {
      nodes := Flat(values);
    } else {
      var below := NodesExist(d - 1, values);
      nodes := below + Shorts(below) + Fulls(below);
      forall n | Small(n, d, values) ensures n in nodes {
        Deeper(n, d - 1, values, below);
      }
    }
  }

  lemma {:induction false} SmallGrows(n: Node, d: int, e: int, values: set<Bytes>)
    requires Small(n, d, values) && d <= e
    ensures Small(n, e, values)
    decreases n
  {
    match n
    case Short(k, c) => SmallGrows(c, d - |k|, e - |k|, values);
    case Full(s) =>
      forall i | 0 <= i < |s| ensures Small(s[i], e - 1, values) {
        SmallGrows(s[i], d - 1, e - 1, values);
      }
    case _ =>
  }

  // ---------- Updates keep within it ----------

  predicate SmallTree(t: Tree, d: int, values: set<Bytes>) {
    Small(AsNode(t, true), d, values)
  }

  lemma PathNibbles(k: seq<int>)
    requires IsPath(k) || IsRest(k)
    ensures Nibbles(k)
  {
    forall i | 0 <= i < |k| ensures 0 <= k[i] <= 16 {
      if IsPath(k) {
        PathBounds(k, i);
      }
    }
  }

  lemma SmallOnto(k: seq<int>, x: Tree, d: int, values: set<Bytes>)
    requires SmallTree(x, d - |k|, values) && Nibbles(k) && |k| <= d
    ensures SmallTree(Onto(k, x), d, values)
  {}

  lemma PartNibbles(k: seq<int>, m: nat)
    requires IsPath(k) && m <= |k|
    ensures Nibbles(k[..m]) && Nibbles(k[m..])
  {
    PathNibbles(k);
  }

  lemma SmallFork(k: seq<int>, c: Tree, key: seq<int>, val: Tree, m: nat, d: int, values: set<Bytes>, i: nat)
    requires IsPath(k) && IsTerminated(key) && m < |k| && m < |key| && k[m] != key[m] && |k| <= d + m && |key| <= d + m
    requires SmallTree(c, d + m - |k|, values) && SmallTree(val, d + m - |key|, values) && i < 17
    ensures SmallTree(Forks(k, c, key, val, m)[i], d - 1, values)
  {
    ForkSlot(k, c, key, val, m, i, n => false);
    if i == key[m] {
      SmallRest(key, m, val, d, values);
    } else if i == k[m] {
      SmallRest(k, m, c, d, values);
    }
  }

  lemma SmallRest(k: seq<int>, m: nat, x: Tree, d: int, values: set<Bytes>)
    requires IsPath(k) && m < |k| <= d + m && SmallTree(x, d + m - |k|, values)
    ensures SmallTree(Onto(k[m + 1..], x), d - 1, values)
  {
    PartNibbles(k, m + 1);
    SmallOnto(k[m + 1..], x, d - 1, values);
  }

  lemma SmallForks(k: seq<int>, c: Tree, key: seq<int>, val: Tree, m: nat, d: int, values: set<Bytes>)
    requires IsPath(k) && IsTerminated(key) && m < |k| && m < |key| && k[m] != key[m] && |k| <= d + m && |key| <= d + m
    requires SmallTree(c, d + m - |k|, values) && SmallTree(val, d + m - |key|, values)
    ensures SmallTree(Branch(Forks(k, c, key, val, m)), d, values)
  {
    var s := Forks(k, c, key, val, m);
    forall i | 0 <= i < 17 ensures SmallTree(s[i], d - 1, values) {
      SmallFork(k, c, key, val, m, d, values, i);
    }
    SmallBranch(s, d, values);
  }

  lemma SmallBranch(s: seq<Tree>, d: int, values: set<Bytes>)
    requires |s| == 17 && d >= 1
    ensures SmallTree(Branch(s), d, values) <==> forall i :: 0 <= i < 17 ==> SmallTree(s[i], d - 1, values)
  {
    assert forall i :: 0 <= i < 17 ==> AsNodes(s, true)[i] == AsNode(s[i], true);
  }

  lemma SmallSlot(s: seq<Tree>, i: nat, d: int, values: set<Bytes>)
    requires SmallTree(Branch(s), d, values) && |s| == 17 && i < 17
    ensures SmallTree(s[i], d - 1, values)
  {
    assert AsNodes(s, true)[i] == AsNode(s[i], true);
  }

  lemma {:induction false} SmallPlace(t: Tree, key: seq<int>, v: Bytes, d: int, values: set<Bytes>)
    requires key == [] || (IsTerminated(key) && Formed(t))
    requires SmallTree(t, d, values) && |key| <= d && v in values
    ensures SmallTree(Place(t, key, Word(v, false)), d, values)
    decreases |key|, 1
  {
    if key != [] {
      PathNibbles(key);
      match t
      case Path(k, c) =>
        if k != key {
          SmallChild(k, c, d, values);
          SmallInPath(k, c, key, v, d, values);
        }
      case Branch(s) =>
        HeadOfKey(key);
        SmallBranch(s, d, values);
        SmallPlace(s[key[0]], key[1..], v, d - 1, values);
        SmallBranch(s[key[0] := Place(s[key[0]], key[1..], Word(v, false))], d, values);
      case _ =>
    }
  }

  lemma {:induction false} SmallInPath(k: seq<int>, c: Tree, key: seq<int>, v: Bytes, d: int, values: set<Bytes>)
    requires IsTerminated(key) && Formed(Path(k, c)) && k != key
    requires |k| <= d && SmallTree(c, d - |k|, values) && |key| <= d && v in values
    ensures SmallTree(Place(Path(k, c), key, Word(v, false)), d, values)
    decreases |key|, 0
  {
    var m := MatchLength(key, k);
    PathsPart(key, k);
    if m == |k| {
      SmallMatched(k, c, key, v, m, d, values);
    } else {
      SmallSplit(k, c, key, v, m, d, values);
    }
  }

  lemma {:induction false} SmallMatched(k: seq<int>, c: Tree, key: seq<int>, v: Bytes, m: nat, d: int,
                                        values: set<Bytes>)
    requires IsTerminated(key) && Formed(Path(k, c)) && k != key && m == |k| < |key| <= d && k == key[..m]
    requires SmallTree(c, d - m, values) && v in values
    ensures !IsTerminated(k) && IsTerminated(key[m..])
    ensures SmallTree(Onto(key[..m], Place(c, key[m..], Word(v, false))), d, values)
    decreases |key| - m, 2
  {
    PathInKey(k, key);
    SmallPlace(c, key[m..], v, d - m, values);
    SmallBelow(key, m, Place(c, key[m..], Word(v, false)), d, values);
  }

  lemma SmallChild(k: seq<int>, c: Tree, d: int, values: set<Bytes>)
    requires SmallTree(Path(k, c), d, values)
    ensures 1 <= |k| <= d && SmallTree(c, d - |k|, values)
  {}

  lemma SmallBelow(key: seq<int>, m: nat, x: Tree, d: int, values: set<Bytes>)
    requires IsPath(key) && m <= |key| <= d && SmallTree(x, d - m, values)
    ensures SmallTree(Onto(key[..m], x), d, values)
  {
    PartNibbles(key, m);
    SmallOnto(key[..m], x, d, values);
  }

  lemma SmallSplit(k: seq<int>, c: Tree, key: seq<int>, v: Bytes, m: nat, d: int, values: set<Bytes>)
    requires IsPath(k) && IsTerminated(key) && m < |k| && m < |key| && k[m] != key[m]
    requires |k| <= d && SmallTree(c, d - |k|, values) && |key| <= d && v in values
    ensures SmallTree(Onto(key[..m], Branch(Forks(k, c, key, Word(v, false), m))), d, values)
  {
    var b := Branch(Forks(k, c, key, Word(v, false), m));
    assert SmallTree(Word(v, false), d - |key|, values);
    SmallForks(k, c, key, Word(v, false), m, d - m, values);
    SmallBelow(key, m, b, d, values);
  }

  lemma SmallRejoined(k: seq<int>, x: Tree, d: int, values: set<Bytes>)
    requires Nibbles(k) && 1 <= |k| <= d && SmallTree(x, d - |k|, values)
    ensures SmallTree(Rejoined(k, x), d, values)
  {}

  lemma SmallCut(c: Tree, d: int, values: set<Bytes>, inline: Node -> bool)
    requires SmallTree(c, d, values)
    ensures SmallTree(Cut(c, inline), d, values)
  {}

  lemma SmallOneLeft(a: int, x: Tree, d: int, values: set<Bytes>, inline: Node -> bool)
    requires 0 <= a < 16 && d >= 1 && SmallTree(x, d - 1, values)
    ensures SmallTree(OneLeft(a, x, inline), d, values)
  {
    if x.Path? {
      SmallChild(x.key, x.child, d - 1, values);
      SmallCut(x.child, d - 1 - |x.key|, values, inline);
    }
  }

  lemma SmallShrunk(s: seq<Tree>, d: int, values: set<Bytes>, inline: Node -> bool)
    requires |s| == 17 && d >= 1 && forall i :: 0 <= i < 17 ==> SmallTree(s[i], d - 1, values)
    ensures SmallTree(Shrunk(s, inline), d, values)
  {
    SmallBranch(s, d, values);
    var a := Counted(s, 17);
    if 0 <= a < 16 {
      SmallOneLeft(a, s[a], d, values, inline);
    }
  }

  lemma {:induction false} SmallRemove(t: Tree, key: seq<int>, d: int, values: set<Bytes>, inline: Node -> bool)
    requires key == [] || (IsTerminated(key) && Formed(t))
    requires SmallTree(t, d, values)
    ensures SmallTree(Remove(t, key, inline), d, values)
    decreases |key|, 1
  {
    if key != [] {
      match t
      case Path(k, c) => SmallOffPath(k, c, key, d, values, inline);
      case Branch(s) => SmallOffBranch(s, key, d, values, inline);
      case _ =>
    }
  }

  lemma {:induction false} SmallOffPath(k: seq<int>, c: Tree, key: seq<int>, d: int, values: set<Bytes>,
                                        inline: Node -> bool)
    requires IsTerminated(key) && Formed(Path(k, c)) && SmallTree(Path(k, c), d, values)
    ensures SmallTree(Remove(Path(k, c), key, inline), d, values)
    decreases |key|, 0
  {
    if k != key && k <= key {
      PathInKey(k, key);
      SmallChild(k, c, d, values);
      PathNibbles(k);
      SmallRemove(c, key[|k|..], d - |k|, values, inline);
      SmallRejoined(k, Remove(c, key[|k|..], inline), d, values);
    }
  }

  lemma {:induction false} SmallOffBranch(s: seq<Tree>, key: seq<int>, d: int, values: set<Bytes>,
                                          inline: Node -> bool)
    requires IsTerminated(key) && Formed(Branch(s)) && SmallTree(Branch(s), d, values)
    ensures SmallTree(Remove(Branch(s), key, inline), d, values)
    decreases |key|, 0
  {
    HeadOfKey(key);
    SmallSlot(s, key[0], d, values);
    SmallRemove(s[key[0]], key[1..], d - 1, values, inline);
    SmallChanged(s, key[0], Remove(s[key[0]], key[1..], inline), d, values, inline);
  }

  lemma SmallChanged(s: seq<Tree>, i: nat, x: Tree, d: int, values: set<Bytes>, inline: Node -> bool)
    requires SmallTree(Branch(s), d, values) && |s| == 17 && i < 17 && SmallTree(x, d - 1, values)
    ensures SmallTree(Shrunk(s[i := x], inline), d, values)
  {
    SmallBranch(s, d, values);
    SmallShrunk(s[i := x], d, values, inline);
  }

  // ---------- The assumption can be met ----------

  /** What the nodes are written as. */
  ghost function Items(nodes: set<Node>, h: Hash): set<Item> {
    set n | n in nodes && Inner(n) && Keyed(n) :: NodeItem(n, h)
  }

  lemma {:induction false} SmallKnown(n: Node, e: int, d: nat, values: set<Bytes>, nodes: set<Node>, h: Hash)
    requires Small(n, e, values) && e <= d && Keyed(n) && Covers(nodes, d, values)
    ensures Known(n, Items(nodes, h), h)
    decreases n
  {
    SmallGrows(n, e, d, values);
    match n
    case Short(k, c) => SmallKnown(c, e - |k|, d, values, nodes, h);
    case Full(s) =>
      forall i | 0 <= i < |s| ensures Known(s[i], Items(nodes, h), h) {
        SmallKnown(s[i], e - 1, d, values, nodes, h);
      }
    case _ =>
  }

  /** All small trees are known. */
  ghost predicate AllKnown(d: int, values: set<Bytes>, known: set<Item>, h: Hash) {
    forall t, e {:trigger SmallTree(t, e, values), KnownTree(t, known, h)} ::
      (Formed(t) || WordSlot(t)) && SmallTree(t, e, values) && e <= d ==> KnownTree(t, known, h)
  }

  lemma SmallAllKnown(d: nat, values: set<Bytes>, nodes: set<Node>, h: Hash)
    requires Covers(nodes, d, values)
    ensures AllKnown(d, values, Items(nodes, h), h)
  {
    forall t, e | (Formed(t) || WordSlot(t)) && SmallTree(t, e, values) && e <= d
      ensures KnownTree(t, Items(nodes, h), h)
    {
      FormedIsKeyed(t);
      SmallKnown(AsNode(t, true), e, d, values, nodes, h);
    }
  }

  /** What a deletion returns is small. */
  lemma SmallDeleted(t: Tree, key: seq<int>, e: int, values: set<Bytes>, inline: Node -> bool)
    requires IsTerminated(key) && Formed(t) && SmallTree(t, e, values)
    ensures var r := Deleted(t, key, inline).tree; Formed(r) && SmallTree(r, e, values)
  {
    DeletedFits(t, key, inline);
    SmallRemove(t, key, e, values, inline);
  }

  /** And so is everything that it puts. */
  lemma {:induction false} DeletePutsSmall(t: Tree, key: seq<int>, e: int, d: int, values: set<Bytes>,
                                           known: set<Item>, h: Hash)
    requires IsTerminated(key) && Formed(t) && SmallTree(t, e, values) && e <= d && AllKnown(d, values, known, h)
    ensures DeletePutsKnown(t, key, known, h)
    decreases |key|, 1
  {
    DeletedKnown(t, key, e, d, values, known, h);
    match t
    case Path(k, c) =>
      if k != key && k <= key {
        PathInKey(k, key);
        DeletePutsSmall(c, key[|k|..], e - |k|, d, values, known, h);
      }
    case Branch(s) => SlotPutsSmall(s, key, e, d, values, known, h);
    case _ =>
  }

  lemma {:induction false} SlotPutsSmall(s: seq<Tree>, key: seq<int>, e: int, d: int, values: set<Bytes>,
                                         known: set<Item>, h: Hash)
    requires IsTerminated(key) && Formed(Branch(s)) && SmallTree(Branch(s), e, values) && e <= d
    requires AllKnown(d, values, known, h)
    ensures 0 <= key[0] <= 16
    ensures key[0] != 16 ==> IsTerminated(key[1..]) && DeletePutsKnown(s[key[0]], key[1..], known, h)
    decreases |key|, 0
  {
    HeadOfKey(key);
    SmallSlot(s, key[0], e, values);
    if key[0] != 16 {
      DeletePutsSmall(s[key[0]], key[1..], e - 1, d, values, known, h);
    }
  }

  lemma DeletedKnown(t: Tree, key: seq<int>, e: int, d: int, values: set<Bytes>, known: set<Item>, h: Hash)
    requires IsTerminated(key) && Formed(t) && SmallTree(t, e, values) && e <= d && AllKnown(d, values, known, h)
    ensures KnownTree(Deleted(t, key, InlineTest(h)).tree, known, h)
  {
    SmallDeleted(t, key, e, values, InlineTest(h));
  }

  lemma StepSmall(t: Tree, op: Op, d: nat, values: set<Bytes>, known: set<Item>, h: Hash)
    requires Formed(t) && SmallTree(t, d, values) && |KeyPath(op.key)| <= d && op.value in values
    requires AllKnown(d, values, known, h)
    ensures UpdateKnown(t, op, known, h) && SmallTree(StepAsCoded(t, op, InlineTest(h)), d, values)
  {
    var key := KeyPath(op.key);
    if op.value != [] {
      InsertedFits(t, key, Word(op.value, false), InlineTest(h));
      SmallPlace(t, key, op.value, d, values);
      assert SmallTree(Inserted(t, key, Word(op.value, false), InlineTest(h)).tree, d, values);
    } else {
      SmallDeleted(t, key, d, values, InlineTest(h));
      DeletePutsSmall(t, key, d, d, values, known, h);
    }
  }

  /** The longest key. */
  function Depth(ops: seq<Op>): (d: nat)
    ensures forall i :: 0 <= i < |ops| ==> |KeyPath(ops[i].key)| <= d
  {
    if ops == [] then 0 else
      var d, l := Depth(ops[..|ops| - 1]), |KeyPath(ops[|ops| - 1].key)|;
      if d < l then l else d
  }

  function Values(ops: seq<Op>): set<Bytes> {
    set i | 0 <= i < |ops| :: ops[i].value
  }

  /**
   For any updates there are finitely many nodes that no run of them leaves, whatever is read back on the way, and
   finitely many that it can store.
   */
  lemma ClosedExists(ops: seq<Op>, h: Hash) returns (states: set<Node>, known: set<Item>)
    ensures Empty in states && Closed(states, ops, known, h)
  {
    var d, values := Depth(ops), Values(ops);
    var nodes := NodesExist(d, values);
    SmallAllKnown(d, values, nodes, h);
    states := set n | n in nodes && Small(n, d, values);
    known := Items(nodes, h);
    assert Small(Empty, d, values);
    forall t, op | op in ops ensures StaysIn(t, op, states, known, h) {
      if Formed(t) && AsNode(t, true) in states {
        StepSmall(t, op, d, values, known, h);
      }
    }
  }
}
