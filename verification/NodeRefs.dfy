/**
 How the trie's nodes are written down: a node is an RLP item, and a reference to it is the item
 itself when its encoding is shorter than 32 bytes, else the hash of the encoding
 (Cache.Put, trie.go:46-60; Appendix D of the Ethereum Yellow Paper).
 */
module NodeRefs {
  import opened ByteStrings
  import opened HexPrefix
  import opened Rlp
  import opened GoValues
  import opened Slices
  import opened PatriciaTree
  import opened TrieTheorems
  import opened CodedTree
  import opened CodedRight
  import opened Reading
  import opened SharedNodes
  import opened SharedAnswers
  import opened CodedRuns

  /** The hash, Sha3Bin, is not interpreted. */
  type Hash = Bytes -> Bytes

  ghost predicate HashWidth(h: Hash) {
    forall e :: |h(e)| == 32
  }

  /** What Put returns. */
  function PutRef(item: Item, h: Hash): Item {
    if |Encoded(item)| >= 32 then Str(h(Encoded(item))) else item
  }

  /** Every path in `t` is one. */
  predicate Keyed(t: Node) {
    match t
    case Short(k, c) => IsPath(k) && Keyed(c)
    case Full(s) => forall i :: 0 <= i < |s| ==> Keyed(s[i])
    case _ => true
  }

  /** A reference to a node, as slots and roots hold it. */
  function Ref(t: Node, h: Hash): Item
    requires Keyed(t)
    decreases t, 1
  {
    match t
    case Empty => Str([])
    case Value(v) => Str(v)
    case _ => PutRef(NodeItem(t, h), h)
  }

  /** The two or seventeen slots of a node. */
  function NodeItem(t: Node, h: Hash): Item
    requires Inner(t) && Keyed(t)
    decreases t, 0
  {
    match t
    case Short(k, c) => List([Str(Compact(k)), Ref(c, h)])
    case Full(s) => List(SlotRefs(s, h))
  }

  function SlotRefs(s: seq<Node>, h: Hash): (r: seq<Item>)
    requires forall i :: 0 <= i < |s| ==> Keyed(s[i])
    ensures |r| == |s| && forall i :: 0 <= i < |s| ==> r[i] == Ref(s[i], h)
    decreases s, 0
  {
    if s == [] then [] else [Ref(s[0], h)] + SlotRefs(s[1..], h)
  }

  /** The nodes kept inside their parents. */
  predicate Inline(t: Node, h: Hash) {
    Inner(t) && Keyed(t) && |Encoded(NodeItem(t, h))| < 32
  }

  function InlineTest(h: Hash): Node -> bool {
    (n: Node) => Inline(n, h)
  }

  lemma {:induction false} ShapedIsKeyed(t: Node)
    requires Shaped(t)
    ensures Keyed(t)
    decreases t
  {
    match t
    case Short(k, c) =>
      if !IsTerminated(k) {
        ShapedIsKeyed(c);
      }
    case Full(s) =>
      forall i | 0 <= i < 17 ensures Keyed(s[i]) {
        if i < 16 {
          ShapedIsKeyed(s[i]);
        }
      }
    case _ =>
  }

  lemma {:induction false} FormedIsKeyed(t: Tree)
    requires Formed(t) || WordSlot(t)
    ensures Keyed(AsNode(t, true))
    decreases t
  {
    match t
    case Path(k, c) => FormedIsKeyed(c);
    case Branch(s) =>
      forall i | 0 <= i < 17 ensures Keyed(AsNode(s[i], true)) {
        FormedIsKeyed(s[i]);
      }
    case Lost(u) => FormedIsKeyed(u);
    case _ =>
  }

  // ---------- Known items ----------

  /**
   The assumption on the hash, for the finite set of items a run stores: their encodings do not collide,
   and reading and writing each of them gives it back.
   */
  ghost predicate NoCollisions(known: set<Item>, h: Hash) {
    && HashWidth(h)
    && (forall x, y :: x in known && y in known && h(Encoded(x)) == h(Encoded(y)) ==> Encoded(x) == Encoded(y))
    && (forall x :: x in known ==> ReadsBack(x) && |Encoded(x)| < MAX_LENGTH && NoZeroByte(x))
  }

  /** Every node in `t` that is stored by hash is one of the known items. */
  ghost predicate Known(t: Node, known: set<Item>, h: Hash)
    requires Keyed(t)
    decreases t
  {
    match t
    case Empty => true
    case Value(_) => true
    case Short(_, c) => (!Inline(t, h) ==> NodeItem(t, h) in known) && Known(c, known, h)
    case Full(s) => (!Inline(t, h) ==> NodeItem(t, h) in known) && forall i :: 0 <= i < |s| ==> Known(s[i], known, h)
  }

  /** Known items with one hash are the same item. */
  lemma SameHashSameItem(x: Item, y: Item, known: set<Item>, h: Hash)
    requires NoCollisions(known, h) && x in known && y in known && h(Encoded(x)) == h(Encoded(y))
    ensures x == y
  {
    PrefixFree(x, y);
  }

  // ---------- Nodes without a zero byte ----------

  /** No value in `t` is a single zero byte. */
  predicate NoZeroValue(t: Node) {
    match t
    case Empty => true
    case Value(v) => v != ZERO
    case Short(_, c) => NoZeroValue(c)
    case Full(s) => forall i :: 0 <= i < |s| ==> NoZeroValue(s[i])
  }

  lemma CompactNotZero(k: seq<int>)
    requires IsPath(k)
    ensures Compact(k) != ZERO
  {
    ExpandInvertsCompact(k);
    assert UnpackPairs(ZERO[1..]) == [];
    assert UnpackPairs(ZERO) == [0, 0];
  }

  /** Then all its nodes are written without one. */
  lemma {:induction false} NoZeroNodes(t: Node, h: Hash)
    requires Keyed(t) && HashWidth(h) && NoZeroValue(t)
    ensures NoZeroByte(Ref(t, h)) && (Inner(t) ==> NoZeroByte(NodeItem(t, h)))
    decreases t
  {
    match t
    case Short(k, c) =>
      CompactNotZero(k);
      NoZeroNodes(c, h);
    case Full(s) =>
      forall i | 0 <= i < |s| ensures NoZeroByte(Ref(s[i], h)) {
        NoZeroNodes(s[i], h);
      }
    case _ =>
  }

  predicate NoZeroWord(t: Tree) {
    match t
    case Word(v, _) => v != ZERO
    case Path(_, c) => NoZeroWord(c)
    case Branch(s) => forall i :: 0 <= i < |s| ==> NoZeroWord(s[i])
    case Lost(u) => NoZeroWord(u)
    case _ => true
  }

  lemma {:induction false} NoZeroWritten(t: Tree)
    ensures NoZeroWord(t) <==> NoZeroValue(AsNode(t, true))
    decreases t
  {
    match t
    case Path(_, c) => NoZeroWritten(c);
    case Branch(s) =>
      forall i | 0 <= i < |s| ensures NoZeroWord(s[i]) <==> NoZeroValue(AsNodes(s, true)[i]) {
        NoZeroWritten(s[i]);
      }
    case Lost(u) => NoZeroWritten(u);
    case _ =>
  }

  lemma NoZeroForks(k: seq<int>, c: Tree, key: seq<int>, val: Tree, m: nat)
    requires IsPath(k) && IsTerminated(key) && m < |k| && m < |key| && NoZeroWord(c) && NoZeroWord(val)
    ensures NoZeroWord(Branch(Forks(k, c, key, val, m)))
  {
    PathBounds(k, m);
    PathBounds(key, m);
    var s := Forks(k, c, key, val, m);
    forall i | 0 <= i < 17 ensures NoZeroWord(s[i]) {
      assert s[i] == if i == key[m] then Onto(key[m + 1..], val)
                     else if i == k[m] then Onto(k[m + 1..], c) else Blank(true);
    }
  }

  lemma {:induction false} NoZeroPlace(t: Tree, key: seq<int>, val: Tree)
    requires key == [] || (IsTerminated(key) && Formed(t))
    requires NoZeroWord(t) && NoZeroWord(val)
    ensures NoZeroWord(Place(t, key, val))
    decreases |key|
  {
    if key != [] {
      match t
      case Path(k, c) =>
        if k != key {
          var m := MatchLength(key, k);
          PathsPart(key, k);
          if m == |k| {
            assert k == key[..m];
            PathInKey(k, key);
            NoZeroPlace(c, key[m..], val);
          } else {
            NoZeroForks(k, c, key, val, m);
          }
        }
      case Branch(s) =>
        HeadOfKey(key);
        NoZeroPlace(s[key[0]], key[1..], val);
      case _ =>
    }
  }

  lemma NoZeroShrunk(s: seq<Tree>, inline: Node -> bool)
    requires |s| == 17 && NoZeroWord(Branch(s))
    ensures NoZeroWord(Shrunk(s, inline))
  {
    var a := Counted(s, 17);
    assert a >= 0 ==> NoZeroWord(s[a]);
  }

  lemma {:induction false} NoZeroRemove(t: Tree, key: seq<int>, inline: Node -> bool)
    requires key == [] || (IsTerminated(key) && Formed(t))
    requires NoZeroWord(t)
    ensures NoZeroWord(Remove(t, key, inline))
    decreases |key|
  {
    if key != [] {
      match t
      case Path(k, c) =>
        if k != key && k <= key {
          PathInKey(k, key);
          NoZeroRemove(c, key[|k|..], inline);
        }
      case Branch(s) =>
        HeadOfKey(key);
        NoZeroRemove(s[key[0]], key[1..], inline);
        NoZeroShrunk(s[key[0] := Remove(s[key[0]], key[1..], inline)], inline);
      case _ =>
    }
  }

  lemma NoZeroStep(t: Tree, op: Op, inline: Node -> bool)
    requires Formed(t) && NoZeroWord(t) && op.value != ZERO
    ensures NoZeroWord(StepAsCoded(t, op, inline))
  {
    var key := KeyPath(op.key);
    if op.value != [] {
      InsertedFits(t, key, Word(op.value, false), inline);
      NoZeroPlace(t, key, Word(op.value, false));
      NoZeroWritten(Place(t, key, Word(op.value, false)));
    } else {
      DeletedFits(t, key, inline);
      NoZeroRemove(t, key, inline);
      NoZeroWritten(Remove(t, key, inline));
    }
    NoZeroWritten(StepAsCoded(t, op, inline));
  }

  lemma NoZeroHappened(t: Tree, e: Event, inline: Node -> bool)
    requires Formed(t) && NoZeroWord(t) && (e.Do? ==> e.op.value != ZERO)
    ensures NoZeroWord(Happened(t, e, inline))
  {
    if e.Do? {
      NoZeroStep(t, e.op, inline);
    } else {
      ReloadKeepsWritten(t);
      RefetchFormed(t, inline);
      NoZeroWritten(t);
      NoZeroWritten(Happened(t, e, inline));
    }
  }

  lemma {:induction false} NoZeroPlayed(events: seq<Event>, inline: Node -> bool)
    requires forall e :: e in events && e.Do? ==> e.op.value != ZERO
    ensures NoZeroWord(Played(events, inline))
  {
    if events != [] {
      var front := events[..|events| - 1];
      assert forall e :: e in front ==> e in events;
      NoZeroPlayed(front, inline);
      NoZeroHappened(Played(front, inline), events[|events| - 1], inline);
    }
  }

  /** Runs that never write the single zero byte store no node that reading and writing again would change. */
  lemma NoZeroRoot(events: seq<Event>, h: Hash)
    requires HashWidth(h) && forall e :: e in events && e.Do? ==> e.op.value != ZERO
    ensures NoZeroByte(RootOf(events, h)) && NoZeroValue(AsNode(Played(events, InlineTest(h)), true))
  {
    var t := Played(events, InlineTest(h));
    NoZeroPlayed(events, InlineTest(h));
    NoZeroWritten(t);
    FormedIsKeyed(t);
    NoZeroNodes(AsNode(t, true), h);
  }

  // ---------- Comparing roots ----------

  /** What is written: a shape, in which a branch without slots stands for a hole. */
  predicate Layout(n: Node) {
    match n
    case Empty => true
    case Value(_) => false
    case Short(k, c) => IsPath(k) && if IsTerminated(k) then ValueSlot(c) else Layout(c)
    case Full(s) => s == [] || (|s| == 17 && ValueSlot(s[16]) && forall i :: 0 <= i < 16 ==> Layout(s[i]))
  }

  lemma {:induction false} ShapedLayout(n: Node)
    requires Shaped(n)
    ensures Layout(n)
    decreases n
  {
    match n
    case Short(k, c) =>
      if !IsTerminated(k) {
        ShapedLayout(c);
      }
    case Full(s) =>
      forall i | 0 <= i < 16 ensures Layout(s[i]) {
        ShapedLayout(s[i]);
      }
    case _ =>
  }

  lemma {:induction false} FormedLayout(t: Tree)
    requires Formed(t)
    ensures Layout(AsNode(t, true))
    decreases t
  {
    match t
    case Path(k, c) =>
      if !IsTerminated(k) {
        FormedLayout(c);
      }
    case Branch(s) =>
      forall i | 0 <= i < 16 ensures Layout(AsNode(s[i], true)) {
        FormedLayout(s[i]);
      }
    case Lost(u) => FormedLayout(u);
    case _ =>
  }

  /** Under a hash without collisions on the stored nodes, equal references are references to equal trees. */
  lemma {:induction false} RefInjective(a: Node, b: Node, known: set<Item>, h: Hash)
    requires Layout(a) && Layout(b) && Keyed(a) && Keyed(b)
    requires NoCollisions(known, h) && Known(a, known, h) && Known(b, known, h)
    requires Ref(a, h) == Ref(b, h)
    ensures a == b
    decreases a, 1
  {
    if !a.Empty? && !b.Empty? {
      if Inline(a, h) {
        assert NodeItem(a, h) == NodeItem(b, h);
      } else {
        SameHashSameItem(NodeItem(a, h), NodeItem(b, h), known, h);
      }
      NodeItemInjective(a, b, known, h);
    }
  }

  lemma {:induction false} NodeItemInjective(a: Node, b: Node, known: set<Item>, h: Hash)
    requires Inner(a) && Inner(b) && Layout(a) && Layout(b) && Keyed(a) && Keyed(b)
    requires NoCollisions(known, h) && Known(a, known, h) && Known(b, known, h)
    requires NodeItem(a, h) == NodeItem(b, h)
    ensures a == b
    decreases a, 0
  {
    assert |NodeItem(a, h).items| == |NodeItem(b, h).items|;
    if a.Short? {
      SameShort(a, b, h);
      if !IsTerminated(a.key) {
        RefInjective(a.child, b.child, known, h);
      }
    } else {
      forall i | 0 <= i < |a.slots| ensures a.slots[i] == b.slots[i] {
        SameSlot(a.slots, b.slots, i, h);
        if i < 16 {
          RefInjective(a.slots[i], b.slots[i], known, h);
        }
      }
    }
  }

  lemma SameShort(a: Node, b: Node, h: Hash)
    requires a.Short? && b.Short? && Keyed(a) && Keyed(b) && NodeItem(a, h) == NodeItem(b, h)
    ensures a.key == b.key && Ref(a.child, h) == Ref(b.child, h)
  {
    var x, y := NodeItem(a, h).items, NodeItem(b, h).items;
    assert x[0] == y[0] && x[1] == y[1];
    CompactInjective(a.key, b.key);
  }

  lemma SameSlot(a: seq<Node>, b: seq<Node>, i: int, h: Hash)
    requires Keyed(Full(a)) && Keyed(Full(b)) && NodeItem(Full(a), h) == NodeItem(Full(b), h)
    requires 0 <= i < |a| && i < |b|
    ensures Ref(a[i], h) == Ref(b[i], h)
  {
    assert SlotRefs(a, h) == SlotRefs(b, h);
    assert SlotRefs(a, h)[i] == SlotRefs(b, h)[i];
  }

  /** The root that a run leaves. */
  function RootOf(events: seq<Event>, h: Hash): Item {
    FormedIsKeyed(Played(events, InlineTest(h)));
    Ref(AsNode(Played(events, InlineTest(h)), true), h)
  }

  /** The root for a content, whatever its history. */
  function IntendedRoot(ops: seq<Op>, h: Hash): Item {
    ShapedIsKeyed(Run(ops));
    Ref(Run(ops), h)
  }

  ghost predicate RunStoresKnown(events: seq<Event>, known: set<Item>, h: Hash) {
    FormedIsKeyed(Played(events, InlineTest(h)));
    Known(AsNode(Played(events, InlineTest(h)), true), known, h)
  }

  /**
   Cmp: the roots two runs end with are equal exactly when the runs leave the same content. Blocks are
   accepted by comparing roots (ethchain/state_manager.go:249).
   */
  lemma RootsCompareContents(a: seq<Event>, b: seq<Event>, known: set<Item>, h: Hash)
    requires Steady(a, InlineTest(h)) && Steady(b, InlineTest(h))
    requires NoCollisions(known, h) && RunStoresKnown(a, known, h) && RunStoresKnown(b, known, h)
    ensures RootOf(a, h) == RootOf(b, h) <==> Contents(Updates(a)) == Contents(Updates(b))
  {
    RunRightExactly(a, InlineTest(h));
    RunRightExactly(b, InlineTest(h));
    var ta, tb := Run(Updates(a)), Run(Updates(b));
    ShapedIsKeyed(ta);
    ShapedIsKeyed(tb);
    HistoryIndependence(Updates(a), Updates(b));
    ShapedLayout(ta);
    ShapedLayout(tb);
    if Ref(ta, h) == Ref(tb, h) {
      RefInjective(ta, tb, known, h);
    }
  }

  /** Two known trees have one root exactly when they are one tree. */
  lemma RefsCompareTrees(a: Node, b: Node, known: set<Item>, h: Hash)
    requires Layout(a) && Layout(b) && Keyed(a) && Keyed(b)
    requires NoCollisions(known, h) && Known(a, known, h) && Known(b, known, h)
    ensures Ref(a, h) == Ref(b, h) <==> a == b
  {
    if Ref(a, h) == Ref(b, h) {
      RefInjective(a, b, known, h);
    }
  }

  lemma DeletedRight(t: Tree, ops: seq<Op>, key: seq<int>, inline: Node -> bool)
    requires Formed(t) && Right(t, ops) && IsTerminated(key)
    ensures var r := Deleted(t, key, inline).tree;
            Formed(r) && (AsNode(r, true) == Delete(Run(ops), key) <==> LeavesRight(t, key, inline))
  {
    RightIsClear(t, ops);
    DeletionRight(t, key, inline);
    DeletedFits(t, key, inline);
  }

  /** After such a run a deletion leaves the root for the content exactly when it leaves the intended tree. */
  lemma DeletedRootRight(t: Tree, ops: seq<Op>, key: seq<int>, y: Node, known: set<Item>, h: Hash)
    requires Formed(t) && Right(t, ops) && IsTerminated(key) && NoCollisions(known, h)
    requires y == Delete(Run(ops), key) && Keyed(y) && Known(y, known, h)
    requires var r := AsNode(Deleted(t, key, InlineTest(h)).tree, true); Keyed(r) && Known(r, known, h)
    ensures Ref(AsNode(Deleted(t, key, InlineTest(h)).tree, true), h) == Ref(y, h)
       <==> LeavesRight(t, key, InlineTest(h))
  {
    DeletedRight(t, ops, key, InlineTest(h));
    DeleteShaped(Run(ops), key);
    ShapedLayout(y);
    FormedLayout(Deleted(t, key, InlineTest(h)).tree);
    RefsCompareTrees(AsNode(Deleted(t, key, InlineTest(h)).tree, true), y, known, h);
  }

  // ---------- Long values ----------

  /** Every value in `t` has at least 32 bytes, as account records have. */
  predicate LongValues(t: Node) {
    match t
    case Empty => true
    case Value(v) => |v| >= 32
    case Short(_, c) => LongValues(c)
    case Full(s) => forall i :: 0 <= i < |s| ==> LongValues(s[i])
  }

  lemma {:induction false} ElementShorter(xs: seq<Item>, i: nat)
    requires i < |xs|
    ensures |Encoded(xs[i])| <= |EncodedAll(xs)| < |Encoded(List(xs))|
  {
    if i > 0 {
      ElementShorter(xs[1..], i - 1);
    }
  }

  /** Above long values every node is stored by hash. */
  lemma {:induction false} LongIsNotInline(t: Node, h: Hash)
    requires Sub(t) && Keyed(t) && LongValues(t) && HashWidth(h)
    ensures !Inline(t, h)
    decreases t, 0
  {
    match t
    case Short(k, c) =>
      LongRef(c, h);
      ElementShorter(NodeItem(t, h).items, 1);
    case Full(s) =>
      var i, j :| 0 <= i < j < 17 && Occupied(s, i) && Occupied(s, j);
      LongRef(s[i], h);
      ElementShorter(SlotRefs(s, h), i);
  }

  lemma {:induction false} LongRef(t: Node, h: Hash)
    requires (t.Value? || Sub(t)) && Keyed(t) && LongValues(t) && HashWidth(h)
    ensures |Encoded(Ref(t, h))| >= 32
    decreases t, 1
  {
    if Inner(t) {
      LongIsNotInline(t, h);
    }
  }

  lemma LongForked(k: seq<int>, c: Node, key: seq<int>, v: Bytes, m: nat)
    requires IsPath(k) && IsTerminated(key) && m < |k| && m < |key| && LongValues(c) && |v| >= 32
    ensures LongValues(Full(Forked(k, c, key, Value(v), m)))
  {
    PathBounds(k, m);
    PathBounds(key, m);
    var s := Forked(k, c, key, Value(v), m);
    forall i | 0 <= i < 17 ensures LongValues(s[i]) {
      assert s[i] == if i == key[m] then Attach(key[m + 1..], Value(v))
                     else if i == k[m] then Attach(k[m + 1..], c) else Empty;
    }
  }

  lemma {:induction false} LongInsert(t: Node, key: seq<int>, v: Bytes)
    requires IsTerminated(key) && Shaped(t) && LongValues(t) && |v| >= 32
    ensures LongValues(Insert(t, key, Value(v)))
    decreases |key|
  {
    match t
    case Short(k, c) =>
      if k != key {
        var m := MatchLength(key, k);
        PathsPart(key, k);
        if m == |k| {
          assert k == key[..m];
          PathInKey(k, key);
          LongInsert(c, key[m..], v);
        } else {
          LongForked(k, c, key, v, m);
        }
      }
    case Full(s) =>
      HeadOfKey(key);
      if key[0] != 16 {
        LongInsert(s[key[0]], key[1..], v);
      }
    case _ =>
  }

  lemma {:induction false} LongDelete(t: Node, key: seq<int>)
    requires key == [] || (IsTerminated(key) && Shaped(t))
    requires LongValues(t)
    ensures LongValues(Delete(t, key))
    decreases |key|
  {
    if key != [] {
      match t
      case Short(k, c) =>
        if k != key && k <= key {
          PathInKey(k, key);
          LongDelete(c, key[|k|..]);
        }
      case Full(s) =>
        HeadOfKey(key);
        LongDelete(s[key[0]], key[1..]);
        LongCollapsed(s[key[0] := Delete(s[key[0]], key[1..])]);
      case _ =>
    }
  }

  lemma LongCollapsed(s: seq<Node>)
    requires |s| == 17 && LongValues(Full(s))
    ensures LongValues(Collapsed(s))
  {
    var a := Amount(s, 17);
    assert a >= 0 ==> LongValues(s[a]);
  }

  /** Runs that write only values of 32 bytes or more have long values. */
  lemma {:induction false} LongRun(ops: seq<Op>)
    requires forall i :: 0 <= i < |ops| ==> ops[i].value == [] || |ops[i].value| >= 32
    ensures LongValues(Run(ops))
  {
    if ops != [] {
      var front, op := ops[..|ops| - 1], ops[|ops| - 1];
      LongRun(front);
      if op.value == [] {
        LongDelete(Run(front), KeyPath(op.key));
      } else {
        LongInsert(Run(front), KeyPath(op.key), op.value);
      }
    }
  }

  /** No deletion above long values meets an inline grandchild. */
  lemma {:induction false} LongMeetsStored(t: Tree, key: seq<int>, h: Hash)
    requires IsTerminated(key) && Formed(t) && Clear(t) && Canonical(AsNode(t, true)) && LongValues(AsNode(t, true))
    requires HashWidth(h)
    ensures !Reaches(t, key, InlineTest(h), InlineNode(InlineTest(h)))
    decreases |key|
  {
    match t
    case Path(k, c) =>
      if k != key && k <= key {
        PathInKey(k, key);
        LongMeetsStored(c, key[|k|..], h);
      }
    case Branch(s) =>
      HeadOfKey(key);
      ClearSlots(s);
      CanonicalSlots(s);
      var d := Remove(s[key[0]], key[1..], InlineTest(h));
      if key[0] != 16 {
        LongSlot(s, key[0]);
        LongMeetsStored(s[key[0]], key[1..], h);
        RemoveRight(s[key[0]], key[1..], InlineTest(h));
      }
      LongLeftOver(s, key[0], d, h);
    case _ =>
  }

  lemma LongSlot(s: seq<Tree>, i: nat)
    requires |s| == 17 && i < 17 && LongValues(AsNode(Branch(s), true))
    ensures LongValues(AsNode(s[i], true))
    ensures Sub(AsNode(Branch(s), true)) && i < 16 ==> Canonical(AsNode(s[i], true))
  {
    assert AsNodes(s, true)[i] == AsNode(s[i], true);
  }

  /** Whatever is left in the slot: either it is occupied, so the branch stays, or another slot is met. */
  lemma LongLeftOver(s: seq<Tree>, i: nat, d: Tree, h: Hash)
    requires Formed(Branch(s)) && Clear(Branch(s)) && Sub(AsNode(Branch(s), true))
    requires LongValues(AsNode(Branch(s), true))
    requires i < 17 && (d == Blank(true) || IsNode(d)) && HashWidth(h)
    ensures !ReachedAt(s[i := d], InlineNode(InlineTest(h)))
  {
    var s' := s[i := d];
    var a := Counted(s', 17);
    if IsNode(d) {
      BranchStays(s, i, d, Full([]), InlineTest(h));
    } else if 0 <= a < 16 && s'[a].Path? && IsNode(s'[a].child) {
      LongSlot(s, a);
      LongGrandchild(s[a], h);
    }
  }

  lemma LongGrandchild(x: Tree, h: Hash)
    requires x.Path? && IsNode(x.child) && Canonical(AsNode(x, true)) && LongValues(AsNode(x, true)) && HashWidth(h)
    ensures !Inline(AsNode(x.child, true), h)
  {
    if Inline(AsNode(x.child, true), h) {
      LongIsNotInline(AsNode(x.child, true), h);
    }
  }

  /**
   With values of 32 bytes or more, deletions lose nothing for good by themselves: the bytes are right exactly when
   no branch is left stale, and then a trie that is opened again on the root shows the content. Until then it does
   exactly when no node was met at line 410.
   */
  lemma LongValuesReturn(t: Tree, ops: seq<Op>, key: Bytes, h: Hash)
    requires Formed(t) && Right(t, ops) && LongValues(Run(ops)) && HashWidth(h)
    ensures var inline, k := InlineTest(h), KeyPath(key);
            var r := Deleted(t, k, inline).tree;
            && (AsNode(r, true) == Delete(Run(ops), k) <==> !Stale(t, k, inline))
            && (!Stale(t, k, inline) ==> (Unhidden(r) <==> !Reaches(t, k, inline, BearingNode())))
            && (!Stale(t, k, inline) ==> Unhidden(Reload(r)) && AsNode(Reload(r), true) == Delete(Run(ops), k))
  {
    var inline, k := InlineTest(h), KeyPath(key);
    RightIsClear(t, ops);
    LongMeetsStored(t, k, h);
    DeletedRight(t, ops, k, inline);
    DeletionRightExactly(t, ops, key, inline);
    ReloadFormed(Deleted(t, k, inline).tree);
    SoundUnhidden(Reload(Deleted(t, k, inline).tree));
    ReloadKeepsWritten(Deleted(t, k, inline).tree);
  }
}
