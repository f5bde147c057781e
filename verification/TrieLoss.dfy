/**
 Histories that do to the trie of ethutil/trie.go what no content calls for: keys lost or hidden at line 410, roots that
 tell whether a branch was read back in between, and a value that reading back changes.
 */
module TrieLoss {
  import opened ByteStrings
  import opened HexPrefix
  import opened Slices
  import opened Rlp
  import opened GoValues
  import opened PatriciaTree
  import opened TrieTheorems
  import opened CodedTree
  import opened CodedRight
  import opened Reading
  import opened SharedNodes
  import opened CodedRuns
  import opened NodeRefs
  import opened TrieViews

  // ---------- Tries that were never read back ----------

  /** Every slot is as InsertState makes it: its kind follows from what is written. */
  predicate Fresh(t: Tree) {
    match t
    case Blank(isString) => isString
    case Word(_, low) => !low
    case Path(_, c) => Fresh(c)
    case Branch(s) => forall i :: 0 <= i < |s| ==> Fresh(s[i])
    case _ => false
  }

  predicate AllFresh(xs: seq<Tree>) {
    forall i :: 0 <= i < |xs| ==> Fresh(xs[i])
  }

  lemma {:induction false} FreshSame(a: Tree, b: Tree)
    requires Fresh(a) && Fresh(b) && AsNode(a, true) == AsNode(b, true)
    ensures a == b
    decreases a
  {
    match a
    case Path(_, c) => FreshSame(c, b.child);
    case Branch(s) =>
      forall i | 0 <= i < |s| ensures s[i] == b.slots[i] {
        assert AsNodes(s, true)[i] == AsNodes(b.slots, true)[i];
        FreshSame(s[i], b.slots[i]);
      }
    case _ =>
  }

  /** A put of such a node changes nothing in such a tree. */
  lemma {:induction false} RenewFresh(t: Tree, x: Tree, inline: Node -> bool)
    requires Fresh(t) && Fresh(x)
    ensures Renew(t, x, inline) == t
    decreases t
  {
    if SameStored(t, x, inline) {
      FreshSame(t, x);
    } else {
      match t
      case Path(_, c) => RenewFresh(c, x, inline);
      case Branch(s) =>
        forall i | 0 <= i < |s| ensures Renew(s[i], x, inline) == s[i] {
          RenewFresh(s[i], x, inline);
        }
      case _ =>
    }
  }

  lemma {:induction false} RenewAllFresh(t: Tree, xs: seq<Tree>, inline: Node -> bool)
    requires Fresh(t) && AllFresh(xs)
    ensures RenewAll(t, xs, inline) == t
    decreases |xs|
  {
    if xs != [] {
      RenewAllFresh(t, xs[..|xs| - 1], inline);
      RenewFresh(t, xs[|xs| - 1], inline);
    }
  }

  predicate FreshEffect(r: Effect, t: Tree) {
    r.tree == t && Fresh(t) && AllFresh(r.puts)
  }

  lemma FreshFork(k: seq<int>, c: Tree, key: seq<int>, val: Tree, m: nat, i: nat, inline: Node -> bool)
    requires IsPath(k) && IsTerminated(key) && m < |k| && m < |key| && k[m] != key[m] && Fresh(c) && Fresh(val)
    requires i < 17
    ensures var s := Forks(k, c, key, val, m); Fresh(s[i]) && ForksSeen(k, c, key, val, m, inline)[i] == s[i]
  {
    ForkSlot(k, c, key, val, m, i, inline);
    if i == k[m] {
      RenewAllFresh(Onto(k[m + 1..], c), New(key[m + 1..], val).puts, inline);
    }
  }

  lemma FreshForks(k: seq<int>, c: Tree, key: seq<int>, val: Tree, m: nat, inline: Node -> bool)
    requires IsPath(k) && IsTerminated(key) && m < |k| && m < |key| && k[m] != key[m] && Fresh(c) && Fresh(val)
    ensures FreshEffect(ForksPut(k, c, key, val, m, inline), Branch(Forks(k, c, key, val, m)))
  {
    var s, r := Forks(k, c, key, val, m), ForksSeen(k, c, key, val, m, inline);
    forall i | 0 <= i < 17 ensures Fresh(s[i]) && r[i] == s[i] {
      FreshFork(k, c, key, val, m, i, inline);
    }
    assert r == s;
  }

  /** On such a tree InsertState leaves exactly what Place says. */
  lemma {:induction false} InsertedFresh(t: Tree, key: seq<int>, val: Tree, inline: Node -> bool)
    requires key == [] || (IsTerminated(key) && Formed(t))
    requires Fresh(t) && Fresh(val)
    ensures FreshEffect(Inserted(t, key, val, inline), Place(t, key, val))
    decreases |key|, 1
  {
    if key != [] {
      match t
      case Path(k, c) =>
        if k != key {
          FreshInPath(k, c, key, val, inline);
        }
      case Branch(s) =>
        HeadOfKey(key);
        InsertedFresh(s[key[0]], key[1..], val, inline);
        FreshSlots(s, Inserted(s[key[0]], key[1..], val, inline).puts, inline);
      case _ =>
    }
  }

  lemma {:induction false} FreshInPath(k: seq<int>, c: Tree, key: seq<int>, val: Tree, inline: Node -> bool)
    requires IsTerminated(key) && Formed(Path(k, c)) && Fresh(c) && Fresh(val) && k != key
    ensures FreshEffect(Inserted(Path(k, c), key, val, inline), Place(Path(k, c), key, val))
    decreases |key|, 0
  {
    var m := MatchLength(key, k);
    PathsPart(key, k);
    if m == |k| {
      assert k == key[..m];
      PathInKey(k, key);
      InsertedFresh(c, key[m..], val, inline);
    } else {
      FreshForks(k, c, key, val, m, inline);
    }
  }

  lemma FreshSlots(s: seq<Tree>, xs: seq<Tree>, inline: Node -> bool)
    requires Fresh(Branch(s)) && AllFresh(xs)
    ensures RenewAllSlots(s, xs, inline) == s
  {
    forall i | 0 <= i < |s| ensures RenewAll(s[i], xs, inline) == s[i] {
      RenewAllFresh(s[i], xs, inline);
    }
  }

  /** An update of such a tree. */
  lemma FreshStep(t: Tree, op: Op, inline: Node -> bool)
    requires Formed(t) && Fresh(t) && op.value != []
    ensures StepAsCoded(t, op, inline) == Place(t, KeyPath(op.key), Word(op.value, false))
    ensures Fresh(StepAsCoded(t, op, inline))
  {
    InsertedFresh(t, KeyPath(op.key), Word(op.value, false), inline);
  }

  /** When nothing was put below, no slot changes. */
  lemma NothingRenewed(s: seq<Tree>, inline: Node -> bool)
    ensures RenewAllSlots(s, [], inline) == s
  {}

  // ---------- Three keys, and one of them deleted ----------

  function Gone(): Bytes {
    [0x10]
  }

  function Kept2(): Bytes {
    [0x23, 0x45]
  }

  function Kept3(): Bytes {
    [0x23, 0x46]
  }

  function W(v: Bytes): Tree {
    Word(v, false)
  }

  function Leaf(v: Bytes): Tree {
    Path([16], W(v))
  }

  /** The branch of the two keys that agree in three nibbles. */
  function Fork(v: Bytes): Tree {
    Branch(Blanks(SLOTS)[5 := Leaf(v)][6 := Leaf(v)])
  }

  /** The tree of all three keys. */
  function Three(v: Bytes): Tree {
    Branch(Blanks(SLOTS)[1 := Path([0, 16], W(v))][2 := Path([3, 4], Fork(v))])
  }

  /** The tree of the two keys that are meant to stay. */
  function Two(v: Bytes): Tree {
    Path([2, 3, 4], Fork(v))
  }

  /** The two keys alone. */
  function Shared(v: Bytes): seq<Event> {
    [Do(Op.Update(Kept2(), v))] + [Do(Op.Update(Kept3(), v))]
  }

  /** The same content by a detour. */
  function Detour(v: Bytes): seq<Event> {
    [Do(Op.Update(Gone(), v))] + [Do(Op.Update(Kept2(), v))] + [Do(Op.Update(Kept3(), v))] + [Do(Op.Update(Gone(), []))]
  }

  lemma Paths()
    ensures KeyPath(Gone()) == [1, 0, 16]
    ensures KeyPath(Kept2()) == [2, 3, 4, 5, 16]
    ensures KeyPath(Kept3()) == [2, 3, 4, 6, 16]
  {
    assert Kept2()[1..] == [0x45] && Kept3()[1..] == [0x46];
    assert UnpackPairs([0x45]) == [4, 5] && UnpackPairs([0x46]) == [4, 6];
  }

  lemma FirstFork(v: Bytes)
    requires v != []
    ensures IsTerminated([2, 3, 4, 5, 16]) && Formed(Path([1, 0, 16], W(v)))
    ensures Place(Path([1, 0, 16], W(v)), [2, 3, 4, 5, 16], W(v)) ==
      Branch(Blanks(SLOTS)[1 := Path([0, 16], W(v))][2 := Path([3, 4, 5, 16], W(v))])
  {
    var k, key := [1, 0, 16], [2, 3, 4, 5, 16];
    assert MatchLength(key, k) == 0;
    assert k[1..] == [0, 16] && key[1..] == [3, 4, 5, 16] && key[..0] == [];
  }

  lemma SecondMatch()
    ensures MatchLength([3, 4, 6, 16], [3, 4, 5, 16]) == 2
  {
    var k, key := [3, 4, 5, 16], [3, 4, 6, 16];
    assert key[1..] == [4, 6, 16] && k[1..] == [4, 5, 16] && key[1..][1..] == [6, 16] && k[1..][1..] == [5, 16];
    assert MatchLength([6, 16], [5, 16]) == 0;
    assert MatchLength([4, 6, 16], [4, 5, 16]) == 1;
  }

  lemma SecondFork(v: Bytes)
    requires v != []
    ensures IsTerminated([3, 4, 6, 16]) && Formed(Path([3, 4, 5, 16], W(v)))
    ensures Place(Path([3, 4, 5, 16], W(v)), [3, 4, 6, 16], W(v)) == Path([3, 4], Fork(v))
  {
    var k, key := [3, 4, 5, 16], [3, 4, 6, 16];
    SecondMatch();
    assert k[3..] == [16] && key[3..] == [16] && key[..2] == [3, 4];
  }

  /** The tree of the first two keys. */
  function FirstTwo(v: Bytes): Tree {
    Branch(Blanks(SLOTS)[1 := Path([0, 16], W(v))][2 := Path([3, 4, 5, 16], W(v))])
  }

  lemma ThirdKey(v: Bytes)
    requires v != []
    ensures Formed(FirstTwo(v)) && IsTerminated([2, 3, 4, 6, 16])
    ensures Place(FirstTwo(v), [2, 3, 4, 6, 16], W(v)) == Three(v)
  {
    SecondFork(v);
    assert [2, 3, 4, 6, 16][1..] == [3, 4, 6, 16];
    assert FirstTwo(v).slots[2 := Path([3, 4], Fork(v))] == Three(v).slots;
  }

  lemma LastFork(v: Bytes)
    requires v != []
    ensures IsTerminated([2, 3, 4, 6, 16]) && Formed(Path([2, 3, 4, 5, 16], W(v)))
    ensures Place(Path([2, 3, 4, 5, 16], W(v)), [2, 3, 4, 6, 16], W(v)) == Two(v)
  {
    var k, key := [2, 3, 4, 5, 16], [2, 3, 4, 6, 16];
    SecondMatch();
    assert key[1..] == [3, 4, 6, 16] && k[1..] == [3, 4, 5, 16];
    assert MatchLength(key, k) == 3;
    assert k[4..] == [16] && key[4..] == [16] && key[..3] == [2, 3, 4];
  }

  lemma OnlyOne(s: seq<Tree>, i: nat)
    requires |s| == 17 && i < 17 && s[i] != Blank(true) && forall j :: 0 <= j < 17 && j != i ==> s[j] == Blank(true)
    ensures Counted(s, 17) == i
  {
    assert Counts(s, i);
  }

  lemma ForkFormed(v: Bytes)
    requires v != []
    ensures Formed(Fork(v)) && Formed(Two(v)) && Sound(Two(v)) && Formed(Lost(Fork(v)))
  {
    var s := Fork(v).slots;
    forall i | 0 <= i < 17 ensures Formed(s[i]) && Sound(s[i]) && (i == 16 ==> WordSlot(s[i])) {
      assert s[i] == if i == 5 || i == 6 then Leaf(v) else Blank(true);
    }
  }

  lemma FirstGone(v: Bytes, inline: Node -> bool)
    requires v != []
    ensures Formed(Three(v)) && IsTerminated([1, 0, 16])
    ensures Deleted(Three(v), [1, 0, 16], inline).tree == Path([2, 3, 4], Cut(Fork(v), inline))
  {
    ForkFormed(v);
    NothingRenewed(Three(v).slots, inline);
    var s := Three(v).slots;
    assert [1, 0, 16][1..] == [0, 16];
    var s' := s[1 := Blank(true)];
    assert Deleted(s[1], [0, 16], inline) == Effect(Blank(true), []);
    OnlyOne(s', 2);
    assert [2] + [3, 4] == [2, 3, 4];
  }

  lemma StepsByKey(v: Bytes, inline: Node -> bool)
    requires v != []
    ensures StepAsCoded(Blank(true), Op.Update(Gone(), v), inline) == Path([1, 0, 16], W(v))
    ensures StepAsCoded(Blank(true), Op.Update(Kept2(), v), inline) == Path([2, 3, 4, 5, 16], W(v))
    ensures Formed(Path([1, 0, 16], W(v))) && Formed(Path([2, 3, 4, 5, 16], W(v))) && Formed(FirstTwo(v))
    ensures StepAsCoded(Path([1, 0, 16], W(v)), Op.Update(Kept2(), v), inline) == FirstTwo(v)
    ensures StepAsCoded(FirstTwo(v), Op.Update(Kept3(), v), inline) == Three(v)
    ensures StepAsCoded(Path([2, 3, 4, 5, 16], W(v)), Op.Update(Kept3(), v), inline) == Two(v)
  {
    Paths();
    FirstFork(v);
    ThirdKey(v);
    LastFork(v);
    FreshStep(Blank(true), Op.Update(Gone(), v), inline);
    FreshStep(Blank(true), Op.Update(Kept2(), v), inline);
    FreshStep(Path([1, 0, 16], W(v)), Op.Update(Kept2(), v), inline);
    FreshStep(FirstTwo(v), Op.Update(Kept3(), v), inline);
    FreshStep(Path([2, 3, 4, 5, 16], W(v)), Op.Update(Kept3(), v), inline);
  }

  lemma FirstUpdate(op: Op, inline: Node -> bool)
    ensures Played([Do(op)], inline) == StepAsCoded(Blank(true), op, inline)
    ensures Contents(Updates([Do(op)])) == ContentsAfter(map[], Do(op))
  {
    assert [] + [Do(op)] == [Do(op)];
    NextUpdate([], op, Blank(true), inline);
  }

  lemma NextUpdate(front: seq<Event>, op: Op, t: Tree, inline: Node -> bool)
    requires Played(front, inline) == t
    ensures Played(front + [Do(op)], inline) == StepAsCoded(t, op, inline)
    ensures Contents(Updates(front + [Do(op)])) == ContentsAfter(Contents(Updates(front)), Do(op))
  {
    PlayedOn(front, Do(op), inline);
    UpdatesOn(front, Do(op));
    OneMore(Updates(front), op);
  }

  /** What the two keys leave, and what the three do. */
  lemma KeysLeave(v: Bytes, inline: Node -> bool)
    requires v != []
    ensures Played(Shared(v), inline) == Two(v)
    ensures Contents(Updates(Shared(v))) == map[Kept2() := v, Kept3() := v]
  {
    StepsByKey(v, inline);
    FirstUpdate(Op.Update(Kept2(), v), inline);
    NextUpdate([Do(Op.Update(Kept2(), v))], Op.Update(Kept3(), v), Path([2, 3, 4, 5, 16], W(v)), inline);
  }

  lemma ThreeLeave(v: Bytes, inline: Node -> bool)
    requires v != []
    ensures var three := [Do(Op.Update(Gone(), v))] + [Do(Op.Update(Kept2(), v))] + [Do(Op.Update(Kept3(), v))];
            && Played(three, inline) == Three(v)
            && Contents(Updates(three)) == map[Gone() := v, Kept2() := v, Kept3() := v]
  {
    StepsByKey(v, inline);
    var one := [Do(Op.Update(Gone(), v))];
    FirstUpdate(Op.Update(Gone(), v), inline);
    NextUpdate(one, Op.Update(Kept2(), v), Path([1, 0, 16], W(v)), inline);
    NextUpdate(one + [Do(Op.Update(Kept2(), v))], Op.Update(Kept3(), v), FirstTwo(v), inline);
  }

  lemma DetourLeaves(v: Bytes, inline: Node -> bool)
    requires v != []
    ensures Played(Detour(v), inline) == Path([2, 3, 4], Cut(Fork(v), inline))
    ensures Contents(Updates(Detour(v))) == map[Kept2() := v, Kept3() := v]
  {
    Paths();
    FirstGone(v, inline);
    ThreeLeave(v, inline);
    var three := [Do(Op.Update(Gone(), v))] + [Do(Op.Update(Kept2(), v))] + [Do(Op.Update(Kept3(), v))];
    NextUpdate(three, Op.Update(Gone(), []), Three(v), inline);
  }

  /** Get at a key. */
  function GetAt(t: Tree, key: Bytes): Bytes
    requires Formed(t)
  {
    Answer(t, KeyPath(key))
  }

  lemma BothBelow(t: Tree)
    requires Formed(t)
    ensures IsTerminated([5, 16]) && IsTerminated([6, 16]) && Formed(Path([2, 3, 4], t))
    ensures GetAt(Path([2, 3, 4], t), Kept2()) == Answer(t, [5, 16])
    ensures GetAt(Path([2, 3, 4], t), Kept3()) == Answer(t, [6, 16])
  {
    Paths();
    AnswerPath([2, 3, 4], t, [2, 3, 4, 5, 16]);
    AnswerPath([2, 3, 4], t, [2, 3, 4, 6, 16]);
    assert [2, 3, 4, 5, 16] == [2, 3, 4] + [5, 16] && [2, 3, 4, 6, 16] == [2, 3, 4] + [6, 16];
  }

  lemma ForkAnswers(v: Bytes)
    requires v != []
    ensures Formed(Fork(v)) && Answer(Fork(v), [5, 16]) == v && Answer(Fork(v), [6, 16]) == v
  {
    ForkFormed(v);
    var s := Fork(v).slots;
    AnswerBranch(s, [5, 16]);
    AnswerBranch(s, [6, 16]);
    assert [5, 16][1..] == [16] && [6, 16][1..] == [16];
    assert s[5] == Leaf(v) && s[6] == Leaf(v);
    AnswerPath([16], W(v), [16]);
    assert [16][1..] == [];
  }

  /** Two runs that leave the same content. */
  lemma SameButFor(v: Bytes, inline: Node -> bool)
    requires v != []
    ensures Formed(Cut(Fork(v), inline)) && Formed(Path([2, 3, 4], Cut(Fork(v), inline)))
    ensures Contents(Updates(Detour(v))) == Contents(Updates(Shared(v))) == map[Kept2() := v, Kept3() := v]
    ensures Played(Shared(v), inline) == Two(v)
    ensures Played(Detour(v), inline) == Path([2, 3, 4], Cut(Fork(v), inline))
  {
    DetourLeaves(v, inline);
    KeysLeave(v, inline);
    ForkFormed(v);
    CutFormed([2, 3, 4], Fork(v), inline);
  }

  // ---------- A short value ----------

  const ONE: Bytes := [1]

  lemma {:induction false} EncodedUpdate(xs: seq<Item>, i: nat, x: Item)
    requires i < |xs|
    ensures |EncodedAll(xs[i := x])| == |EncodedAll(xs)| - |Encoded(xs[i])| + |Encoded(x)|
  {
    if i == 0 {
      assert xs[i := x][1..] == xs[1..];
    } else {
      EncodedUpdate(xs[1..], i - 1, x);
      assert xs[i := x][1..] == xs[1..][i - 1 := x];
    }
  }

  lemma {:induction false} EncodedEmpty(l: nat)
    ensures |EncodedAll(EmptyRefs(l))| == l
  {
    if l > 0 {
      EncodedEmpty(l - 1);
      var r := EmptyRefs(l);
      assert r[1..] == EmptyRefs(l - 1);
      assert Encoded(r[0]) == [0x80];
    }
  }

  function EmptyRefs(l: nat): (r: seq<Item>)
    ensures |r| == l && forall i :: 0 <= i < l ==> r[i] == Str([])
  {
    if l == 0 then [] else EmptyRefs(l - 1) + [Str([])]
  }

  lemma LeafRef(h: Hash)
    ensures var n := AsNode(Leaf(ONE), true); Keyed(n) && |Encoded(Ref(n, h))| == 3
  {
    var leaf := Short([16], Value(ONE));
    assert Flagged([16]) == [2, 0];
    assert Compact([16]) == [0x20];
    var item := NodeItem(leaf, h);
    assert item == List([Str([0x20]), Str(ONE)]);
    var xs := [Str([0x20]), Str(ONE)];
    assert xs[1..] == [Str(ONE)] && xs[1..][1..] == [];
    assert Encoded(xs[0]) == [0x20] && Encoded(xs[1]) == [1];
    assert EncodedAll(xs[1..]) == [1] + EncodedAll([]);
    assert |EncodedAll(xs)| == 2;
  }

  lemma Empties(l: nat) returns (e: seq<Item>)
    ensures e == EmptyRefs(l) && |e| == |EncodedAll(e)| == l && forall i :: 0 <= i < l ==> e[i] == Str([])
  {
    e := EmptyRefs(l);
    EncodedEmpty(l);
  }

  lemma TwoLeaves(e: seq<Item>, r: Item)
    requires |e| == 17 && |EncodedAll(e)| == 17 && e[5] == e[6] == Str([]) && |Encoded(r)| == 3
    ensures |EncodedAll(e[5 := r][6 := r])| == 21
  {
    assert Encoded(Str([])) == [0x80];
    EncodedUpdate(e, 5, r);
    EncodedUpdate(e[5 := r], 6, r);
  }

  lemma ForkRefs(h: Hash, e: seq<Item>, r: Item)
    requires e == EmptyRefs(SLOTS) && Keyed(AsNode(Leaf(ONE), true)) && r == Ref(AsNode(Leaf(ONE), true), h)
    ensures var n := AsNode(Fork(ONE), true); n.Full? && Keyed(n) && SlotRefs(n.slots, h) == e[5 := r][6 := r]
  {
    var s := Fork(ONE).slots;
    var n := AsNodes(s, true);
    forall i | 0 <= i < 17 ensures Keyed(n[i]) && Ref(n[i], h) == e[5 := r][6 := r][i] {
      assert s[i] == if i == 5 || i == 6 then Leaf(ONE) else Blank(true);
    }
    assert SlotRefs(n, h) == e[5 := r][6 := r];
  }

  /** The fork encodes to 22 bytes. */
  lemma ForkIsInline(h: Hash)
    ensures Inline(AsNode(Fork(ONE), true), h)
  {
    LeafRef(h);
    var e := Empties(SLOTS);
    var r := Ref(AsNode(Leaf(ONE), true), h);
    TwoLeaves(e, r);
    ForkRefs(h, e, r);
    var n := AsNode(Fork(ONE), true);
    assert NodeItem(n, h) == List(e[5 := r][6 := r]);
  }

  /**
   Two runs that leave the same content do not leave the same tree: after the detour both keys are gone, and reading
   back does not bring them back. For the value ONE this is so whatever the hash (ForkIsInline).
   */
  lemma HistoryMatters(v: Bytes, h: Hash, t: Tree)
    requires v != [] && Inline(AsNode(Fork(v), true), h) && t == Played(Detour(v), InlineTest(h))
    ensures Contents(Updates(Detour(v))) == Contents(Updates(Shared(v))) == map[Kept2() := v, Kept3() := v]
    ensures AsNode(t, true) != AsNode(Played(Shared(v), InlineTest(h)), true)
    ensures Formed(t) && GetAt(t, Kept2()) == GetAt(t, Kept3()) == []
    ensures Formed(Reload(t)) && GetAt(Reload(t), Kept2()) == GetAt(Reload(t), Kept3()) == []
  {
    SameButFor(v, InlineTest(h));
    assert t == Path([2, 3, 4], Blank(true));
    BothBelow(Blank(true));
    BothBelow(Blank(false));
  }

  // ---------- A long value ----------

  /** A branch with a long value in one of its slots is stored. */
  lemma BranchIsStored(s: seq<Tree>, i: nat, v: Bytes, h: Hash)
    requires |v| >= 32 && HashWidth(h) && i < |s| && s[i] == Leaf(v)
    ensures !Inline(AsNode(Branch(s), true), h)
  {
    var n := AsNodes(s, true);
    if Inline(AsNode(Branch(s), true), h) {
      assert AsNode(W(v), true) == Value(v);
      assert n[i] == AsNode(Leaf(v), true) == Short([16], Value(v));
      assert NodeItem(Short([16], Value(v)), h) == List([Str(Compact([16])), Str(v)]);
      ElementShorter([Str(Compact([16])), Str(v)], 1);
      ElementShorter(SlotRefs(n, h), i);
    }
  }

  lemma ForkIsStored(v: Bytes, h: Hash)
    requires |v| >= 32 && HashWidth(h)
    ensures !Inline(AsNode(Fork(v), true), h)
  {
    BranchIsStored(Fork(v).slots, 5, v, h);
  }

  /**
   With values of 32 bytes or more the root bytes after the detour are right, but until the trie is opened again on them
   both keys answer "".
   */
  lemma HistoryHides(v: Bytes, h: Hash, t: Tree)
    requires |v| >= 32 && HashWidth(h) && t == Played(Detour(v), InlineTest(h))
    ensures Contents(Updates(Detour(v))) == Contents(Updates(Shared(v))) == map[Kept2() := v, Kept3() := v]
    ensures AsNode(t, true) == AsNode(Played(Shared(v), InlineTest(h)), true)
    ensures Formed(t) && GetAt(t, Kept2()) == GetAt(t, Kept3()) == []
    ensures Formed(Reload(t)) && GetAt(Reload(t), Kept2()) == GetAt(Reload(t), Kept3()) == v
  {
    SameButFor(v, InlineTest(h));
    ForkIsStored(v, h);
    assert t == Path([2, 3, 4], Lost(Fork(v)));
    HiddenFork(v);
    ReadBackFork(v);
  }

  lemma HiddenFork(v: Bytes)
    requires v != []
    ensures var t := Path([2, 3, 4], Lost(Fork(v)));
            Formed(t) && GetAt(t, Kept2()) == GetAt(t, Kept3()) == [] && AsNode(t, true) == AsNode(Two(v), true)
  {
    ForkFormed(v);
    BothBelow(Lost(Fork(v)));
  }

  lemma ReadBackFork(v: Bytes)
    requires v != []
    ensures var r := Reload(Path([2, 3, 4], Lost(Fork(v)))); Formed(r) && GetAt(r, Kept2()) == GetAt(r, Kept3()) == v
  {
    ForkFormed(v);
    ForkAnswers(v);
    ReloadFormed(Fork(v));
    BothBelow(Reload(Fork(v)));
    ReloadStill(Fork(v));
    AnswerStill(Fork(v), Reload(Fork(v)), [5, 16]);
    AnswerStill(Fork(v), Reload(Fork(v)), [6, 16]);
  }

  /** An update of one of the two before that loses the other for good. */
  lemma LostForGood(v: Bytes, w: Bytes, h: Hash, t: Tree, after: Tree)
    requires |v| >= 32 && w != [] && HashWidth(h) && t == Played(Detour(v), InlineTest(h))
    requires after == StepAsCoded(t, Op.Update(Kept2(), w), InlineTest(h))
    ensures Formed(after) && GetAt(after, Kept2()) == w && GetAt(after, Kept3()) == []
    ensures Formed(Reload(after)) && GetAt(Reload(after), Kept3()) == []
  {
    SameButFor(v, InlineTest(h));
    ForkIsStored(v, h);
    assert t == Path([2, 3, 4], Lost(Fork(v)));
    KeptStep(v, w, InlineTest(h));
    OnlySecond(w);
  }

  lemma KeptStep(v: Bytes, w: Bytes, inline: Node -> bool)
    requires v != [] && w != []
    ensures var t := Path([2, 3, 4], Lost(Fork(v)));
            && Formed(t)
            && StepAsCoded(t, Op.Update(Kept2(), w), inline) == Path([2, 3, 4], Path([5, 16], W(w)))
  {
    Paths();
    Overwritten(v, w, inline);
  }

  lemma OnlySecond(w: Bytes)
    requires w != []
    ensures var after := Path([2, 3, 4], Path([5, 16], W(w)));
            && Formed(after) && GetAt(after, Kept2()) == w && GetAt(after, Kept3()) == []
            && Formed(Reload(after)) && GetAt(Reload(after), Kept3()) == []
  {
    var below := Path([5, 16], W(w));
    assert [5, 16][0] != [6, 16][0] && [5, 16][2..] == [];
    BothBelow(below);
    AnswerPath([5, 16], W(w), [5, 16]);
    AnswerPath([5, 16], W(w), [6, 16]);
    ReloadFormed(below);
    BothBelow(Reload(below));
    AnswerPath([5, 16], Reload(W(w)), [6, 16]);
  }

  lemma Overwritten(v: Bytes, w: Bytes, inline: Node -> bool)
    requires v != [] && w != []
    ensures Formed(Path([2, 3, 4], Lost(Fork(v)))) && IsTerminated([2, 3, 4, 5, 16])
    ensures Inserted(Path([2, 3, 4], Lost(Fork(v))), [2, 3, 4, 5, 16], W(w), inline).tree
         == Path([2, 3, 4], Path([5, 16], W(w)))
  {
    var k, key := [2, 3, 4], [2, 3, 4, 5, 16];
    ForkFormed(v);
    ThreeMatch();
    assert key[3..] == [5, 16] && key[..3] == k;
    assert Inserted(Lost(Fork(v)), [5, 16], W(w), inline).tree == Path([5, 16], W(w));
  }

  lemma ThreeMatch()
    ensures MatchLength([2, 3, 4, 5, 16], [2, 3, 4]) == 3
  {
    var k, key := [2, 3, 4], [2, 3, 4, 5, 16];
    MatchReaches(key, k, 3);
    assert key[..3] == k[..3];
  }

  // ---------- Branches that were read back ----------

  /** Two keys that part at once, opened again, and one or both of them deleted. */
  function Reopened(a: Bytes, va: Bytes, b: Bytes, vb: Bytes): seq<Event> {
    [Do(Op.Update(a, va)), Do(Op.Update(b, vb)), Reopen]
  }

  predicate PartAtOnce(a: Bytes, b: Bytes) {
    KeyPath(a)[0] != KeyPath(b)[0]
  }

  function TwoSlots(a: Bytes, va: Bytes, b: Bytes, vb: Bytes): (s: seq<Tree>)
    ensures |s| == 17
  {
    Forks(KeyPath(a), W(va), KeyPath(b), W(vb), 0)
  }

  lemma TwoPlaced(a: Bytes, va: Bytes, b: Bytes, vb: Bytes, inline: Node -> bool)
    requires PartAtOnce(a, b) && va != [] && vb != []
    ensures Formed(Branch(TwoSlots(a, va, b, vb)))
    ensures Played([Do(Op.Update(a, va)), Do(Op.Update(b, vb))], inline) == Branch(TwoSlots(a, va, b, vb))
  {
    var ka, kb := KeyPath(a), KeyPath(b);
    assert MatchLength(kb, ka) == 0;
    ForksFormed(ka, W(va), kb, W(vb), 0);
    var e1, e2 := Do(Op.Update(a, va)), Do(Op.Update(b, vb));
    PlayedOn([], e1, inline);
    PlayedOn([e1], e2, inline);
    assert [] + [e1] == [e1] && [e1] + [e2] == [e1, e2];
    FreshStep(Blank(true), e1.op, inline);
    FreshStep(Path(ka, W(va)), e2.op, inline);
    assert Played([e1], inline) == Path(ka, W(va));
    assert kb[..0] == [];
  }

  /** The slots as they were read back. */
  function ReadSlots(a: Bytes, va: Bytes, b: Bytes, vb: Bytes): (s: seq<Tree>)
    ensures |s| == 17
  {
    ReloadAll(TwoSlots(a, va, b, vb))
  }

  lemma TwoReopened(a: Bytes, va: Bytes, b: Bytes, vb: Bytes, inline: Node -> bool)
    requires PartAtOnce(a, b) && va != [] && vb != []
    ensures Formed(Branch(ReadSlots(a, va, b, vb)))
    ensures Played(Reopened(a, va, b, vb), inline) == Branch(ReadSlots(a, va, b, vb))
  {
    TwoPlaced(a, va, b, vb, inline);
    ReloadFormed(Branch(TwoSlots(a, va, b, vb)));
    PlayedOn([Do(Op.Update(a, va)), Do(Op.Update(b, vb))], Reopen, inline);
    assert [Do(Op.Update(a, va)), Do(Op.Update(b, vb))] + [Reopen] == Reopened(a, va, b, vb);
  }

  /** What is read back in the slot of a key is deleted whole. */
  lemma SlotCleared(k: seq<int>, v: Bytes, inline: Node -> bool)
    requires IsTerminated(k) && v != []
    ensures var t := Reload(Onto(k[1..], W(v)));
            && IsRest(k[1..]) && (k[1..] != [] ==> Formed(t)) && Deleted(t, k[1..], inline) == Effect(Blank(true), [])
  {
    HeadOfKey(k);
  }

  lemma OneDeleted(a: Bytes, va: Bytes, b: Bytes, vb: Bytes, inline: Node -> bool)
    requires PartAtOnce(a, b) && va != [] && vb != []
    ensures 0 <= KeyPath(a)[0] <= 16 && Formed(Branch(ReadSlots(a, va, b, vb)))
    ensures Deleted(Branch(ReadSlots(a, va, b, vb)), KeyPath(a), inline).tree
         == Branch(ReadSlots(a, va, b, vb)[KeyPath(a)[0] := Blank(true)])
  {
    var ka := KeyPath(a);
    TwoReopened(a, va, b, vb, inline);
    HeadOfKey(ka);
    SlotCleared(ka, va, inline);
    NothingRenewed(ReadSlots(a, va, b, vb), inline);
    ReloadedNeverCollapses(TwoSlots(a, va, b, vb), ka[0], inline);
  }

  /**
   Two runs with one content and different trees, hence different roots: a key that is deleted after a reading back
   leaves its branch standing.
   */
  lemma RootTellsHistory(a: Bytes, va: Bytes, b: Bytes, vb: Bytes, inline: Node -> bool)
    requires PartAtOnce(a, b) && va != [] && vb != []
    ensures var events := Reopened(a, va, b, vb) + [Do(Op.Update(a, []))];
            && Contents(Updates(events)) == Contents([Op.Update(b, vb)]) == map[b := vb]
            && AsNode(Played(events, inline), true) != Run([Op.Update(b, vb)])
            && AsNode(Played(events, inline), true).Full? && Run([Op.Update(b, vb)]).Short?
  {
    TwoReopened(a, va, b, vb, inline);
    OneDeleted(a, va, b, vb, inline);
    PlayedOn(Reopened(a, va, b, vb), Do(Op.Update(a, [])), inline);
    OneContents(a, va, b, vb);
    OneKey(b, vb);
  }

  lemma OneKey(b: Bytes, vb: Bytes)
    requires vb != []
    ensures Run([Op.Update(b, vb)]) == Short(KeyPath(b), Value(vb)) && Contents([Op.Update(b, vb)]) == map[b := vb]
  {
    OneMore([], Op.Update(b, vb));
    assert [] + [Op.Update(b, vb)] == [Op.Update(b, vb)];
  }

  lemma UpdatesOn(events: seq<Event>, e: Event)
    ensures Updates(events + [e]) == if e.Do? then Updates(events) + [e.op] else Updates(events)
  {
    assert (events + [e])[..|events|] == events;
  }

  lemma ReopenedUpdates(a: Bytes, va: Bytes, b: Bytes, vb: Bytes)
    ensures Updates(Reopened(a, va, b, vb)) == [Op.Update(a, va)] + [Op.Update(b, vb)]
  {
    var e1, e2 := Do(Op.Update(a, va)), Do(Op.Update(b, vb));
    UpdatesOn([], e1);
    UpdatesOn([e1], e2);
    UpdatesOn([e1, e2], Reopen);
    assert [] + [e1] == [e1] && [e1] + [e2] == [e1, e2] && [e1, e2] + [Reopen] == Reopened(a, va, b, vb);
  }

  lemma OneContents(a: Bytes, va: Bytes, b: Bytes, vb: Bytes)
    requires PartAtOnce(a, b) && va != [] && vb != []
    ensures Contents(Updates(Reopened(a, va, b, vb) + [Do(Op.Update(a, []))])) == map[b := vb]
  {
    ReopenedUpdates(a, va, b, vb);
    UpdatesOn(Reopened(a, va, b, vb), Do(Op.Update(a, [])));
    OneKey(a, va);
    OneMore([Op.Update(a, va)], Op.Update(b, vb));
    OneMore([Op.Update(a, va)] + [Op.Update(b, vb)], Op.Update(a, []));
  }

  /** And when the other key is deleted too, a branch without any key is left where the empty trie should be. */
  lemma NothingHasARoot(a: Bytes, va: Bytes, b: Bytes, vb: Bytes, h: Hash, events: seq<Event>)
    requires PartAtOnce(a, b) && va != [] && vb != [] && HashWidth(h)
    requires events == Reopened(a, va, b, vb) + [Do(Op.Update(a, []))] + [Do(Op.Update(b, []))]
    ensures Contents(Updates(events)) == map[] && IntendedRoot([], h) == Str([]) && RootOf(events, h) != Str([])
  {
    NothingLeft(a, va, b, vb, InlineTest(h));
    BranchHasARoot(Played(events, InlineTest(h)), h);
  }

  lemma NothingLeft(a: Bytes, va: Bytes, b: Bytes, vb: Bytes, inline: Node -> bool)
    requires PartAtOnce(a, b) && va != [] && vb != []
    ensures var events := Reopened(a, va, b, vb) + [Do(Op.Update(a, []))] + [Do(Op.Update(b, []))];
            Contents(Updates(events)) == map[] && Played(events, inline).Branch?
  {
    var first := Reopened(a, va, b, vb) + [Do(Op.Update(a, []))];
    OneLeftOver(a, va, b, vb, inline);
    PlayedOn(first, Do(Op.Update(b, [])), inline);
    OneContents(a, va, b, vb);
    UpdatesOn(first, Do(Op.Update(b, [])));
    OneMore(Updates(first), Op.Update(b, []));
    BothDeleted(a, va, b, vb, inline);
  }

  lemma OneLeftOver(a: Bytes, va: Bytes, b: Bytes, vb: Bytes, inline: Node -> bool)
    requires PartAtOnce(a, b) && va != [] && vb != []
    ensures 0 <= KeyPath(a)[0] <= 16
    ensures Played(Reopened(a, va, b, vb) + [Do(Op.Update(a, []))], inline)
         == Branch(ReadSlots(a, va, b, vb)[KeyPath(a)[0] := Blank(true)])
  {
    TwoReopened(a, va, b, vb, inline);
    OneDeleted(a, va, b, vb, inline);
    PlayedOn(Reopened(a, va, b, vb), Do(Op.Update(a, [])), inline);
  }

  /** The reference to a branch is not that of the empty trie. */
  lemma BranchHasARoot(t: Tree, h: Hash)
    requires t.Branch? && Formed(t) && HashWidth(h)
    ensures Keyed(AsNode(t, true)) && Ref(AsNode(t, true), h) != Str([])
  {
    FormedIsKeyed(t);
  }

  lemma BothDeleted(a: Bytes, va: Bytes, b: Bytes, vb: Bytes, inline: Node -> bool)
    requires PartAtOnce(a, b) && va != [] && vb != []
    ensures 0 <= KeyPath(a)[0] <= 16
    ensures var t := Branch(ReadSlots(a, va, b, vb)[KeyPath(a)[0] := Blank(true)]);
            Formed(t) && Deleted(t, KeyPath(b), inline).tree.Branch?
  {
    var ka, kb := KeyPath(a), KeyPath(b);
    var r := ReadSlots(a, va, b, vb);
    OneDeleted(a, va, b, vb, inline);
    DeletedFits(Branch(r), ka, inline);
    NothingRenewed(r[ka[0] := Blank(true)], inline);
    HeadOfKey(ka);
    HeadOfKey(kb);
    SlotCleared(kb, vb, inline);
    StillTwo(TwoSlots(a, va, b, vb), ka[0], kb[0], inline);
  }

  /** Two slots of a branch that was read back may be cleared, and it still counts several. */
  lemma StillTwo(s: seq<Tree>, i: nat, j: nat, inline: Node -> bool)
    requires |s| == 17 && i < 17 && j < 17
    ensures Shrunk(ReloadAll(s)[i := Blank(true)][j := Blank(true)], inline).Branch?
  {
    var r := ReloadAll(s)[i := Blank(true)][j := Blank(true)];
    forall x | 0 <= x < 17 && x != i && x != j ensures Counts(r, x) {
      NeverBlankString(s[x]);
    }
    var x := if i != 0 && j != 0 then 0 else if i != 1 && j != 1 then 1 else 2;
    var y := if i != 3 && j != 3 then 3 else if i != 4 && j != 4 then 4 else 5;
    BothCount(r, x, y, inline);
  }

  // ---------- A zero byte ----------

  /**
   The leaf of the value "\x00" that line 304 moves after a reading back is seen, once it is read back again, as one
   without a value: Get answers "" at its key.
   */
  lemma ZeroByteAnswers(v: View, rest: seq<int>)
    requires IsTerminated(rest) && |Compact(rest)| > 1
    ensures var moved := GoList([GoString(Compact(rest)), Reloaded(Str(ZERO))]);
            var t := Now(v, Reloaded(Plain(moved)), Short(rest, Empty));
            t == Path(rest, Blank(false)) && Formed(t) && Answer(t, rest) == []
  {
    ZeroByteForgotten(Compact(rest), Compact(rest));
    AnswerPath(rest, Blank(false), rest);
  }
}
