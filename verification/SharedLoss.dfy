/**
 Histories in which equal nodes are one node of the cache: a put for one key changes the kinds of the slots on another
 key's path, and with them what the next deletion does there.
 */
module SharedLoss {
  import opened ByteStrings
  import opened HexPrefix
  import opened Slices
  import opened PatriciaTree
  import opened TrieTheorems
  import opened CodedTree
  import opened CodedRight
  import opened Reading
  import opened SharedNodes
  import opened SharedAnswers
  import opened CodedRuns
  import opened NodeRefs
  import opened TrieLoss

  // ---------- A node below two keys ----------

  /** InsertState puts last what it returns. */
  lemma InsertedLast(t: Tree, key: seq<int>, val: Tree, inline: Node -> bool)
    requires IsTerminated(key) && Formed(t)
    ensures var r := Inserted(t, key, val, inline); r.puts != [] && r.puts[|r.puts| - 1] == r.tree
  {
    match t
    case Path(k, c) =>
      if k != key {
        PathsPart(key, k);
      }
    case _ =>
  }

  /** What is stored in one place and put last in another is the same node from then on. */
  lemma LastPutWins(t: Tree, xs: seq<Tree>, inline: Node -> bool)
    requires Formed(t) && IsNode(t) && AllPuttable(xs) && xs != []
    requires AsNode(xs[|xs| - 1], true) == AsNode(t, true) && !inline(AsNode(t, true))
    ensures RenewAll(t, xs, inline) == xs[|xs| - 1]
  {
    RenewAllFits(t, xs[..|xs| - 1], inline);
  }

  /** Puts of other nodes leave a branch alone whose slots are all fresh or empty. */
  lemma {:induction false} RenewApart(q: seq<Tree>, xs: seq<Tree>, inline: Node -> bool)
    requires forall i :: 0 <= i < |q| ==> q[i].Blank? || Fresh(q[i])
    requires AllFresh(xs) && forall i :: 0 <= i < |xs| ==> AsNode(xs[i], true) != AsNode(Branch(q), true)
    ensures RenewAll(Branch(q), xs, inline) == Branch(q)
    decreases |xs|
  {
    if xs != [] {
      var x := xs[|xs| - 1];
      RenewApart(q, xs[..|xs| - 1], inline);
      forall i | 0 <= i < |q| ensures Renew(q[i], x, inline) == q[i] {
        if !q[i].Blank? {
          RenewFresh(q[i], x, inline);
        }
      }
      assert RenewSlots(q, x, inline) == q;
    }
  }

  /** A branch with `x` in slot 1, and in slot 2 a node that is written as `n`. */
  predicate TwoSided(t: Tree, x: Tree, n: Node) {
    && t.Branch? && |t.slots| == 17 && Formed(t)
    && t.slots[1] == x && IsNode(t.slots[2]) && AsNode(t.slots[2], true) == n
  }

  /** A first key beside those that begin with 2. */
  lemma FirstSide(r: Tree, k: seq<int>, v: Bytes, inline: Node -> bool)
    requires Formed(r) && IsNode(r) && IsTerminated(k) && IsTerminated([1] + k) && v != []
    ensures Formed(Path([2], r))
    ensures var t := Inserted(Path([2], r), [1] + k, W(v), inline).tree;
            TwoSided(t, Path(k, W(v)), AsNode(r, true)) && t.slots[2] == RenewAll(r, [Path(k, W(v))], inline)
  {
    var two, key := [2], [1] + k;
    assert MatchLength(key, two) == 0 && key[1..] == k && two[1..] == [] && key[..0] == [];
    assert New(key[1..], W(v)).puts == [Path(k, W(v))];
    ForkSlot(two, r, key, W(v), 0, 1, inline);
    ForkSlot(two, r, key, W(v), 0, 2, inline);
    RenewAllFits(r, [Path(k, W(v))], inline);
    InsertedFits(Path(two, r), key, W(v), inline);
  }

  /** And the next one. */
  lemma NextSide(t: Tree, x: Tree, n: Node, k: seq<int>, v: Bytes, inline: Node -> bool)
    requires TwoSided(t, x, n) && Formed(x) && Fresh(x) && IsTerminated(k) && IsTerminated([1] + k) && v != []
    ensures var t', y := Inserted(t, [1] + k, W(v), inline).tree, Place(x, k, W(v));
            && TwoSided(t', y, n) && Fresh(y)
            && t'.slots[2] == RenewAll(t.slots[2], Inserted(x, k, W(v), inline).puts, inline)
            && (AsNode(y, true) == n && !inline(n) ==> t'.slots[2] == y)
  {
    var key, r := [1] + k, Inserted(x, k, W(v), inline);
    assert key[0] == 1 && key[1..] == k;
    InsertedFresh(x, k, W(v), inline);
    InsertedFits(x, k, W(v), inline);
    InsertedFits(t, key, W(v), inline);
    RenewAllFits(t.slots[2], r.puts, inline);
    InsertedLast(x, k, W(v), inline);
    if AsNode(r.tree, true) == n && !inline(n) {
      LastPutWins(t.slots[2], r.puts, inline);
    }
  }

  /** The trie is opened again. */
  lemma OpenedAgain(front: seq<Event>, t: Tree, inline: Node -> bool)
    requires Played(front, inline) == t
    ensures Played(front + [Reopen], inline) == Reload(t) && Updates(front + [Reopen]) == Updates(front)
  {
    PlayedOn(front, Reopen, inline);
    UpdatesOn(front, Reopen);
  }

  // ---------- A deletion that hides keys because of other keys ----------

  function Old1(): Bytes {
    [0x2a]
  }

  function Old2(): Bytes {
    [0x2b, 0xcd]
  }

  function Old3(): Bytes {
    [0x2b, 0xce]
  }

  function New1(): Bytes {
    [0x1a]
  }

  function New2(): Bytes {
    [0x1b, 0xcd]
  }

  function New3(): Bytes {
    [0x1b, 0xce]
  }

  function One(v: Bytes): Tree {
    Path([10, 16], W(v))
  }

  function Pair(v: Bytes): Tree {
    Branch(Blanks(SLOTS)[10 := Leaf(v)][11 := Path([12, 13, 16], W(v))])
  }

  function Deep(v: Bytes): Tree {
    Branch(Blanks(SLOTS)[13 := Leaf(v)][14 := Leaf(v)])
  }

  /** Below the first nibble: the tree of three keys. */
  function Triple(v: Bytes): Tree {
    Branch(Blanks(SLOTS)[10 := Leaf(v)][11 := Path([12], Deep(v))])
  }

  /** Three keys are written, and the trie is opened again. */
  function Olds(v: Bytes): seq<Event> {
    [Do(Op.Update(Old1(), v))] + [Do(Op.Update(Old2(), v))] + [Do(Op.Update(Old3(), v))] + [Reopen]
  }

  /** Then three more that are the same below their first nibble. */
  function Twins(v: Bytes): seq<Event> {
    Olds(v) + [Do(Op.Update(New1(), v))] + [Do(Op.Update(New2(), v))] + [Do(Op.Update(New3(), v))]
  }

  function Delete1(): Event {
    Do(Op.Update(Old1(), []))
  }

  lemma TwinPaths()
    ensures KeyPath(Old1()) == [2, 10, 16] && KeyPath(New1()) == [1, 10, 16]
    ensures KeyPath(Old2()) == [2, 11, 12, 13, 16] && KeyPath(New2()) == [1, 11, 12, 13, 16]
    ensures KeyPath(Old3()) == [2, 11, 12, 14, 16] && KeyPath(New3()) == [1, 11, 12, 14, 16]
  {
    assert Old2()[1..] == [0xcd] && Old3()[1..] == [0xce] && New2()[1..] == [0xcd] && New3()[1..] == [0xce];
    assert UnpackPairs([0xcd]) == [12, 13] && UnpackPairs([0xce]) == [12, 14];
  }

  lemma PlacePair(v: Bytes)
    requires v != []
    ensures Formed(One(v)) && IsTerminated([11, 12, 13, 16]) && Place(One(v), [11, 12, 13, 16], W(v)) == Pair(v)
  {
    var k, key := [10, 16], [11, 12, 13, 16];
    assert MatchLength(key, k) == 0;
    assert k[1..] == [16] && key[1..] == [12, 13, 16] && key[..0] == [];
  }

  lemma PlaceDeep(v: Bytes)
    requires v != []
    ensures Formed(Path([12, 13, 16], W(v))) && IsTerminated([12, 14, 16])
    ensures Place(Path([12, 13, 16], W(v)), [12, 14, 16], W(v)) == Path([12], Deep(v))
  {
    var k, key := [12, 13, 16], [12, 14, 16];
    assert k[1..] == [13, 16] && key[1..] == [14, 16];
    assert MatchLength([14, 16], [13, 16]) == 0;
    assert MatchLength(key, k) == 1;
    assert k[2..] == [16] && key[2..] == [16] && key[..1] == [12];
  }

  lemma PlaceTriple(v: Bytes)
    requires v != []
    ensures Formed(Pair(v)) && IsTerminated([11, 12, 14, 16]) && Place(Pair(v), [11, 12, 14, 16], W(v)) == Triple(v)
  {
    PlaceDeep(v);
    assert [11, 12, 14, 16][1..] == [12, 14, 16];
    assert Pair(v).slots[11 := Path([12], Deep(v))] == Triple(v).slots;
  }

  /** The same below the nibble 2. */
  lemma PlaceUnder(v: Bytes)
    requires v != []
    ensures Formed(Path([2, 10, 16], W(v))) && IsTerminated([2, 11, 12, 13, 16]) && IsTerminated([2, 11, 12, 14, 16])
    ensures Place(Path([2, 10, 16], W(v)), [2, 11, 12, 13, 16], W(v)) == Path([2], Pair(v))
    ensures Formed(Path([2], Pair(v))) && Place(Path([2], Pair(v)), [2, 11, 12, 14, 16], W(v)) == Path([2], Triple(v))
  {
    PlaceTriple(v);
    UnderFirst(v);
    UnderSecond(v);
  }

  lemma UnderFirst(v: Bytes)
    requires v != []
    ensures Formed(Path([2, 10, 16], W(v))) && IsTerminated([2, 11, 12, 13, 16])
    ensures Place(Path([2, 10, 16], W(v)), [2, 11, 12, 13, 16], W(v)) == Path([2], Pair(v))
  {
    var k, key := [2, 10, 16], [2, 11, 12, 13, 16];
    assert k[1..] == [10, 16] && key[1..] == [11, 12, 13, 16];
    assert MatchLength([11, 12, 13, 16], [10, 16]) == 0;
    assert MatchLength(key, k) == 1;
    assert k[2..] == [16] && key[2..] == [12, 13, 16] && key[..1] == [2];
  }

  lemma UnderSecond(v: Bytes)
    requires v != [] && Formed(Pair(v)) && IsTerminated([11, 12, 14, 16])
    ensures IsTerminated([2, 11, 12, 14, 16])
    ensures Formed(Path([2], Pair(v)))
    ensures Place(Path([2], Pair(v)), [2, 11, 12, 14, 16], W(v))
         == Path([2], Place(Pair(v), [11, 12, 14, 16], W(v)))
  {
    UnderTwo(Pair(v), [11, 12, 14, 16], v);
    assert [2] + [11, 12, 14, 16] == [2, 11, 12, 14, 16];
  }

  lemma UnderTwo(x: Tree, k: seq<int>, v: Bytes)
    requires Formed(x) && IsTerminated(k) && IsTerminated([2] + k)
    ensures Formed(Path([2], x)) && Place(Path([2], x), [2] + k, W(v)) == Path([2], Place(x, k, W(v)))
  {
    var two, key := [2], [2] + k;
    MatchReaches(key, two, 1);
    assert key[..1] == two && key[1..] == k;
  }

  lemma TripleFormed(v: Bytes)
    requires v != []
    ensures Formed(Triple(v)) && Fresh(Triple(v)) && Formed(Deep(v)) && Bears(Deep(v))
  {
    var s, d := Triple(v).slots, Deep(v).slots;
    forall i | 0 <= i < 17 ensures Formed(d[i]) && Fresh(d[i]) && (i == 16 ==> WordSlot(d[i])) {
      assert d[i] == if i == 13 || i == 14 then Leaf(v) else Blank(true);
    }
    assert Bears(d[13]);
    forall i | 0 <= i < 17 ensures Formed(s[i]) && Fresh(s[i]) && (i == 16 ==> WordSlot(s[i])) {
      assert s[i] == if i == 10 then Leaf(v) else if i == 11 then Path([12], Deep(v)) else Blank(true);
    }
  }

  /** The three updates, on the trees they make. */
  lemma OldSteps(v: Bytes, inline: Node -> bool)
    requires v != []
    ensures StepAsCoded(Blank(true), Op.Update(Old1(), v), inline) == Path([2, 10, 16], W(v))
    ensures Formed(Path([2, 10, 16], W(v))) && Formed(Path([2], Pair(v)))
    ensures StepAsCoded(Path([2, 10, 16], W(v)), Op.Update(Old2(), v), inline) == Path([2], Pair(v))
    ensures StepAsCoded(Path([2], Pair(v)), Op.Update(Old3(), v), inline) == Path([2], Triple(v))
  {
    TwinPaths();
    PlaceUnder(v);
    FreshStep(Blank(true), Op.Update(Old1(), v), inline);
    FreshStep(Path([2, 10, 16], W(v)), Op.Update(Old2(), v), inline);
    FreshStep(Path([2], Pair(v)), Op.Update(Old3(), v), inline);
  }

  lemma OldsLeave(v: Bytes, inline: Node -> bool)
    requires v != []
    ensures Played(Olds(v), inline) == Path([2], Reload(Triple(v)))
    ensures Contents(Updates(Olds(v))) == map[Old1() := v, Old2() := v, Old3() := v]
  {
    OldSteps(v, inline);
    var one := [Do(Op.Update(Old1(), v))];
    var two := one + [Do(Op.Update(Old2(), v))];
    FirstUpdate(Op.Update(Old1(), v), inline);
    NextUpdate(one, Op.Update(Old2(), v), Path([2, 10, 16], W(v)), inline);
    NextUpdate(two, Op.Update(Old3(), v), Path([2], Pair(v)), inline);
    OpenedAgain(two + [Do(Op.Update(Old3(), v))], Path([2], Triple(v)), inline);
  }

  /** The three updates behind the opening again. */
  lemma FirstNew(r: Tree, v: Bytes, inline: Node -> bool)
    requires v != [] && Formed(r) && IsNode(r)
    ensures Formed(Path([2], r))
    ensures TwoSided(StepAsCoded(Path([2], r), Op.Update(New1(), v), inline), One(v), AsNode(r, true))
  {
    TwinPaths();
    assert [1] + [10, 16] == [1, 10, 16];
    FirstSide(r, [10, 16], v, inline);
  }

  lemma SecondNew(t: Tree, v: Bytes, n: Node, inline: Node -> bool)
    requires v != [] && TwoSided(t, One(v), n)
    ensures TwoSided(StepAsCoded(t, Op.Update(New2(), v), inline), Pair(v), n)
  {
    TwinPaths();
    PlacePair(v);
    assert [1] + [11, 12, 13, 16] == [1, 11, 12, 13, 16];
    NextSide(t, One(v), n, [11, 12, 13, 16], v, inline);
  }

  lemma PairFresh(v: Bytes)
    requires v != []
    ensures Fresh(Pair(v))
  {
    PlacePair(v);
    InsertedFresh(One(v), [11, 12, 13, 16], W(v), n => false);
  }

  /** The last put makes both branches one node, with empty Go strings. */
  lemma ThirdNew(t: Tree, v: Bytes, n: Node, inline: Node -> bool)
    requires v != [] && TwoSided(t, Pair(v), n) && n == AsNode(Triple(v), true) && !inline(n)
    ensures var t' := StepAsCoded(t, Op.Update(New3(), v), inline);
            TwoSided(t', Triple(v), n) && t'.slots[2] == Triple(v)
  {
    TwinPaths();
    PairFresh(v);
    PlaceTriple(v);
    assert [1] + [11, 12, 14, 16] == [1, 11, 12, 14, 16];
    NextSide(t, Pair(v), n, [11, 12, 14, 16], v, inline);
  }

  lemma TwinsLeave(v: Bytes, inline: Node -> bool)
    requires v != [] && !inline(AsNode(Triple(v), true))
    ensures var t := Played(Twins(v), inline);
            TwoSided(t, Triple(v), AsNode(Triple(v), true)) && t.slots[2] == Triple(v)
    ensures Contents(Updates(Twins(v))) ==
              map[Old1() := v, Old2() := v, Old3() := v, New1() := v, New2() := v, New3() := v]
  {
    var r := Reload(Triple(v));
    TripleFormed(v);
    ReloadFormed(Triple(v));
    ReloadKeepsWritten(Triple(v));
    OldsLeave(v, inline);
    var one := Olds(v) + [Do(Op.Update(New1(), v))];
    var t1 := StepAsCoded(Path([2], r), Op.Update(New1(), v), inline);
    var t2 := StepAsCoded(t1, Op.Update(New2(), v), inline);
    FirstNew(r, v, inline);
    SecondNew(t1, v, AsNode(r, true), inline);
    ThirdNew(t2, v, AsNode(r, true), inline);
    NextUpdate(Olds(v), Op.Update(New1(), v), Path([2], r), inline);
    NextUpdate(one, Op.Update(New2(), v), t1, inline);
    NextUpdate(one + [Do(Op.Update(New2(), v))], Op.Update(New3(), v), t2, inline);
  }

  /** What the deletion leaves in slot 2. */
  lemma TripleShrinks(v: Bytes, inline: Node -> bool)
    requires v != [] && !inline(AsNode(Deep(v), true))
    ensures Formed(Triple(v)) && IsTerminated([10, 16])
    ensures Deleted(Triple(v), [10, 16], inline).tree == Path([11, 12], Lost(Deep(v)))
    ensures Reaches(Triple(v), [10, 16], inline, BearingNode())
  {
    TripleFormed(v);
    var s := Triple(v).slots;
    assert [10, 16][1..] == [16];
    assert Deleted(s[10], [16], inline) == Effect(Blank(true), []) && Remove(s[10], [16], inline) == Blank(true);
    NothingRenewed(s, inline);
    OnlyOne(s[10 := Blank(true)], 11);
    assert [11] + [12] == [11, 12];
  }

  /** A branch with nodes in the slots 1 and 2 stays a branch when something is left in both. */
  lemma DeletedInSlot(t: Tree, i: nat, k: seq<int>, inline: Node -> bool)
    requires t.Branch? && Formed(t) && 1 <= i <= 2 && IsNode(t.slots[3 - i])
    requires IsTerminated(k) && IsTerminated([i] + k) && Deleted(t.slots[i], k, inline).tree != Blank(true)
    ensures var r, d := Deleted(t, [i] + k, inline).tree, Deleted(t.slots[i], k, inline);
            && Formed(r) && r.Branch? && |r.slots| == 17 && r.slots[i] == d.tree
            && r.slots[3 - i] == RenewAll(t.slots[3 - i], d.puts, inline) && IsNode(r.slots[3 - i])
    ensures Reaches(t.slots[i], k, inline, BearingNode()) ==> Reaches(t, [i] + k, inline, BearingNode())
    ensures Stale(t.slots[i], k, inline) ==> Stale(t, [i] + k, inline)
  {
    var d := Deleted(t.slots[i], k, inline);
    assert ([i] + k)[0] == i && ([i] + k)[1..] == k;
    DeletedFits(t.slots[i], k, inline);
    RenewAllFits(t.slots[3 - i], d.puts, inline);
    BothCount(RenewAllSlots(t.slots, d.puts, inline)[i := d.tree], 1, 2, inline);
    DeletedFits(t, [i] + k, inline);
  }

  lemma HiddenInSlot(t: Tree, v: Bytes)
    requires t.Branch? && Formed(t) && |t.slots| == 17 && t.slots[2] == Path([11, 12], Lost(Deep(v)))
    ensures GetAt(t, Old2()) == GetAt(t, Old3()) == []
  {
    TwinPaths();
    var p, q := [11, 12, 13, 16], [11, 12, 14, 16];
    assert [2, 11, 12, 13, 16][1..] == p && [2, 11, 12, 14, 16][1..] == q;
    AnswerBranch(t.slots, [2, 11, 12, 13, 16]);
    AnswerBranch(t.slots, [2, 11, 12, 14, 16]);
    AnswerPath([11, 12], Lost(Deep(v)), p);
    AnswerPath([11, 12], Lost(Deep(v)), q);
  }

  /** Values of 32 bytes or more: nothing is inline. */
  lemma TripleIsStored(v: Bytes, h: Hash)
    requires |v| >= 32 && HashWidth(h)
    ensures !Inline(AsNode(Triple(v), true), h) && !Inline(AsNode(Deep(v), true), h)
  {
    BranchIsStored(Triple(v).slots, 10, v, h);
    BranchIsStored(Deep(v).slots, 13, v, h);
  }

  /**
   Of six keys with long values, three are written, the trie is opened again, the other three are written, and one of
   the first is deleted: two others of the first answer "". Had the last three not been written, the branch would have
   been the one that was read back, and the deletion would have met nothing.
   */
  lemma TwinsHide(v: Bytes, h: Hash, inline: Node -> bool, t: Tree)
    requires |v| >= 32 && HashWidth(h) && inline == InlineTest(h) && t == Played(Twins(v) + [Delete1()], inline)
    ensures Contents(Updates(Twins(v) + [Delete1()])) ==
              map[Old2() := v, Old3() := v, New1() := v, New2() := v, New3() := v]
    ensures GetAt(t, Old2()) == GetAt(t, Old3()) == []
    ensures Meets(Played(Twins(v), inline), Delete1(), inline) && !NeverMeets(Twins(v) + [Delete1()], inline)
    ensures !Meets(Played(Olds(v), inline), Delete1(), inline)
  {
    var front := Twins(v);
    TripleIsStored(v, h);
    TwinsLeave(v, inline);
    TwinsMeet(Played(front, inline), v, inline);
    LastMeets(front, Op.Update(Old1(), []), inline);
    FiveLeft(v, Contents(Updates(front)));
    OldsLeave(v, inline);
    ReadBackMeetsNone(v, inline);
  }

  /** The last update of a run, which meets a node that bears keys. */
  lemma LastMeets(front: seq<Event>, op: Op, inline: Node -> bool)
    requires Meets(Played(front, inline), Do(op), inline)
    ensures Played(front + [Do(op)], inline) == StepAsCoded(Played(front, inline), op, inline)
    ensures Contents(Updates(front + [Do(op)])) == ContentsAfter(Contents(Updates(front)), Do(op))
    ensures !NeverMeets(front + [Do(op)], inline)
  {
    NextUpdate(front, op, Played(front, inline), inline);
    assert (front + [Do(op)])[..|front|] == front;
  }

  lemma FiveLeft(v: Bytes, m: map<Bytes, Bytes>)
    requires m == map[Old1() := v, Old2() := v, Old3() := v, New1() := v, New2() := v, New3() := v]
    ensures ContentsAfter(m, Delete1()) == map[Old2() := v, Old3() := v, New1() := v, New2() := v, New3() := v]
  {
    var rest := map[Old2() := v, Old3() := v, New1() := v, New2() := v, New3() := v];
    assert Old1() !in rest by { assert |Old1()| == 1 && Old1()[0] != New1()[0]; }
    assert m == rest[Old1() := v];
    assert m - {Old1()} == rest;
  }

  lemma TwinsMeet(t: Tree, v: Bytes, inline: Node -> bool)
    requires v != [] && !inline(AsNode(Deep(v), true))
    requires TwoSided(t, Triple(v), AsNode(Triple(v), true)) && t.slots[2] == Triple(v)
    ensures Meets(t, Delete1(), inline)
    ensures var r := StepAsCoded(t, Op.Update(Old1(), []), inline); GetAt(r, Old2()) == GetAt(r, Old3()) == []
  {
    TwinPaths();
    TripleShrinks(v, inline);
    assert [2] + [10, 16] == [2, 10, 16];
    DeletedInSlot(t, 2, [10, 16], inline);
    HiddenInSlot(StepAsCoded(t, Op.Update(Old1(), []), inline), v);
  }

  lemma ReadBackMeetsNone(v: Bytes, inline: Node -> bool)
    requires v != []
    ensures Formed(Path([2], Reload(Triple(v)))) && !Meets(Path([2], Reload(Triple(v))), Delete1(), inline)
  {
    TwinPaths();
    ReadBackStays(v, inline);
    assert [2, 10, 16][1..] == [10, 16];
  }

  lemma ReadBackStays(v: Bytes, inline: Node -> bool)
    requires v != []
    ensures Formed(Reload(Triple(v))) && IsTerminated([10, 16])
    ensures !Reaches(Reload(Triple(v)), [10, 16], inline, BearingNode())
  {
    TripleFormed(v);
    ReloadFormed(Triple(v));
    var s := Triple(v).slots;
    assert [10, 16][1..] == [16];
    assert Reload(s[10]) == Path([16], Reload(W(v)));
    assert Remove(Reload(s[10]), [16], inline) == Blank(true);
    ReloadedNeverCollapses(s, 10, inline);
  }

  // ---------- A branch that is left stale because of other keys ----------

  function Low1(): Bytes {
    [0x1a]
  }

  function Low2(): Bytes {
    [0x1b]
  }

  function High1(): Bytes {
    [0x2a]
  }

  function High2(): Bytes {
    [0x2b]
  }

  function High3(): Bytes {
    [0x2c]
  }

  function Duo(v: Bytes): Tree {
    Branch(Blanks(SLOTS)[10 := Leaf(v)][11 := Leaf(v)])
  }

  function Trio(v: Bytes): Tree {
    Branch(Blanks(SLOTS)[10 := Leaf(v)][11 := Leaf(v)][12 := Leaf(v)])
  }

  /** Three keys are written, and the trie is opened again. */
  function Highs(v: Bytes): seq<Event> {
    [Do(Op.Update(High1(), v))] + [Do(Op.Update(High2(), v))] + [Do(Op.Update(High3(), v))] + [Reopen]
  }

  /** Then two that are like two of them below their first nibble, and the third is deleted. */
  function Evened(v: Bytes): seq<Event> {
    Highs(v) + [Do(Op.Update(Low1(), v))] + [Do(Op.Update(Low2(), v))] + [Do(Op.Update(High3(), []))]
  }

  lemma TrioPaths()
    ensures KeyPath(High1()) == [2, 10, 16] && KeyPath(High2()) == [2, 11, 16] && KeyPath(High3()) == [2, 12, 16]
    ensures KeyPath(Low1()) == [1, 10, 16] && KeyPath(Low2()) == [1, 11, 16]
  {}

  lemma PlaceDuo(v: Bytes)
    requires v != []
    ensures Formed(One(v)) && IsTerminated([11, 16]) && Place(One(v), [11, 16], W(v)) == Duo(v)
    ensures Formed(Path([2, 10, 16], W(v))) && IsTerminated([2, 11, 16])
    ensures Place(Path([2, 10, 16], W(v)), [2, 11, 16], W(v)) == Path([2], Duo(v))
  {
    var k, key := [10, 16], [11, 16];
    assert MatchLength(key, k) == 0;
    assert k[1..] == [16] && key[1..] == [16] && key[..0] == [];
    var l, long := [2, 10, 16], [2, 11, 16];
    assert l[1..] == k && long[1..] == key && MatchLength(long, l) == 1;
    assert l[2..] == [16] && long[2..] == [16] && long[..1] == [2];
  }

  lemma PlaceTrio(v: Bytes)
    requires v != []
    ensures Formed(Duo(v)) && IsTerminated([12, 16]) && Place(Duo(v), [12, 16], W(v)) == Trio(v)
    ensures Formed(Path([2], Duo(v))) && IsTerminated([2, 12, 16])
    ensures Place(Path([2], Duo(v)), [2, 12, 16], W(v)) == Path([2], Trio(v))
  {
    assert [12, 16][1..] == [16];
    assert Duo(v).slots[12 := Leaf(v)] == Trio(v).slots;
    assert [2] + [12, 16] == [2, 12, 16];
    UnderTwo(Duo(v), [12, 16], v);
  }

  lemma TrioFormed(v: Bytes)
    requires |v| >= 2
    ensures Formed(Trio(v)) && Formed(Duo(v)) && Fresh(Duo(v))
    ensures forall i :: 0 <= i < 17 ==> ReloadAll(Trio(v).slots)[i] == if 10 <= i <= 12 then Leaf(v) else Blank(false)
  {
    var s, d := Trio(v).slots, Duo(v).slots;
    forall i | 0 <= i < 17
      ensures Formed(s[i]) && Formed(d[i]) && Fresh(d[i]) && (i == 16 ==> s[i] == d[i] == Blank(true))
    {
      assert s[i] == if 10 <= i <= 12 then Leaf(v) else Blank(true);
      assert d[i] == if 10 <= i <= 11 then Leaf(v) else Blank(true);
    }
    forall i | 0 <= i < 17 ensures Reload(s[i]) == if 10 <= i <= 12 then Leaf(v) else Blank(false) {
      assert Reload(W(v)) == W(v) && Reload(Leaf(v)) == Leaf(v);
    }
  }

  lemma HighSteps(v: Bytes, inline: Node -> bool)
    requires |v| >= 2
    ensures StepAsCoded(Blank(true), Op.Update(High1(), v), inline) == Path([2, 10, 16], W(v))
    ensures Formed(Path([2, 10, 16], W(v))) && Formed(Path([2], Duo(v)))
    ensures StepAsCoded(Path([2, 10, 16], W(v)), Op.Update(High2(), v), inline) == Path([2], Duo(v))
    ensures StepAsCoded(Path([2], Duo(v)), Op.Update(High3(), v), inline) == Path([2], Trio(v))
  {
    TrioPaths();
    PlaceDuo(v);
    PlaceTrio(v);
    TrioFormed(v);
    FreshStep(Blank(true), Op.Update(High1(), v), inline);
    FreshStep(Path([2, 10, 16], W(v)), Op.Update(High2(), v), inline);
    FreshStep(Path([2], Duo(v)), Op.Update(High3(), v), inline);
  }

  lemma HighsLeave(v: Bytes, inline: Node -> bool)
    requires |v| >= 2
    ensures Played(Highs(v), inline) == Path([2], Reload(Trio(v)))
    ensures Contents(Updates(Highs(v))) == map[High1() := v, High2() := v, High3() := v]
  {
    HighSteps(v, inline);
    var one := [Do(Op.Update(High1(), v))];
    var two := one + [Do(Op.Update(High2(), v))];
    FirstUpdate(Op.Update(High1(), v), inline);
    NextUpdate(one, Op.Update(High2(), v), Path([2, 10, 16], W(v)), inline);
    NextUpdate(two, Op.Update(High3(), v), Path([2], Duo(v)), inline);
    OpenedAgain(two + [Do(Op.Update(High3(), v))], Path([2], Trio(v)), inline);
  }

  /** `x` in slot 1, and the branch of three as it was read back in slot 2. */
  predicate BesideTrio(t: Tree, x: Tree, v: Bytes) {
    t.Branch? && |t.slots| == 17 && Formed(t) && t.slots[1] == x && t.slots[2] == Reload(Trio(v))
  }

  lemma TrioStays(xs: seq<Tree>, v: Bytes, inline: Node -> bool)
    requires |v| >= 2 && AllFresh(xs) && forall i :: 0 <= i < |xs| ==> AsNode(xs[i], true) != AsNode(Trio(v), true)
    ensures RenewAll(Reload(Trio(v)), xs, inline) == Reload(Trio(v))
  {
    TrioFormed(v);
    ReloadKeepsWritten(Trio(v));
    RenewApart(ReloadAll(Trio(v).slots), xs, inline);
  }

  lemma FirstLow(v: Bytes, inline: Node -> bool)
    requires |v| >= 2
    ensures Formed(Path([2], Reload(Trio(v))))
    ensures BesideTrio(StepAsCoded(Path([2], Reload(Trio(v))), Op.Update(Low1(), v), inline), One(v), v)
  {
    TrioPaths();
    TrioFormed(v);
    ReloadFormed(Trio(v));
    assert [1] + [10, 16] == [1, 10, 16];
    FirstSide(Reload(Trio(v)), [10, 16], v, inline);
    TrioStays([One(v)], v, inline);
  }

  lemma DuoPuts(v: Bytes, inline: Node -> bool)
    requires v != []
    ensures Formed(One(v)) && IsTerminated([11, 16])
    ensures Inserted(One(v), [11, 16], W(v), inline) == Effect(Duo(v), [Leaf(v), Leaf(v), Duo(v)])
  {
    PlaceDuo(v);
    InsertedFresh(One(v), [11, 16], W(v), inline);
    var k, key := [10, 16], [11, 16];
    assert MatchLength(key, k) == 0 && k[1..] == [16] && key[1..] == [16] && key[..0] == [];
  }

  lemma SecondLow(t: Tree, v: Bytes, inline: Node -> bool)
    requires |v| >= 2 && BesideTrio(t, One(v), v)
    ensures BesideTrio(StepAsCoded(t, Op.Update(Low2(), v), inline), Duo(v), v)
  {
    SecondKey();
    DuoPuts(v, inline);
    DuoPutsBeside(v, inline);
    LowStep(t, One(v), Low2(), [11, 16], v, Effect(Duo(v), [Leaf(v), Leaf(v), Duo(v)]), inline);
  }

  lemma SecondKey()
    ensures KeyPath(Low2()) == [1] + [11, 16]
  {
    TrioPaths();
  }

  /** A key beside the branch of three, when its puts leave that alone. */
  lemma LowStep(t: Tree, x: Tree, key: Bytes, k: seq<int>, v: Bytes, r: Effect, inline: Node -> bool)
    requires v != [] && BesideTrio(t, x, v) && Formed(x) && Fresh(x) && IsTerminated(k) && KeyPath(key) == [1] + k
    requires Inserted(x, k, W(v), inline) == r
    requires RenewAll(Reload(Trio(v)), r.puts, inline) == Reload(Trio(v))
    ensures BesideTrio(StepAsCoded(t, Op.Update(key, v), inline), r.tree, v)
  {
    TrioIsNode(v);
    InsertedFresh(x, k, W(v), inline);
    NextSide(t, x, AsNode(Reload(Trio(v)), true), k, v, inline);
  }

  lemma TrioIsNode(v: Bytes)
    ensures IsNode(Reload(Trio(v)))
  {}

  lemma DuoPutsBeside(v: Bytes, inline: Node -> bool)
    requires |v| >= 2
    ensures RenewAll(Reload(Trio(v)), [Leaf(v), Leaf(v), Duo(v)], inline) == Reload(Trio(v))
  {
    DuoIsNotTrio(v);
    TrioFormed(v);
    assert Fresh(Leaf(v));
    TrioStays([Leaf(v), Leaf(v), Duo(v)], v, inline);
  }

  lemma DuoIsNotTrio(v: Bytes)
    ensures AsNode(Duo(v), true) != AsNode(Trio(v), true)
  {
    assert AsNodes(Duo(v).slots, true)[12] == AsNode(Blank(true), true);
    assert AsNodes(Trio(v).slots, true)[12] == AsNode(Leaf(v), true);
  }

  /** The branch that was read back, without its third key. */
  function ReadDuo(v: Bytes): Tree {
    Branch(ReloadAll(Trio(v).slots)[12 := Blank(true)])
  }

  /** A leaf is deleted from a branch of which two other slots count. */
  lemma LeafGone(q: seq<Tree>, i: nat, v: Bytes, inline: Node -> bool)
    requires Formed(Branch(q)) && i < 16 && q[i] == Leaf(v) && Counted(q[i := Blank(true)], 17) == -2
    ensures IsTerminated([i, 16])
    ensures var r := Branch(q[i := Blank(true)]); Deleted(Branch(q), [i, 16], inline) == Effect(r, [r])
    ensures Remove(q[i], [i, 16][1..], inline) == Blank(true)
  {
    assert [i, 16][1..] == [16];
    assert Deleted(q[i], [16], inline) == Effect(Blank(true), []);
    NothingRenewed(q, inline);
  }

  lemma TrioShrinks(v: Bytes, inline: Node -> bool)
    requires |v| >= 2
    ensures Formed(Reload(Trio(v))) && IsTerminated([12, 16])
    ensures Deleted(Reload(Trio(v)), [12, 16], inline) == Effect(ReadDuo(v), [ReadDuo(v)])
    ensures AsNode(ReadDuo(v), true) == AsNode(Duo(v), true)
  {
    TrioFormed(v);
    ReloadFormed(Trio(v));
    ReloadedNeverCollapses(Trio(v).slots, 12, inline);
    LeafGone(ReloadAll(Trio(v).slots), 12, v, inline);
    ReadDuoWritten(v);
  }

  lemma ReadDuoWritten(v: Bytes)
    requires |v| >= 2
    ensures AsNode(ReadDuo(v), true) == AsNode(Duo(v), true)
  {
    TrioFormed(v);
    var q, d := ReadDuo(v).slots, Duo(v).slots;
    forall i | 0 <= i < 17 ensures AsNode(q[i], true) == AsNode(d[i], true) {
      assert d[i] == if 10 <= i <= 11 then Leaf(v) else Blank(true);
    }
    assert AsNodes(q, true) == AsNodes(d, true);
  }

  /** Its put replaces the other branch, which is written alike: nothing is read again, yet its slots are. */
  lemma ThirdDeleted(t: Tree, v: Bytes, inline: Node -> bool)
    requires |v| >= 2 && BesideTrio(t, Duo(v), v) && !inline(AsNode(Duo(v), true))
    ensures var r := StepAsCoded(t, Op.Update(High3(), []), inline);
            r.Branch? && Formed(r) && |r.slots| == 17 && r.slots[1] == r.slots[2] == ReadDuo(v)
  {
    TrioPaths();
    TrioShrinks(v, inline);
    assert [2] + [12, 16] == [2, 12, 16];
    DeletedInSlot(t, 2, [12, 16], inline);
    assert SameStored(Duo(v), ReadDuo(v), inline);
    assert RenewAll(Duo(v), [ReadDuo(v)], inline) == ReadDuo(v);
  }

  lemma EvenedLeaves(v: Bytes, inline: Node -> bool)
    requires |v| >= 2 && !inline(AsNode(Duo(v), true))
    ensures var t := Played(Evened(v), inline);
            t.Branch? && |t.slots| == 17 && t.slots[1] == t.slots[2] == ReadDuo(v)
    ensures Contents(Updates(Evened(v))) == map[High1() := v, High2() := v, Low1() := v, Low2() := v]
  {
    HighsLeave(v, inline);
    var one := Highs(v) + [Do(Op.Update(Low1(), v))];
    var two := one + [Do(Op.Update(Low2(), v))];
    var t1 := StepAsCoded(Path([2], Reload(Trio(v))), Op.Update(Low1(), v), inline);
    var t2 := StepAsCoded(t1, Op.Update(Low2(), v), inline);
    FirstLow(v, inline);
    SecondLow(t1, v, inline);
    ThirdDeleted(t2, v, inline);
    NextUpdate(Highs(v), Op.Update(Low1(), v), Path([2], Reload(Trio(v))), inline);
    NextUpdate(one, Op.Update(Low2(), v), t1, inline);
    NextUpdate(two, Op.Update(High3(), []), t2, inline);
    FourLeft(v, Contents(Updates(two)));
  }

  lemma FourLeft(v: Bytes, m: map<Bytes, Bytes>)
    requires m == map[High1() := v, High2() := v, High3() := v, Low1() := v, Low2() := v]
    ensures m - {High3()} == map[High1() := v, High2() := v, Low1() := v, Low2() := v]
  {
    var rest := map[High1() := v, High2() := v, Low1() := v, Low2() := v];
    assert High3()[0] == 0x2c && High3() !in rest;
    assert m == rest[High3() := v];
  }

  lemma ReadDuoSlots(v: Bytes)
    requires |v| >= 2
    ensures Formed(ReadDuo(v))
    ensures forall i :: 0 <= i < 17 ==>
              ReadDuo(v).slots[i] == if 10 <= i <= 11 then Leaf(v) else Blank(i == 12)
  {
    TrioFormed(v);
    ReloadFormed(Trio(v));
  }

  /** The other branch no longer collapses. */
  lemma ReadDuoStays(v: Bytes, inline: Node -> bool)
    requires |v| >= 2
    ensures Formed(ReadDuo(v)) && IsTerminated([11, 16]) && Stale(ReadDuo(v), [11, 16], inline)
    ensures var r := Deleted(ReadDuo(v), [11, 16], inline).tree; r.Branch? && !Canonical(AsNode(r, true))
  {
    ReadDuoSlots(v);
    var q := ReadDuo(v).slots;
    assert Counts(q[11 := Blank(true)], 0) && Counts(q[11 := Blank(true)], 1);
    BothCount(q[11 := Blank(true)], 0, 1, inline);
    LeafGone(q, 11, v, inline);
    OneOccupied(q[11 := Blank(true)]);
  }

  lemma OneOccupied(q: seq<Tree>)
    requires |q| == 17 && forall i :: 0 <= i < 17 && i != 10 ==> q[i].Blank?
    ensures Amount(AsNodes(q, true), 17) >= -1 && !Canonical(AsNode(Branch(q), true))
  {
    var n := AsNodes(q, true);
    assert forall i :: 0 <= i < 17 && i != 10 ==> n[i].Empty?;
  }

  lemma NotCanonicalAbove(t: Tree, i: nat)
    requires t.Branch? && i < 16 && |t.slots| == 17 && t.slots[i].Branch? && !Canonical(AsNode(t.slots[i], true))
    ensures !Canonical(AsNode(t, true))
  {
    assert AsNodes(t.slots, true)[i] == AsNode(t.slots[i], true);
  }

  lemma LastDeleted(t: Tree, v: Bytes, inline: Node -> bool)
    requires |v| >= 2 && t.Branch? && Formed(t) && |t.slots| == 17 && t.slots[1] == t.slots[2] == ReadDuo(v)
    ensures LeavesStale(t, Do(Op.Update(Low2(), [])), inline)
    ensures !Canonical(AsNode(StepAsCoded(t, Op.Update(Low2(), []), inline), true))
  {
    TrioPaths();
    ReadDuoStays(v, inline);
    assert [1] + [11, 16] == [1, 11, 16];
    LastAbove(t, [11, 16], inline);
  }

  lemma LastAbove(t: Tree, k: seq<int>, inline: Node -> bool)
    requires t.Branch? && Formed(t) && |t.slots| == 17 && IsNode(t.slots[2])
    requires IsTerminated(k) && IsTerminated([1] + k) && Stale(t.slots[1], k, inline)
    requires var r := Deleted(t.slots[1], k, inline).tree; r.Branch? && !Canonical(AsNode(r, true))
    ensures Stale(t, [1] + k, inline) && !Canonical(AsNode(Deleted(t, [1] + k, inline).tree, true))
  {
    DeletedInSlot(t, 1, k, inline);
    NotCanonicalAbove(Deleted(t, [1] + k, inline).tree, 1);
  }

  /**
   Two keys are written after the trie was opened again, so that their branch is fresh; but the deletion of another key
   puts a branch that is written like theirs and was read back. When one of the two is then deleted, their branch stays,
   and the trie is not written as its content calls for; hence the root is another one (NodeRefs.RefInjective).
   */
  lemma EvenedIsStale(v: Bytes, h: Hash, inline: Node -> bool, events: seq<Event>)
    requires |v| >= 32 && HashWidth(h) && inline == InlineTest(h)
    requires events == Evened(v) + [Do(Op.Update(Low2(), []))]
    ensures Contents(Updates(events)) == map[High1() := v, High2() := v, Low1() := v]
    ensures AsNode(Played(events, inline), true) != Run(Updates(events))
    ensures LeavesStale(Played(Evened(v), inline), Do(Op.Update(Low2(), [])), inline) && !Steady(events, inline)
  {
    BranchIsStored(Duo(v).slots, 10, v, h);
    EvenedLeaves(v, inline);
    LastDeleted(Played(Evened(v), inline), v, inline);
    NextUpdate(Evened(v), Op.Update(Low2(), []), Played(Evened(v), inline), inline);
    ThreeLeft(v, Contents(Updates(Evened(v))));
    assert events[..|events| - 1] == Evened(v);
    RunHolds(Updates(events));
  }

  lemma ThreeLeft(v: Bytes, m: map<Bytes, Bytes>)
    requires m == map[High1() := v, High2() := v, Low1() := v, Low2() := v]
    ensures m - {Low2()} == map[High1() := v, High2() := v, Low1() := v]
  {
    var rest := map[High1() := v, High2() := v, Low1() := v];
    assert Low2()[0] == 0x1b && Low2() !in rest;
    assert m == rest[Low2() := v];
  }
}
