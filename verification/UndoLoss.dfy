/**
 An Undo that does not only undo: a key that was hidden before the Sync answers again.
 */
module UndoLoss {
  import opened ByteStrings
  import opened HexPrefix
  import opened Slices
  import opened Rlp
  import opened GoValues
  import opened PatriciaTree
  import opened TrieTheorems
  import opened CodedTree
  import opened CodedRight
  import opened Reading
  import opened SharedNodes
  import opened CodedRuns
  import opened NodeRefs
  import opened TrieViews
  import opened TrieCache
  import opened TrieSteps
  import opened TrieObject
  import opened TrieRuns
  import opened TrieLoss

  /** What the detour leaves of long values. */
  function Hidden(v: Bytes): Tree {
    Path([2, 3, 4], Lost(Fork(v)))
  }

  /** The same beside the key that was deleted. */
  function Beside(v: Bytes): Tree {
    Branch(Blanks(SLOTS)[2 := Path([3, 4], Lost(Fork(v)))][1 := Path([0, 16], W(v))])
  }

  function PutBack(v: Bytes): Op {
    Op.Update(Gone(), v)
  }

  function TakeOut(): Op {
    Op.Update(Gone(), [])
  }

  lemma DetourHides(v: Bytes, h: Hash)
    requires |v| >= 32 && HashWidth(h)
    ensures Played(Detour(v), InlineTest(h)) == Hidden(v) && Formed(Hidden(v))
    ensures GetAt(Hidden(v), Kept2()) == GetAt(Hidden(v), Kept3()) == []
  {
    SameButFor(v, InlineTest(h));
    ForkIsStored(v, h);
    HiddenFork(v);
  }

  lemma ForkFresh(v: Bytes)
    ensures Fresh(Fork(v))
  {
    var s := Fork(v).slots;
    forall i | 0 <= i < 17 ensures Fresh(s[i]) {
      assert s[i] == if i == 5 || i == 6 then Leaf(v) else Blank(true);
    }
  }

  /** The put of another leaf does not reach what hangs below the Go string. */
  lemma LeafBesideLost(v: Bytes, inline: Node -> bool)
    ensures RenewAll(Path([3, 4], Lost(Fork(v))), [Path([0, 16], W(v))], inline) == Path([3, 4], Lost(Fork(v)))
  {
    ForkFresh(v);
    var x := Path([0, 16], W(v));
    assert [3, 4] != [0, 16];
    RenewFresh(Fork(v), x, inline);
    assert Renew(Path([3, 4], Lost(Fork(v))), x, inline) == Path([3, 4], Lost(Fork(v)));
    assert [x][..0] == [];
  }

  lemma PutBackLeaves(v: Bytes, inline: Node -> bool)
    requires v != []
    ensures Formed(Hidden(v)) && StepAsCoded(Hidden(v), PutBack(v), inline) == Beside(v)
  {
    Paths();
    ForkFormed(v);
    var k, key := [2, 3, 4], [1, 0, 16];
    assert MatchLength(key, k) == 0 && k[1..] == [3, 4] && key[1..] == [0, 16] && key[..0] == [];
    assert New([0, 16], W(v)).puts == [Path([0, 16], W(v))];
    LeafBesideLost(v, inline);
  }

  /** The deletion returns the node that was there before, and puts it again. */
  lemma TakeOutLeaves(v: Bytes, inline: Node -> bool)
    requires v != [] && !inline(AsNode(Fork(v), true))
    ensures Formed(Beside(v)) && StepEffect(Beside(v), TakeOut(), inline) == Effect(Hidden(v), [Hidden(v)])
  {
    Paths();
    ForkFormed(v);
    var s := Beside(v).slots;
    assert [1, 0, 16][1..] == [0, 16];
    assert Deleted(s[1], [0, 16], inline) == Effect(Blank(true), []);
    NothingRenewed(s, inline);
    OnlyOne(s[1 := Blank(true)], 2);
    assert [2] + [3, 4] == [2, 3, 4];
  }

  lemma NoPanic(v: Bytes, room: nat)
    requires v != []
    ensures Formed(Beside(v)) && !Panics(Beside(v), TakeOut(), room)
  {
    Paths();
    ForkFormed(v);
    assert [1, 0, 16][1..] == [0, 16];
  }

  lemma HiddenNode(v: Bytes)
    ensures AsNode(Hidden(v), true) == Short([2, 3, 4], AsNode(Fork(v), true)) && AsNode(Fork(v), true).Full?
  {
    assert Fork(v).Branch?;
    assert AsNode(Lost(Fork(v)), true) == AsNode(Fork(v), true);
  }

  /** A node above a stored one is stored. */
  lemma HiddenIsStored(v: Bytes, h: Hash)
    requires |v| >= 32 && HashWidth(h)
    ensures Keyed(AsNode(Hidden(v), true)) && !Inline(AsNode(Hidden(v), true), h)
  {
    ForkFormed(v);
    FormedIsKeyed(Hidden(v));
    FormedIsKeyed(Fork(v));
    ForkIsStored(v, h);
    HiddenNode(v);
    var n, f := AsNode(Hidden(v), true), AsNode(Fork(v), true);
    assert Ref(f, h) == Str(h(Encoded(NodeItem(f, h))));
    ElementShorter([Str(Compact([2, 3, 4])), Ref(f, h)], 1);
    assert NodeItem(n, h) == List([Str(Compact([2, 3, 4])), Ref(f, h)]);
  }

  /** What shows both keys answers both. */
  lemma SeenAgain(v: Bytes, t: Tree)
    requires v != [] && Formed(t) && StillSeen(Two(v), t)
    ensures GetAt(t, Kept2()) == GetAt(t, Kept3()) == v
  {
    ForkFormed(v);
    ForkAnswers(v);
    BothBelow(Fork(v));
    AnswerStill(Two(v), t, KeyPath(Kept2()));
    AnswerStill(Two(v), t, KeyPath(Kept3()));
  }

  /** When the Sync empties the cache, the keys answer at once. */
  lemma EmptiedShows(v: Bytes, h: Hash, t: Tree)
    requires |v| >= 32 && HashWidth(h) && Formed(t) && StillSeen(Refetch(Hidden(v), InlineTest(h)), t)
    ensures GetAt(t, Kept2()) == GetAt(t, Kept3()) == v
  {
    HiddenIsStored(v, h);
    var r := Path([2, 3, 4], Reload(Fork(v)));
    assert Reload(Lost(Fork(v))) == Reload(Fork(v));
    assert Reload(Hidden(v)) == r;
    assert !InlineTest(h)(AsNode(Hidden(v), true));
    ForkFormed(v);
    ReloadFormed(Fork(v));
    ReadBackFork(v);
    Paths();
    AnswerStill(r, t, KeyPath(Kept2()));
    AnswerStill(r, t, KeyPath(Kept3()));
  }

  method PutAndTakeOut(t: Trie, v: Bytes, room: nat, ghost states: set<Node>)
    requires t.Valid() && |v| >= 32 && Within(t, states)
    requires Closed(states, [PutBack(v), TakeOut()], t.cache.known, t.cache.hash)
    modifies t`root, t`tree, t.cache
    ensures t.Valid()
    ensures old(t.tree) == Hidden(v) ==> t.tree == Hidden(v) && t.JustPut(t.root)
  {
    ghost var before, ops, inline := t.tree, [PutBack(v), TakeOut()], InlineTest(t.cache.hash);
    UpdateIn(t, PutBack(v), room, ops, states);
    ghost var between := t.tree;
    if before == Hidden(v) {
      PutBackLeaves(v, inline);
      ForkIsStored(v, t.cache.hash);
      TakeOutLeaves(v, inline);
      NoPanic(v, room);
    }
    UpdateIn(t, TakeOut(), room, ops, states);
  }

  /** A root that is stored is kept as a hash. */
  lemma RootIsHash(v: View, g: GoValue, x: Bytes, known: set<Item>, h: Hash)
    requires |x| >= 32 && HashWidth(h) && Fits(v, known, h) && Shows(v, g, Hidden(x), known, h)
    ensures g == GoBytes(HashOf(NodeItem(AsNode(Hidden(x), true), h), h))
    ensures NodeItem(AsNode(Hidden(x), true), h) in known
  {
    HiddenIsStored(x, h);
    ForkFormed(x);
    NodeKinds(v, g, Hidden(x), known, h);
    OpenNode(v, g, AsNode(Hidden(x), true), known, h);
  }

  /** The root is the one of the last Sync, and its node was put since. */
  ghost predicate PutAgain(t: Trie, v: Bytes)
    reads t, t.cache
  {
    t.prevTree == t.tree == Hidden(v) && t.JustPut(t.root)
  }

  lemma RootsAgree(t: Trie, v: Bytes)
    requires t.Valid() && |v| >= 32 && PutAgain(t, v)
    ensures t.root == t.prevRoot == GoBytes(HashOf(NodeItem(AsNode(Hidden(v), true), t.cache.hash), t.cache.hash))
    ensures NodeItem(AsNode(Hidden(v), true), t.cache.hash) in t.cache.known
    ensures t.root.b in t.cache.db.data && t.root.b in t.cache.nodes && t.cache.nodes[t.root.b].dirty
  {
    ViewFits(t.cache.nodes, t.cache.db.data, t.cache.known, t.cache.hash);
    RootIsHash(t.cache.Seen(), t.root, v, t.cache.known, t.cache.hash);
    RootIsHash(t.prevSeen, t.prevRoot, v, t.cache.known, t.cache.hash);
    HiddenIsStored(v, t.cache.hash);
  }

  /** Then Undo drops it, and it is read again. */
  lemma ReadFromRoot(prev: View, w: View, data: map<Bytes, Bytes>, g: GoValue, v: Bytes, known: set<Item>, h: Hash)
    requires |v| >= 32 && Fits(prev, known, h) && Fits(w, known, h) && Reread(prev, w, known, h) && Sane(data, known, h)
    requires Shows(prev, g, Hidden(v), known, h) && Points(w, g, AsNode(Hidden(v), true), known, h)
    requires g.GoBytes? && g.b in data && g.b in w && w[g.b] == ValueOf(data[g.b])
    ensures StillSeen(Two(v), Now(w, g, AsNode(Hidden(v), true)))
  {
    var x := NodeItem(AsNode(Hidden(v), true), h);
    RootIsHash(prev, g, v, known, h);
    ValueOfKnown(x, known, h);
    ForkFormed(v);
    ForkIsStored(v, h);
    ReadAgain(prev, w, g, [2, 3, 4], Fork(v), known, h);
  }

  method UndoRoot(t: Trie, v: Bytes)
    requires t.Valid() && |v| >= 32
    modifies t, t.cache
    ensures t.Valid() && StillSeen(old(t.prevTree), t.tree)
    ensures old(PutAgain(t, v)) ==> StillSeen(Two(v), t.tree)
  {
    ghost var again, prevSeen := PutAgain(t, v), t.prevSeen;
    if again {
      RootsAgree(t, v);
    }
    t.Undo();
    if again {
      ViewFits(t.cache.nodes, t.cache.db.data, t.cache.known, t.cache.hash);
      ReadFromRoot(prevSeen, t.cache.Seen(), t.cache.db.data, t.root, v, t.cache.known, t.cache.hash);
    }
  }

  /**
   The detour, a Sync, an update and a deletion of one more key, and an Undo. Before the Sync the two keys that are
   meant to stay answer ""; after the Undo they answer with their value, because the deletion put the node above them
   again, Undo drops it, and it is read from the database.
   */
  method UndoShows(t: Trie, v: Bytes, room: nat, ghost states: set<Node>)
    requires t.Valid() && |v| >= 32 && t.tree == Played(Detour(v), InlineTest(t.cache.hash)) && Within(t, states)
    requires Closed(states, [PutBack(v), TakeOut()], t.cache.known, t.cache.hash)
    modifies t, t.cache, t.cache.db
    ensures t.Valid()
    ensures old(GetAt(t.tree, Kept2())) == old(GetAt(t.tree, Kept3())) == []
    ensures GetAt(t.tree, Kept2()) == GetAt(t.tree, Kept3()) == v
  {
    DetourHides(v, t.cache.hash);
    ghost var emptied := SyncAndUpdate(t, v, room, states);
    UndoRoot(t, v);
    BothSeen(emptied, v, t.cache.hash, t.tree);
  }

  /** The Sync and the two updates. */
  method SyncAndUpdate(t: Trie, v: Bytes, room: nat, ghost states: set<Node>) returns (ghost emptied: bool)
    requires t.Valid() && |v| >= 32 && t.tree == Hidden(v) && Within(t, states)
    requires Closed(states, [PutBack(v), TakeOut()], t.cache.known, t.cache.hash)
    modifies t, t.cache, t.cache.db
    ensures t.Valid() && Formed(old(t.tree))
    ensures if emptied then t.prevTree == Refetch(Hidden(v), InlineTest(t.cache.hash)) else PutAgain(t, v)
  {
    RefetchFormed(t.tree, InlineTest(t.cache.hash));
    emptied := t.Sync();
    PutAndTakeOut(t, v, room, states);
  }

  lemma BothSeen(emptied: bool, v: Bytes, h: Hash, t: Tree)
    requires |v| >= 32 && HashWidth(h) && Formed(t)
    requires if emptied then StillSeen(Refetch(Hidden(v), InlineTest(h)), t) else StillSeen(Two(v), t)
    ensures GetAt(t, Kept2()) == GetAt(t, Kept3()) == v
  {
    if emptied {
      EmptiedShows(v, h, t);
    } else {
      SeenAgain(v, t);
    }
  }
}
