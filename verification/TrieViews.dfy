/**
 The tree behind a Go value: what the trie sees when it follows references through a cache and a database.
 */
module TrieViews {
  import opened ByteStrings
  import opened HexPrefix
  import opened Rlp
  import opened GoValues
  import opened PatriciaTree
  import opened CodedTree
  import opened Reading
  import opened SharedNodes
  import opened SharedAnswers
  import opened NodeRefs

  /** What the cache would answer for each key it or the database has. */
  type View = map<Bytes, GoValue>

  function HashOf(x: Item, h: Hash): Bytes {
    h(Encoded(x))
  }

  /** Known nodes are found under their hash, whatever the kinds of their slots. */
  ghost predicate Fits(v: View, known: set<Item>, h: Hash) {
    && NoCollisions(known, h)
    && forall x :: x in known && HashOf(x, h) in v ==> Plain(v[HashOf(x, h)]) == x && Whole(v[HashOf(x, h)])
  }

  /** Every node of `t` that is stored by hash is known and has its hash among `keys`. */
  ghost predicate Held(t: Node, keys: set<Bytes>, known: set<Item>, h: Hash)
    requires Keyed(t)
    decreases t
  {
    match t
    case Empty => true
    case Value(_) => true
    case Short(_, c) => StoredIn(t, keys, known, h) && Held(c, keys, known, h)
    case Full(s) => StoredIn(t, keys, known, h) && forall i :: 0 <= i < |s| ==> Held(s[i], keys, known, h)
  }

  ghost predicate StoredIn(t: Node, keys: set<Bytes>, known: set<Item>, h: Hash)
    requires Inner(t) && Keyed(t)
  {
    !Inline(t, h) ==> NodeItem(t, h) in known && HashOf(NodeItem(t, h), h) in keys
  }

  lemma {:induction false} HeldGrows(t: Node, keys: set<Bytes>, more: set<Bytes>, known: set<Item>, h: Hash)
    requires Keyed(t) && Held(t, keys, known, h) && keys <= more
    ensures Held(t, more, known, h)
    decreases t
  {
    match t
    case Empty =>
    case Value(_) =>
    case Short(_, c) => HeldGrows(c, keys, more, known, h);
    case Full(s) =>
      forall i | 0 <= i < |s| ensures Held(s[i], more, known, h) {
        HeldGrows(s[i], keys, more, known, h);
      }
  }

  /** A node below which everything is held. */
  ghost predicate ChildrenHeld(t: Node, keys: set<Bytes>, known: set<Item>, h: Hash)
    requires Inner(t) && Keyed(t)
  {
    match t
    case Short(_, c) => Held(c, keys, known, h)
    case Full(s) => forall i :: 0 <= i < |s| ==> Held(s[i], keys, known, h)
  }

  lemma HeldBelow(t: Node, keys: set<Bytes>, more: set<Bytes>, known: set<Item>, h: Hash)
    requires Inner(t) && Keyed(t) && ChildrenHeld(t, keys, known, h) && keys <= more && StoredIn(t, more, known, h)
    ensures Held(t, more, known, h)
  {
    match t
    case Short(_, c) => HeldGrows(c, keys, more, known, h);
    case Full(s) =>
      forall i | 0 <= i < |s| ensures Held(s[i], more, known, h) {
        HeldGrows(s[i], keys, more, known, h);
      }
  }

  /** The value is written as a reference to `n`, all nodes of which can be found. */
  ghost predicate Points(v: View, g: GoValue, n: Node, known: set<Item>, h: Hash) {
    Keyed(n) && Whole(g) && Plain(g) == Ref(n, h) && Held(n, v.Keys, known, h)
  }

  // ---------- The tree that is seen ----------

  /** The slots behind a reference, in whatever kind it is kept. */
  function Behind(v: View, g: GoValue): GoValue {
    if g.GoList? then g else if StrOf(g) in v then v[StrOf(g)] else GoNil
  }

  function Kept(g: GoValue, t: Tree): Tree {
    if g.GoString? then Lost(t) else t
  }

  /** The tree written as `n`, with the kinds that are found by following `g`. */
  function Now(v: View, g: GoValue, n: Node): Tree
    decreases n, 1
  {
    match n
    case Empty => Blank(g.GoString?)
    case Value(w) => Word(w, g.GoByte?)
    case Short(k, c) => Kept(g, Path(k, Now(v, ItemAt(Behind(v, g), 1), c)))
    case Full(s) => if s == [] then Hole else Kept(g, Branch(NowAll(v, Behind(v, g), s)))
  }

  function NowAll(v: View, x: GoValue, s: seq<Node>): (r: seq<Tree>)
    ensures |r| == |s| && forall i :: 0 <= i < |s| ==> r[i] == Now(v, ItemAt(x, i), s[i])
    decreases s, 0
  {
    if s == [] then [] else
      var l := |s| - 1;
      NowAll(v, x, s[..l]) + [Now(v, ItemAt(x, l), s[l])]
  }

  /** Slot by slot. */
  lemma NowAllIs(v: View, x: GoValue, s: seq<Node>, r: seq<Tree>)
    requires |r| == |s| && forall i :: 0 <= i < |s| ==> Now(v, ItemAt(x, i), s[i]) == r[i]
    ensures NowAll(v, x, s) == r
  {}

  ghost predicate Shows(v: View, g: GoValue, t: Tree, known: set<Item>, h: Hash) {
    Points(v, g, AsNode(t, true), known, h) && Now(v, g, AsNode(t, true)) == t
  }

  /** Kinds do not change what is written. */
  lemma {:induction false} NowWrites(v: View, g: GoValue, n: Node)
    ensures AsNode(Now(v, g, n), true) == n
    decreases n, 1
  {
    match n
    case Short(k, c) =>
      NowWrites(v, ItemAt(Behind(v, g), 1), c);
      KeptShort(g, k, Now(v, ItemAt(Behind(v, g), 1), c), c);
    case Full(s) =>
      NowAllWrites(v, Behind(v, g), s);
      KeptFull(g, NowAll(v, Behind(v, g), s), s);
    case _ =>
  }

  lemma KeptShort(g: GoValue, k: seq<int>, t: Tree, c: Node)
    requires AsNode(t, true) == c
    ensures AsNode(Kept(g, Path(k, t)), true) == Short(k, c)
  {}

  lemma KeptFull(g: GoValue, ts: seq<Tree>, s: seq<Node>)
    requires AsNodes(ts, true) == s
    ensures AsNode(Kept(g, Branch(ts)), true) == Full(s)
  {}

  lemma {:induction false} NowAllWrites(v: View, x: GoValue, s: seq<Node>)
    ensures AsNodes(NowAll(v, x, s), true) == s
    decreases s, 0
  {
    forall i | 0 <= i < |s| ensures AsNode(NowAll(v, x, s)[i], true) == s[i] {
      NowWrites(v, ItemAt(x, i), s[i]);
    }
  }

  lemma NowShows(v: View, g: GoValue, n: Node, known: set<Item>, h: Hash)
    requires Points(v, g, n, known, h)
    ensures Shows(v, g, Now(v, g, n), known, h) && AsNode(Now(v, g, n), true) == n
  {
    NowWrites(v, g, n);
  }

  lemma {:induction false} NowFormed(v: View, g: GoValue, t: Tree)
    requires Formed(t) || WordSlot(t)
    ensures Formed(t) ==> Formed(Now(v, g, AsNode(t, true)))
    ensures WordSlot(t) ==> WordSlot(Now(v, g, AsNode(t, true)))
    ensures IsNode(t) ==> var r := Now(v, g, AsNode(t, true)); IsNode(r) || (r.Lost? && IsNode(r.t))
    decreases t
  {
    match t
    case Path(k, c) => NowFormed(v, ItemAt(Behind(v, g), 1), c);
    case Branch(s) =>
      var x := Behind(v, g);
      forall i | 0 <= i < 17
        ensures if i == 16 then WordSlot(Now(v, ItemAt(x, i), AsNode(s[i], true)))
                else Formed(Now(v, ItemAt(x, i), AsNode(s[i], true)))
      {
        NowFormed(v, ItemAt(x, i), s[i]);
      }
    case Lost(u) => NowFormed(v, g, u);
    case _ =>
  }

  /** The tree written as `t`, as it is now seen. */
  lemma NowStands(v: View, g: GoValue, t: Tree, known: set<Item>, h: Hash)
    requires Formed(t) && Points(v, g, AsNode(t, true), known, h)
    ensures var r := Now(v, g, AsNode(t, true));
            Formed(r) && Shows(v, g, r, known, h) && AsNode(r, true) == AsNode(t, true)
  {
    NowShows(v, g, AsNode(t, true), known, h);
    NowFormed(v, g, t);
  }

  // ---------- Following a reference ----------

  /** What is behind a reference to a node is written as that node. */
  lemma OpenNode(v: View, g: GoValue, n: Node, known: set<Item>, h: Hash)
    requires Fits(v, known, h) && Points(v, g, n, known, h) && Inner(n)
    ensures var x := Behind(v, g); x.GoList? && Whole(x) && Plain(x) == NodeItem(n, h)
    ensures !g.GoList? ==> StrOf(g) in v && StrOf(g) == HashOf(NodeItem(n, h), h) && |StrOf(g)| == 32 && !g.GoByte?
    ensures !g.GoList? ==> NodeItem(n, h) in known
  {
    StrKeepsBytes(g);
    if !Inline(n, h) {
      assert Ref(n, h) == Str(HashOf(NodeItem(n, h), h));
      StrKeepsBytes(v[StrOf(g)]);
    }
  }

  lemma OpenShort(v: View, g: GoValue, k: seq<int>, c: Node, known: set<Item>, h: Hash)
    requires Fits(v, known, h) && Points(v, g, Short(k, c), known, h)
    ensures var x := Behind(v, g);
            && x.GoList? && |x.items| == 2 && Whole(x) && Whole(x.items[0])
            && IsPath(k) && StrOf(x.items[0]) == Compact(k) && Plain(x.items[0]) == Str(Compact(k))
            && Points(v, x.items[1], c, known, h)
  {
    OpenNode(v, g, Short(k, c), known, h);
    var x := Behind(v, g);
    assert PlainAll(x.items) == [Str(Compact(k)), Ref(c, h)];
    assert Plain(x.items[0]) == PlainAll(x.items)[0] && Plain(x.items[1]) == PlainAll(x.items)[1];
    StrKeepsBytes(x.items[0]);
  }

  lemma OpenFull(v: View, g: GoValue, s: seq<Node>, known: set<Item>, h: Hash)
    requires Fits(v, known, h) && Points(v, g, Full(s), known, h)
    ensures var x := Behind(v, g);
            && x.GoList? && |x.items| == |s| && Whole(x)
            && (forall i :: 0 <= i < |s| ==> Points(v, x.items[i], s[i], known, h))
  {
    OpenNode(v, g, Full(s), known, h);
    var x := Behind(v, g);
    assert PlainAll(x.items) == SlotRefs(s, h);
    forall i | 0 <= i < |s| ensures Points(v, x.items[i], s[i], known, h) {
      assert Plain(x.items[i]) == PlainAll(x.items)[i];
    }
  }

  /** The same for the tree that is seen. */
  lemma ShownPath(v: View, g: GoValue, k: seq<int>, c: Tree, known: set<Item>, h: Hash)
    requires Fits(v, known, h) && Shows(v, g, Path(k, c), known, h)
    ensures var x := Behind(v, g);
            && x.GoList? && |x.items| == 2 && Whole(x) && Whole(x.items[0])
            && IsPath(k) && StrOf(x.items[0]) == Compact(k) && Plain(x.items[0]) == Str(Compact(k))
            && Shows(v, x.items[1], c, known, h) && !g.GoString?
  {
    OpenShort(v, g, k, AsNode(c, true), known, h);
  }

  lemma ShownBranch(v: View, g: GoValue, s: seq<Tree>, known: set<Item>, h: Hash)
    requires Fits(v, known, h) && Shows(v, g, Branch(s), known, h) && s != []
    ensures var x := Behind(v, g);
            && x.GoList? && |x.items| == |s| && Whole(x) && !g.GoString?
            && (forall i :: 0 <= i < |s| ==> Shows(v, x.items[i], s[i], known, h))
  {
    var n := AsNodes(s, true);
    OpenFull(v, g, n, known, h);
    var x := Behind(v, g);
    assert NowAll(v, x, n) == s;
    forall i | 0 <= i < |s| ensures Shows(v, x.items[i], s[i], known, h) {
      assert NowAll(v, x, n)[i] == s[i];
    }
  }

  /** A hash kept as a Go string is one. */
  lemma ShownLost(v: View, g: GoValue, u: Tree, known: set<Item>, h: Hash)
    requires Fits(v, known, h) && Shows(v, g, Lost(u), known, h) && IsNode(u)
    ensures g.GoString? && |g.s| == 32
  {
    OpenNode(v, g, AsNode(u, true), known, h);
  }

  lemma ShownBlank(v: View, g: GoValue, b: bool, known: set<Item>, h: Hash)
    requires Shows(v, g, Blank(b), known, h)
    ensures g == if b then GoString([]) else GoBytes([])
  {
    StrKeepsBytes(g);
  }

  lemma ShownHole(v: View, g: GoValue, known: set<Item>, h: Hash)
    requires Shows(v, g, Hole, known, h)
    ensures g == GoList([])
  {
    assert Encoded(List([])) == [0xc0];
    assert PlainAll(g.items) == [];
  }

  lemma ShownWord(v: View, g: GoValue, w: Bytes, low: bool, known: set<Item>, h: Hash)
    requires Shows(v, g, Word(w, low), known, h)
    ensures StrOf(g) == w && !g.GoList? && g.GoByte? == low
  {
    StrKeepsBytes(g);
  }

  // ---------- A view that says more, and one with other kinds ----------

  ghost predicate Extends(v: View, w: View) {
    forall k :: k in v ==> k in w && w[k] == v[k]
  }

  lemma {:induction false} NowExtends(v: View, w: View, g: GoValue, n: Node, known: set<Item>, h: Hash)
    requires Fits(v, known, h) && Points(v, g, n, known, h) && Extends(v, w)
    ensures Points(w, g, n, known, h) && Now(w, g, n) == Now(v, g, n)
    decreases n
  {
    HeldGrows(n, v.Keys, w.Keys, known, h);
    match n
    case Short(k, c) =>
      OpenShort(v, g, k, c, known, h);
      OpenNode(v, g, n, known, h);
      NowExtends(v, w, Behind(v, g).items[1], c, known, h);
    case Full(s) =>
      OpenFull(v, g, s, known, h);
      OpenNode(v, g, n, known, h);
      var x := Behind(v, g);
      forall i | 0 <= i < |s| ensures Now(w, ItemAt(x, i), s[i]) == NowAll(v, x, s)[i] {
        NowExtends(v, w, x.items[i], s[i], known, h);
      }
      NowAllIs(w, x, s, NowAll(v, x, s));
    case _ =>
  }

  /** What is shown stays shown. */
  lemma ShowsExtends(v: View, w: View, g: GoValue, t: Tree, known: set<Item>, h: Hash)
    requires Fits(v, known, h) && Shows(v, g, t, known, h) && Extends(v, w)
    ensures Shows(w, g, t, known, h)
  {
    NowExtends(v, w, g, AsNode(t, true), known, h);
  }

  /** A key under which a view has a known node. */
  ghost predicate IsStored(key: Bytes, v: View, known: set<Item>, h: Hash) {
    key in v && exists x :: x in known && key == HashOf(x, h)
  }

  // ---------- The slots of a node ----------

  /** The slots that are read for a node; nothing for anything else. */
  ghost predicate SlotsShown(v: View, x: GoValue, t: Tree, known: set<Item>, h: Hash) {
    match t
    case Path(k, c) =>
      && x.GoList? && |x.items| == 2 && IsPath(k) && StrOf(x.items[0]) == Compact(k)
      && Shows(v, x.items[1], c, known, h)
    case Branch(s) => AllShown(v, x, s, known, h) && |s| == 17
    case _ => Len(x) == 0
  }

  /** The slots of a branch as they were read. */
  ghost predicate AllShown(v: View, x: GoValue, s: seq<Tree>, known: set<Item>, h: Hash) {
    x.GoList? && |x.items| == |s| && Whole(x) && forall i :: 0 <= i < |s| ==> Shows(v, x.items[i], s[i], known, h)
  }

  lemma ShownSlots(v: View, g: GoValue, t: Tree, known: set<Item>, h: Hash)
    requires Fits(v, known, h) && Shows(v, g, t, known, h) && IsNode(t) && Formed(t)
    ensures SlotsShown(v, Behind(v, g), t, known, h) && !g.GoString?
  {
    match t
    case Path(k, c) => ShownPath(v, g, k, c, known, h);
    case Branch(s) => ShownBranch(v, g, s, known, h);
  }

  /** What is shown behind slots. */
  lemma BehindSlots(v: View, g: GoValue, t: Tree, known: set<Item>, h: Hash)
    requires IsNode(t) && Formed(t) && SlotsShown(v, Behind(v, g), t, known, h) && !g.GoString?
    ensures Now(v, g, AsNode(t, true)) == t
  {
    match t
    case Path(k, c) =>
    case Branch(s) =>
      var x := Behind(v, g);
      assert NowAll(v, x, AsNodes(s, true)) == s;
  }

  // ---------- A put ----------

  function NodeSize(n: Node): nat
    decreases n, 1
  {
    match n
    case Short(_, c) => 1 + NodeSize(c)
    case Full(s) => 1 + SlotsSize(s)
    case _ => 0
  }

  function SlotsSize(s: seq<Node>): nat
    decreases s, 0
  {
    if s == [] then 0 else NodeSize(s[0]) + SlotsSize(s[1..])
  }

  lemma {:induction false} SlotSmaller(s: seq<Node>, i: nat)
    requires i < |s|
    ensures NodeSize(s[i]) <= SlotsSize(s)
  {
    if i > 0 {
      SlotSmaller(s[1..], i - 1);
    }
  }

  /** A put does not reach what is smaller than the node that is put. */
  lemma {:induction false} RenewSmaller(t: Tree, x: Tree, inline: Node -> bool)
    requires NodeSize(AsNode(t, true)) < NodeSize(AsNode(x, true))
    ensures Renew(t, x, inline) == t
    decreases t
  {
    match t
    case Path(k, c) => RenewSmaller(c, x, inline);
    case Branch(s) =>
      forall i | 0 <= i < |s| ensures Renew(s[i], x, inline) == s[i] {
        SlotSmaller(AsNodes(s, true), i);
        RenewSmaller(s[i], x, inline);
      }
      assert RenewSlots(s, x, inline) == s;
    case Lost(u) => RenewSmaller(u, x, inline);
    case _ =>
  }

  /** A node that is stored, with its slots, and the tree they show. */
  ghost predicate Storable(v: View, g: GoValue, x: Tree, known: set<Item>, h: Hash) {
    && IsNode(x) && Formed(x) && Keyed(AsNode(x, true)) && !Inline(AsNode(x, true), h)
    && NodeItem(AsNode(x, true), h) in known && Known(AsNode(x, true), known, h)
    && g.GoList? && Whole(g) && Plain(g) == NodeItem(AsNode(x, true), h) && SlotsShown(v, g, x, known, h)
  }

  function With(v: View, g: GoValue, h: Hash): View {
    v[HashOf(Plain(g), h) := g]
  }

  lemma WithFits(v: View, g: GoValue, x: Tree, known: set<Item>, h: Hash)
    requires Fits(v, known, h) && Storable(v, g, x, known, h)
    ensures Fits(With(v, g, h), known, h)
  {
    forall y | y in known && HashOf(y, h) in With(v, g, h)
      ensures Plain(With(v, g, h)[HashOf(y, h)]) == y && Whole(With(v, g, h)[HashOf(y, h)])
    {
      if HashOf(y, h) == HashOf(Plain(g), h) {
        SameHashSameItem(y, Plain(g), known, h);
      }
    }
  }

  /** Two formed trees that are stored under one hash are written alike. */
  lemma SameHashSameTree(t: Tree, x: Tree, known: set<Item>, h: Hash)
    requires NoCollisions(known, h) && Formed(t) && Formed(x) && IsNode(t) && IsNode(x)
    requires Keyed(AsNode(t, true)) && Keyed(AsNode(x, true))
    requires Known(AsNode(t, true), known, h) && Known(AsNode(x, true), known, h)
    requires !Inline(AsNode(t, true), h) && !Inline(AsNode(x, true), h)
    requires HashOf(NodeItem(AsNode(t, true), h), h) == HashOf(NodeItem(AsNode(x, true), h), h)
    ensures AsNode(t, true) == AsNode(x, true)
  {
    FormedLayout(t);
    FormedLayout(x);
    RefInjective(AsNode(t, true), AsNode(x, true), known, h);
  }

  lemma {:induction false} HeldIsKnown(t: Node, keys: set<Bytes>, known: set<Item>, h: Hash)
    requires Keyed(t) && Held(t, keys, known, h)
    ensures Known(t, known, h)
    decreases t
  {
    match t
    case Empty =>
    case Value(_) =>
    case Short(_, c) => HeldIsKnown(c, keys, known, h);
    case Full(s) =>
      forall i | 0 <= i < |s| ensures Known(s[i], known, h) {
        HeldIsKnown(s[i], keys, known, h);
      }
  }

  lemma LostNow(w: View, g: GoValue, u: Tree)
    requires g.GoString? && IsNode(u) && Formed(u)
    ensures Now(w, g, AsNode(u, true)) == Lost(Now(w, GoBytes(StrOf(g)), AsNode(u, true)))
  {
    assert Behind(w, GoBytes(StrOf(g))) == Behind(w, g);
  }

  /** Asked for the bytes of a hash that is kept as a Go string, the cache has the node. */
  lemma LostIsStored(v: View, g: GoValue, u: Tree, known: set<Item>, h: Hash)
    requires Fits(v, known, h) && Shows(v, g, Lost(u), known, h) && IsNode(u)
    ensures Shows(v, GoBytes(StrOf(g)), u, known, h) && g.GoString? && StrOf(g) != []
  {
    ShownLost(v, g, u, known, h);
    assert Behind(v, GoBytes(StrOf(g))) == Behind(v, g);
  }

  /** What a put shows: every reference written alike leads to what was put. */
  lemma {:induction false} NowAfterPut(v: View, p: GoValue, x: Tree, g: GoValue, t: Tree, known: set<Item>, h: Hash)
    requires Fits(v, known, h) && Storable(v, p, x, known, h)
    requires Shows(v, g, t, known, h) && (Formed(t) || WordSlot(t))
    ensures Now(With(v, p, h), g, AsNode(t, true)) == Renew(t, x, InlineTest(h))
    decreases AsNode(t, true), if t.Lost? then 3 else 2
  {
    if t.Lost? {
      LostIsStored(v, g, t.t, known, h);
      NowAfterPut(v, p, x, GoBytes(StrOf(g)), t.t, known, h);
      LostNow(With(v, p, h), g, t.t);
    } else if IsNode(t) {
      if SameStored(t, x, InlineTest(h)) {
        SameAfterPut(v, p, x, g, t, known, h);
      } else {
        OtherAfterPut(v, p, x, g, t, known, h);
      }
    }
  }

  lemma {:induction false} SameAfterPut(v: View, p: GoValue, x: Tree, g: GoValue, t: Tree, known: set<Item>, h: Hash)
    requires Fits(v, known, h) && Storable(v, p, x, known, h)
    requires Shows(v, g, t, known, h) && IsNode(t) && Formed(t) && SameStored(t, x, InlineTest(h))
    ensures Now(With(v, p, h), g, AsNode(t, true)) == x
    decreases AsNode(t, true), 1
  {
    var w := With(v, p, h);
    OpenNode(v, g, AsNode(t, true), known, h);
    ShownSlots(v, g, t, known, h);
    assert !g.GoList? by { assert Ref(AsNode(t, true), h).Str?; }
    assert Behind(w, g) == p;
    SlotsAfterPut(v, p, x, known, h);
    BehindSlots(w, g, x, known, h);
  }

  /** The slots of what was put show what they showed. */
  lemma {:induction false} SlotsAfterPut(v: View, p: GoValue, x: Tree, known: set<Item>, h: Hash)
    requires Fits(v, known, h) && Storable(v, p, x, known, h)
    ensures SlotsShown(With(v, p, h), p, x, known, h)
    decreases AsNode(x, true), 0
  {
    var w := With(v, p, h);
    match x
    case Path(k, c) => ChildAfterPut(v, p, x, p.items[1], c, known, h);
    case Branch(s) =>
      forall i | 0 <= i < 17 ensures Shows(w, p.items[i], s[i], known, h) {
        SlotSmaller(AsNodes(s, true), i);
        assert AsNodes(s, true)[i] == AsNode(s[i], true);
        ChildAfterPut(v, p, x, p.items[i], s[i], known, h);
      }
  }

  lemma {:induction false} ChildAfterPut(v: View, p: GoValue, x: Tree, g: GoValue, c: Tree, known: set<Item>, h: Hash)
    requires Fits(v, known, h) && Storable(v, p, x, known, h)
    requires Shows(v, g, c, known, h) && (Formed(c) || WordSlot(c))
    requires NodeSize(AsNode(c, true)) < NodeSize(AsNode(x, true))
    ensures Shows(With(v, p, h), g, c, known, h)
    decreases AsNode(c, true), 4
  {
    NowAfterPut(v, p, x, g, c, known, h);
    RenewSmaller(c, x, InlineTest(h));
    HeldGrows(AsNode(c, true), v.Keys, With(v, p, h).Keys, known, h);
  }

  lemma {:induction false} OtherAfterPut(v: View, p: GoValue, x: Tree, g: GoValue, t: Tree, known: set<Item>, h: Hash)
    requires Fits(v, known, h) && Storable(v, p, x, known, h)
    requires Shows(v, g, t, known, h) && IsNode(t) && Formed(t) && !SameStored(t, x, InlineTest(h))
    ensures Now(With(v, p, h), g, AsNode(t, true)) == Renew(t, x, InlineTest(h))
    decreases AsNode(t, true), 1
  {
    var w := With(v, p, h);
    SameBehind(v, p, x, g, t, known, h);
    ShownSlots(v, g, t, known, h);
    match t
    case Path(k, c) => NowAfterPut(v, p, x, Behind(v, g).items[1], c, known, h);
    case Branch(s) => AllAfterPut(v, p, x, Behind(v, g), s, known, h);
  }

  lemma {:induction false} AllAfterPut(v: View, p: GoValue, x: Tree, y: GoValue, s: seq<Tree>, known: set<Item>,
                                       h: Hash)
    requires Fits(v, known, h) && Storable(v, p, x, known, h)
    requires AllShown(v, y, s, known, h) && Formed(Branch(s))
    ensures NowAll(With(v, p, h), y, AsNodes(s, true)) == RenewSlots(s, x, InlineTest(h))
    decreases AsNode(Branch(s), true), 0
  {
    var n := AsNodes(s, true);
    forall i | 0 <= i < 17 ensures Now(With(v, p, h), ItemAt(y, i), n[i]) == Renew(s[i], x, InlineTest(h)) {
      assert n[i] == AsNode(s[i], true);
      NowAfterPut(v, p, x, y.items[i], s[i], known, h);
    }
    NowAllIs(With(v, p, h), y, n, RenewSlots(s, x, InlineTest(h)));
  }

  /** A node that is not written like `x` is where it was. */
  lemma SameBehind(v: View, p: GoValue, x: Tree, g: GoValue, t: Tree, known: set<Item>, h: Hash)
    requires Fits(v, known, h) && Storable(v, p, x, known, h)
    requires Shows(v, g, t, known, h) && IsNode(t) && Formed(t) && !SameStored(t, x, InlineTest(h))
    ensures Behind(With(v, p, h), g) == Behind(v, g)
  {
    OpenNode(v, g, AsNode(t, true), known, h);
    if !g.GoList? && StrOf(g) == HashOf(Plain(p), h) {
      HeldIsKnown(AsNode(t, true), v.Keys, known, h);
      assert !Inline(AsNode(t, true), h) by { StrKeepsBytes(g); }
      SameHashSameTree(t, x, known, h);
    }
  }

  /** From the one view to the other, exactly these nodes were put. */
  ghost predicate Renewed(v: View, w: View, xs: seq<Tree>, known: set<Item>, h: Hash) {
    && v.Keys <= w.Keys
    && forall g, t {:trigger Shows(v, g, t, known, h)} ::
         Shows(v, g, t, known, h) && (Formed(t) || WordSlot(t)) ==>
           Shows(w, g, RenewAll(t, xs, InlineTest(h)), known, h)
  }

  lemma PutRenews(v: View, p: GoValue, x: Tree, known: set<Item>, h: Hash)
    requires Fits(v, known, h) && Storable(v, p, x, known, h)
    ensures Fits(With(v, p, h), known, h) && Renewed(v, With(v, p, h), [x], known, h)
    ensures Shows(With(v, p, h), GoBytes(HashOf(Plain(p), h)), x, known, h)
  {
    var w := With(v, p, h);
    WithFits(v, p, x, known, h);
    forall g, t | Shows(v, g, t, known, h) && (Formed(t) || WordSlot(t))
      ensures Shows(w, g, RenewAll(t, [x], InlineTest(h)), known, h)
    {
      NowAfterPut(v, p, x, g, t, known, h);
      RenewOnce(t, x, InlineTest(h));
      HeldGrows(AsNode(t, true), v.Keys, w.Keys, known, h);
    }
    PutShown(v, p, x, known, h);
  }

  lemma RenewOnce(t: Tree, x: Tree, inline: Node -> bool)
    ensures RenewAll(t, [x], inline) == Renew(t, x, inline)
    ensures AsNode(Renew(t, x, inline), true) == AsNode(t, true)
  {
    assert [x][..0] == [];
    RenewWrites(t, x, inline);
  }

  lemma PutShown(v: View, p: GoValue, x: Tree, known: set<Item>, h: Hash)
    requires Fits(v, known, h) && Storable(v, p, x, known, h)
    ensures Shows(With(v, p, h), GoBytes(HashOf(Plain(p), h)), x, known, h)
  {
    var w, g, n := With(v, p, h), GoBytes(HashOf(Plain(p), h)), AsNode(x, true);
    SlotsAfterPut(v, p, x, known, h);
    BehindSlots(w, g, x, known, h);
    SlotsHeld(w, p, x, known, h);
    HeldBelow(n, w.Keys, w.Keys, known, h);
  }

  lemma SlotsHeld(w: View, p: GoValue, x: Tree, known: set<Item>, h: Hash)
    requires IsNode(x) && Formed(x) && Keyed(AsNode(x, true)) && SlotsShown(w, p, x, known, h)
    ensures ChildrenHeld(AsNode(x, true), w.Keys, known, h)
  {
    match x
    case Path(k, c) =>
    case Branch(s) =>
      forall i | 0 <= i < 17 ensures Held(AsNodes(s, true)[i], w.Keys, known, h) {
        assert Shows(w, p.items[i], s[i], known, h);
      }
  }

  lemma RenewedOn(v: View, w: View, u: View, xs: seq<Tree>, ys: seq<Tree>, known: set<Item>, h: Hash)
    requires Renewed(v, w, xs, known, h) && Renewed(w, u, ys, known, h) && AllPuttable(xs)
    ensures Renewed(v, u, xs + ys, known, h)
  {
    forall g, t | Shows(v, g, t, known, h) && (Formed(t) || WordSlot(t))
      ensures Shows(u, g, RenewAll(t, xs + ys, InlineTest(h)), known, h)
    {
      RenewAllFits(t, xs, InlineTest(h));
      RenewAllConcat(t, xs, ys, InlineTest(h));
      assert Shows(w, g, RenewAll(t, xs, InlineTest(h)), known, h);
    }
  }

  /** Reading puts nothing. */
  lemma ReadRenews(v: View, w: View, known: set<Item>, h: Hash)
    requires Fits(v, known, h) && Extends(v, w)
    ensures Renewed(v, w, [], known, h)
  {
    forall g, t | Shows(v, g, t, known, h) && (Formed(t) || WordSlot(t))
      ensures Shows(w, g, RenewAll(t, [], InlineTest(h)), known, h)
    {
      ShowsExtends(v, w, g, t, known, h);
    }
  }

  /** A node that is kept inside its parent is not put. */
  lemma InlineNotPut(v: View, x: Tree, known: set<Item>, h: Hash)
    requires Fits(v, known, h) && (x.Hole? || Inline(AsNode(x, true), h))
    ensures Renewed(v, v, [x], known, h)
  {
    forall g, t | Shows(v, g, t, known, h) && (Formed(t) || WordSlot(t))
      ensures Shows(v, g, RenewAll(t, [x], InlineTest(h)), known, h)
    {
      RenewOnce(t, x, InlineTest(h));
      RenewByInline(t, x, InlineTest(h));
    }
  }

  lemma {:induction false} RenewByInline(t: Tree, x: Tree, inline: Node -> bool)
    requires Formed(t) || WordSlot(t)
    requires x.Hole? || inline(AsNode(x, true))
    ensures Renew(t, x, inline) == t
    decreases t
  {
    match t
    case Path(k, c) => RenewByInline(c, x, inline);
    case Branch(s) =>
      forall i | 0 <= i < 17 ensures Renew(s[i], x, inline) == s[i] {
        RenewByInline(s[i], x, inline);
      }
      assert RenewSlots(s, x, inline) == s;
    case Lost(u) => RenewByInline(u, x, inline);
    case _ =>
  }

  // ---------- Views that were read back ----------

  /** Every known node was read from the database. */
  ghost predicate ReadBack(v: View, known: set<Item>, h: Hash) {
    forall x :: x in known && HashOf(x, h) in v ==> v[HashOf(x, h)] == Reloaded(x)
  }

  /** Followed through what was read back, a tree is seen as Reload says. */
  lemma {:induction false} NowReadBack(v: View, t: Tree, known: set<Item>, h: Hash)
    requires Fits(v, known, h) && ReadBack(v, known, h) && (Formed(t) || WordSlot(t))
    requires Keyed(AsNode(t, true)) && Points(v, Reloaded(Ref(AsNode(t, true), h)), AsNode(t, true), known, h)
    ensures Now(v, Reloaded(Ref(AsNode(t, true), h)), AsNode(t, true)) == Reload(t)
    decreases t
  {
    var n := AsNode(t, true);
    var g := Reloaded(Ref(n, h));
    match t
    case Path(k, c) =>
      OpenShort(v, g, k, AsNode(c, true), known, h);
      OpenNode(v, g, n, known, h);
      assert Behind(v, g) == Reloaded(NodeItem(n, h));
      NowReadBack(v, c, known, h);
    case Branch(s) => NowBranchReadBack(v, s, known, h);
    case Lost(u) => NowReadBack(v, u, known, h);
    case _ =>
  }

  lemma {:induction false} NowBranchReadBack(v: View, s: seq<Tree>, known: set<Item>, h: Hash)
    requires Fits(v, known, h) && ReadBack(v, known, h) && Formed(Branch(s))
    requires var n := AsNode(Branch(s), true); Keyed(n) && Points(v, Reloaded(Ref(n, h)), n, known, h)
    ensures var n := AsNode(Branch(s), true); Now(v, Reloaded(Ref(n, h)), n) == Reload(Branch(s))
    decreases s, 1
  {
    var n := AsNodes(s, true);
    var g := Reloaded(Ref(Full(n), h));
    OpenFull(v, g, n, known, h);
    OpenNode(v, g, Full(n), known, h);
    var x := Behind(v, g);
    assert x == Reloaded(NodeItem(Full(n), h));
    NowSlotsReadBack(v, x, s, known, h);
  }

  lemma {:induction false} NowSlotsReadBack(v: View, x: GoValue, s: seq<Tree>, known: set<Item>, h: Hash)
    requires Fits(v, known, h) && ReadBack(v, known, h) && Formed(Branch(s)) && Keyed(Full(AsNodes(s, true)))
    requires x == Reloaded(NodeItem(Full(AsNodes(s, true)), h)) && |x.items| == 17
    requires forall i :: 0 <= i < 17 ==> Points(v, x.items[i], AsNode(s[i], true), known, h)
    ensures NowAll(v, x, AsNodes(s, true)) == ReloadAll(s)
    decreases s, 0
  {
    var n := AsNodes(s, true);
    forall i | 0 <= i < 17 ensures Now(v, ItemAt(x, i), n[i]) == Reload(s[i]) {
      assert x.items[i] == Reloaded(Ref(n[i], h));
      NowReadBack(v, s[i], known, h);
    }
  }

  // ---------- An emptied cache ----------

  /** After a Sync that empties the cache, what is not inline is read again. */
  lemma {:induction false} NowEmptied(v: View, w: View, g: GoValue, t: Tree, known: set<Item>, h: Hash)
    requires Fits(v, known, h) && Fits(w, known, h) && ReadBack(w, known, h) && (Formed(t) || WordSlot(t))
    requires Shows(v, g, t, known, h) && Held(AsNode(t, true), w.Keys, known, h)
    ensures Now(w, g, AsNode(t, true)) == Refetch(t, InlineTest(h))
    decreases t, 2
  {
    if IsNode(t) {
      ShownSlots(v, g, t, known, h);
      if Inline(AsNode(t, true), h) {
        InlineEmptied(v, w, g, t, known, h);
      } else {
        StoredEmptied(v, w, g, t, known, h);
      }
    } else if t.Lost? {
      LostIsStored(v, g, t.t, known, h);
      StoredEmptied(v, w, GoBytes(StrOf(g)), t.t, known, h);
      LostNow(w, g, t.t);
    }
  }

  lemma StoredEmptied(v: View, w: View, g: GoValue, t: Tree, known: set<Item>, h: Hash)
    requires Fits(v, known, h) && Fits(w, known, h) && ReadBack(w, known, h) && IsNode(t) && Formed(t)
    requires Shows(v, g, t, known, h) && Held(AsNode(t, true), w.Keys, known, h) && !g.GoList?
    ensures Now(w, g, AsNode(t, true)) == Reload(t)
  {
    var n := AsNode(t, true);
    ShownSlots(v, g, t, known, h);
    OpenNode(v, g, n, known, h);
    StrKeepsBytes(g);
    assert Points(w, g, n, known, h);
    OpenNode(w, g, n, known, h);
    assert g == Reloaded(Ref(n, h));
    NowReadBack(w, t, known, h);
  }

  lemma {:induction false} InlineEmptied(v: View, w: View, g: GoValue, t: Tree, known: set<Item>, h: Hash)
    requires Fits(v, known, h) && Fits(w, known, h) && ReadBack(w, known, h) && IsNode(t) && Formed(t)
    requires Shows(v, g, t, known, h) && Held(AsNode(t, true), w.Keys, known, h) && Inline(AsNode(t, true), h)
    requires SlotsShown(v, Behind(v, g), t, known, h)
    ensures Now(w, g, AsNode(t, true)) == Refetch(t, InlineTest(h))
    decreases t, 1
  {
    OpenNode(v, g, AsNode(t, true), known, h);
    StrKeepsBytes(g);
    assert g.GoList?;
    match t
    case Path(k, c) => NowEmptied(v, w, g.items[1], c, known, h);
    case Branch(s) => AllEmptied(v, w, g, s, known, h);
  }

  lemma {:induction false} AllEmptied(v: View, w: View, g: GoValue, s: seq<Tree>, known: set<Item>, h: Hash)
    requires Fits(v, known, h) && Fits(w, known, h) && ReadBack(w, known, h) && Formed(Branch(s))
    requires AllShown(v, g, s, known, h) && Keyed(Full(AsNodes(s, true)))
    requires forall i :: 0 <= i < 17 ==> Held(AsNodes(s, true)[i], w.Keys, known, h)
    ensures NowAll(w, g, AsNodes(s, true)) == RefetchAll(s, InlineTest(h))
    decreases s, 0
  {
    var n := AsNodes(s, true);
    forall i | 0 <= i < 17 ensures Now(w, ItemAt(g, i), n[i]) == Refetch(s[i], InlineTest(h)) {
      assert n[i] == AsNode(s[i], true);
      NowEmptied(v, w, g.items[i], s[i], known, h);
    }
    NowAllIs(w, g, n, RefetchAll(s, InlineTest(h)));
  }

  // ---------- A view in which some nodes were read again ----------

  /** Each known node is as it was, or as it is read from the database. */
  ghost predicate Reread(v: View, w: View, known: set<Item>, h: Hash) {
    forall x :: x in known && HashOf(x, h) in v && HashOf(x, h) in w ==>
      w[HashOf(x, h)] == v[HashOf(x, h)] || w[HashOf(x, h)] == Reloaded(x)
  }

  /** Of the two values of one reference, the second is the first or was read again. */
  predicate SameOrRead(g: GoValue, g': GoValue) {
    g' == g || g' == Reloaded(Plain(g))
  }

  /** Reading again hides nothing. */
  lemma {:induction false} RereadStill(v: View, w: View, g: GoValue, g': GoValue, n: Node, known: set<Item>, h: Hash)
    requires Fits(v, known, h) && Fits(w, known, h) && Reread(v, w, known, h)
    requires Points(v, g, n, known, h) && Points(w, g', n, known, h) && SameOrRead(g, g')
    ensures StillSeen(Now(v, g, n), Now(w, g', n))
    decreases n, 1
  {
    NowWrites(v, g, n);
    NowWrites(w, g', n);
    if Inner(n) && n != Full([]) && !g.GoString? {
      SlotsReread(v, w, g, g', n, known, h);
      match n
      case Short(k, c) =>
        OpenShort(v, g, k, c, known, h);
        OpenShort(w, g', k, c, known, h);
        RereadStill(v, w, Behind(v, g).items[1], Behind(w, g').items[1], c, known, h);
      case Full(s) => RereadSlots(v, w, g, g', s, known, h);
    }
  }

  lemma {:induction false} RereadSlots(v: View, w: View, g: GoValue, g': GoValue, s: seq<Node>, known: set<Item>,
                                       h: Hash)
    requires Fits(v, known, h) && Fits(w, known, h) && Reread(v, w, known, h)
    requires Points(v, g, Full(s), known, h) && Points(w, g', Full(s), known, h) && s != []
    requires !g.GoString? && !g'.GoString? && ItemsReread(Behind(v, g), Behind(w, g'))
    ensures StillSeen(Now(v, g, Full(s)), Now(w, g', Full(s)))
    decreases s, 0
  {
    NowWrites(v, g, Full(s));
    NowWrites(w, g', Full(s));
    OpenFull(v, g, s, known, h);
    OpenFull(w, g', s, known, h);
    var x, y := Behind(v, g), Behind(w, g');
    forall i | 0 <= i < |s| ensures StillSeen(NowAll(v, x, s)[i], NowAll(w, y, s)[i]) {
      RereadStill(v, w, x.items[i], y.items[i], s[i], known, h);
    }
  }

  predicate ItemsReread(x: GoValue, y: GoValue) {
    && x.GoList? && y.GoList? && |x.items| == |y.items|
    && forall i :: 0 <= i < |x.items| ==> SameOrRead(x.items[i], y.items[i])
  }

  lemma ListReread(x: GoValue)
    requires x.GoList?
    ensures ItemsReread(x, x) && ItemsReread(x, Reloaded(Plain(x)))
  {}

  lemma SlotsReread(v: View, w: View, g: GoValue, g': GoValue, n: Node, known: set<Item>, h: Hash)
    requires Fits(v, known, h) && Fits(w, known, h) && Reread(v, w, known, h)
    requires Points(v, g, n, known, h) && Points(w, g', n, known, h) && SameOrRead(g, g') && Inner(n)
    ensures ItemsReread(Behind(v, g), Behind(w, g'))
  {
    OpenNode(v, g, n, known, h);
    OpenNode(w, g', n, known, h);
    StrKeepsBytes(g);
    StrKeepsBytes(g');
    ListReread(Behind(v, g));
    if g.GoList? {
      assert g'.GoList?;
    } else {
      assert !g'.GoList?;
      assert Plain(v[StrOf(g)]) == NodeItem(n, h);
    }
  }

  /** What hung below a hash that was kept as a Go string is seen again once that hash is read again. */
  lemma ReadAgain(v: View, w: View, g: GoValue, k: seq<int>, u: Tree, known: set<Item>, h: Hash)
    requires Fits(v, known, h) && Fits(w, known, h) && Reread(v, w, known, h) && IsNode(u) && Formed(u)
    requires Shows(v, g, Path(k, Lost(u)), known, h) && !Inline(AsNode(u, true), h) && g.GoBytes? && g.b in w
    requires Points(w, g, AsNode(Path(k, u), true), known, h)
    requires w[g.b] == Reloaded(NodeItem(AsNode(Path(k, u), true), h))
    ensures StillSeen(Path(k, u), Now(w, g, AsNode(Path(k, u), true)))
  {
    var n := AsNode(u, true);
    ShownPath(v, g, k, Lost(u), known, h);
    var below := Behind(v, g).items[1];
    LostIsStored(v, below, u, known, h);
    OpenShort(w, g, k, n, known, h);
    assert Ref(n, h) == Str(HashOf(NodeItem(n, h), h));
    assert Behind(w, g).items[1] == Reloaded(Ref(n, h)) == GoBytes(StrOf(below));
    RereadStill(v, w, GoBytes(StrOf(below)), GoBytes(StrOf(below)), n, known, h);
    NowWrites(w, g, AsNode(Path(k, u), true));
  }
}
