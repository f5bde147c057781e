/**
 The Trie of ethutil/trie.go: a root reference, the root of the last Sync, and a cache.

 The recursive methods run on Go values and the cache, and are proved to do what SharedNodes says to the tree that is
 seen behind the root. Their ghost arguments are that tree, and the view of cache and database in which it is seen.
 */
module TrieObject {
  import opened ByteStrings
  import opened HexPrefix
  import opened Slices
  import opened Rlp
  import opened GoValues
  import opened PatriciaTree
  import opened TrieTheorems
  import opened CodedTree
  import opened CodedRight
  import opened Reading
  import opened SharedNodes
  import opened SharedAnswers
  import opened CodedRuns
  import opened NodeRefs
  import opened TrieViews
  import opened TrieCache
  import opened TrieSteps

  /** `len(key) >= len(k) && CompareIntSlice(k, key[:len(k)])`. */
  method BeginsWith(key: seq<int>, k: seq<int>) returns (r: bool)
    ensures r <==> k <= key
  {
    if |key| < |k| {
      return false;
    }
    r := CompareIntSlice(k, key[..|k|]);
  }

  /** The loop that copies 17 slots: whole values have no nil among them. */
  method CopySlots(currentNode: GoValue) returns (newNode: seq<GoValue>)
    requires currentNode.GoList? && |currentNode.items| == 17 && Whole(currentNode)
    ensures newNode == currentNode.items
  {
    newNode := EmptyStrings(SLOTS);
    for i := 0 to 17
      invariant |newNode| == 17 && forall j :: 0 <= j < i ==> newNode[j] == currentNode.items[j]
    {
      var cpy := ItemAt(currentNode, i);
      if !cpy.GoNil? {
        newNode := newNode[i := cpy];
      }
    }
  }

  /** The loop at lines 392-401. */
  method CountSlots(n: seq<GoValue>, ghost s: seq<Tree>) returns (amount: int)
    requires |n| == |s| == 17 && forall i :: 0 <= i < 17 ==> (n[i] == GoString([]) <==> s[i] == Blank(true))
    ensures amount == Counted(s, 17)
  {
    amount := -1;
    for i := 0 to 17
      invariant amount == Counted(s, i)
    {
      if n[i] != GoString([]) {
        if amount == -1 {
          amount := i;
        } else {
          amount := -2;
        }
      }
    }
  }

  // ---------- Sync and Undo ----------

  /** All that was known to be somewhere is still there. */
  ghost predicate Covered(keys: set<Bytes>, more: set<Bytes>, known: set<Item>, h: Hash) {
    forall x :: x in known && HashOf(x, h) in keys ==> HashOf(x, h) in more
  }

  lemma {:induction false} HeldCovered(t: Node, keys: set<Bytes>, more: set<Bytes>, known: set<Item>, h: Hash)
    requires Keyed(t) && Held(t, keys, known, h) && Covered(keys, more, known, h)
    ensures Held(t, more, known, h)
    decreases t
  {
    match t
    case Empty =>
    case Value(_) =>
    case Short(_, c) => HeldCovered(c, keys, more, known, h);
    case Full(s) =>
      forall i | 0 <= i < |s| ensures Held(s[i], more, known, h) {
        HeldCovered(s[i], keys, more, known, h);
      }
  }

  /** A database that keeps what it has. */
  predicate Grows(data: map<Bytes, Bytes>, data': map<Bytes, Bytes>) {
    forall k :: k in data ==> k in data' && data'[k] == data[k]
  }

  ghost predicate Committed(nodes: map<Bytes, Entry>, data: map<Bytes, Bytes>, dirty: bool,
                            nodes': map<Bytes, Entry>, data': map<Bytes, Bytes>) {
    && (!dirty ==> nodes' == nodes && data' == data)
    && (dirty ==>
          data' == Written(nodes, data, nodes.Keys) && (nodes' == map[] || nodes' == Cleaned(nodes, nodes.Keys)))
  }

  /** What a commit does to what is there. */
  lemma CommitCovers(nodes: map<Bytes, Entry>, data: map<Bytes, Bytes>, dirty: bool,
                     nodes': map<Bytes, Entry>, data': map<Bytes, Bytes>, known: set<Item>, h: Hash)
    requires NoCollisions(known, h) && EntriesFit(nodes, data, known, h) && Sane(data, known, h)
    requires Committed(nodes, data, dirty, nodes', data')
    ensures Grows(data, data')
    ensures Covered(ViewOf(nodes, data).Keys, ViewOf(nodes', data').Keys, known, h)
    ensures Flags(nodes, dirty) ==> Covered(ViewOf(nodes, data).Keys, data'.Keys, known, h) && Flags(nodes', false)
  {
    forall k | k in data ensures k in data' && data'[k] == data[k] {
      if dirty && k in nodes && nodes[k].dirty {
        assert EntryFits(k, nodes[k], data, known, h);
      }
    }
    forall x | x in known && HashOf(x, h) in ViewOf(nodes, data)
      ensures HashOf(x, h) in ViewOf(nodes', data') && (Flags(nodes, dirty) ==> HashOf(x, h) in data')
    {
      var k := HashOf(x, h);
      if k in nodes {
        assert EntryFits(k, nodes[k], data, known, h);
      }
    }
  }

  /** A commit that does not empty the cache shows what was shown. */
  lemma CommitExtends(nodes: map<Bytes, Entry>, data: map<Bytes, Bytes>, dirty: bool,
                      nodes': map<Bytes, Entry>, data': map<Bytes, Bytes>)
    requires Committed(nodes, data, dirty, nodes', data') && Grows(data, data')
    requires !(dirty && nodes' == map[] && nodes != map[])
    ensures Extends(ViewOf(nodes, data), ViewOf(nodes', data'))
  {}

  /** What a commit does to the tree that is seen. */
  lemma CommitSeen(nodes: map<Bytes, Entry>, data: map<Bytes, Bytes>, dirty: bool,
                   nodes': map<Bytes, Entry>, data': map<Bytes, Bytes>, g: GoValue, t: Tree, known: set<Item>, h: Hash)
    requires NoCollisions(known, h) && EntriesFit(nodes, data, known, h) && Sane(data, known, h)
    requires EntriesFit(nodes', data', known, h) && Sane(data', known, h)
    requires Committed(nodes, data, dirty, nodes', data')
    requires Formed(t) && Shows(ViewOf(nodes, data), g, t, known, h)
    ensures Grows(data, data')
    ensures Flags(nodes, dirty) ==> Flags(nodes', false) && Held(AsNode(t, true), data'.Keys, known, h)
    ensures var r := if dirty && nodes' == map[] && nodes != map[] then Refetch(t, InlineTest(h)) else t;
            Formed(r) && AsNode(r, true) == AsNode(t, true) && Shows(ViewOf(nodes', data'), g, r, known, h)
  {
    var v, w, n := ViewOf(nodes, data), ViewOf(nodes', data'), AsNode(t, true);
    ViewFits(nodes, data, known, h);
    ViewFits(nodes', data', known, h);
    CommitCovers(nodes, data, dirty, nodes', data', known, h);
    if Flags(nodes, dirty) {
      HeldCovered(n, v.Keys, data'.Keys, known, h);
    }
    RefetchFormed(t, InlineTest(h));
    if dirty && nodes' == map[] && nodes != map[] {
      HeldCovered(n, v.Keys, w.Keys, known, h);
      ReadFromStore(data', known, h);
      NowEmptied(v, w, g, t, known, h);
    } else {
      CommitExtends(nodes, data, dirty, nodes', data');
      ShowsExtends(v, w, g, t, known, h);
    }
  }

  lemma ReadFromStore(data: map<Bytes, Bytes>, known: set<Item>, h: Hash)
    requires NoCollisions(known, h) && Sane(data, known, h)
    ensures var v := ViewOf(map[], data); Fits(v, known, h) && ReadBack(v, known, h) && v.Keys == data.Keys
  {
    var v := ViewOf(map[], data);
    ViewFits(map[], data, known, h);
    forall x | x in known && HashOf(x, h) in v ensures v[HashOf(x, h)] == Reloaded(x) {
      ValueOfKnown(x, known, h);
    }
  }

  /** After an Undo each known node is as it was at the last Sync, or is read from the database. */
  lemma UndoneSeen(nodes: map<Bytes, Entry>, nodes': map<Bytes, Entry>, data: map<Bytes, Bytes>, v: View,
                   known: set<Item>, h: Hash)
    requires nodes' == map k | k in nodes && !nodes[k].dirty :: nodes[k]
    requires NoCollisions(known, h) && EntriesFit(nodes', data, known, h) && Sane(data, known, h)
    requires CleanSince(nodes, data, v)
    ensures Flags(nodes', false) && Reread(v, ViewOf(nodes', data), known, h) && Fits(ViewOf(nodes', data), known, h)
  {
    var w := ViewOf(nodes', data);
    ViewFits(nodes', data, known, h);
    forall x | x in known && HashOf(x, h) in v && HashOf(x, h) in w
      ensures w[HashOf(x, h)] == v[HashOf(x, h)] || w[HashOf(x, h)] == Reloaded(x)
    {
      var k := HashOf(x, h);
      if k in nodes' {
        assert EntryFits(k, nodes'[k], data, known, h);
      }
      if k in data {
        ValueOfKnown(x, known, h);
      }
    }
  }

  // ---------- Comparing Go values ----------

  /** `reflect.DeepEqual` tells the kinds apart. */
  predicate SameKinds(a: GoValue, b: GoValue) {
    match a
    case GoNil => b.GoNil?
    case GoString(_) => b.GoString?
    case GoBytes(_) => b.GoBytes?
    case GoByte(_) => b.GoByte?
    case GoList(items) =>
      b.GoList? && |items| == |b.items| && forall i :: 0 <= i < |items| ==> SameKinds(items[i], b.items[i])
  }

  /** Values are equal in depth when they are written alike and of one kind throughout. */
  lemma {:induction false} EqualValues(a: GoValue, b: GoValue)
    requires Whole(a) && Whole(b)
    ensures a == b <==> Plain(a) == Plain(b) && SameKinds(a, b)
    decreases a
  {
    match a
    case GoList(items) =>
      if b.GoList? && |items| == |b.items| {
        forall i | 0 <= i < |items| ensures items[i] == b.items[i] <==>
                   Plain(items[i]) == Plain(b.items[i]) && SameKinds(items[i], b.items[i]) {
          EqualValues(items[i], b.items[i]);
        }
        if Plain(a) == Plain(b) {
          assert forall i :: 0 <= i < |items| ==> PlainAll(items)[i] == PlainAll(b.items)[i];
        }
        if a == b {
          assert forall i :: 0 <= i < |items| ==> items[i] == b.items[i];
        }
      }
    case GoByte(c) =>
      if b.GoByte? {
        StrKeepsBytes(a);
        StrKeepsBytes(b);
      }
    case _ =>
  }

  class Trie {
    const cache: Cache
    var root: GoValue
    var prevRoot: GoValue
    ghost var tree: Tree
    /** At the last Sync: the tree, and the view in which it was seen. */
    ghost var prevTree: Tree
    ghost var prevSeen: View

    /** The cache is sound, and the tree is what is seen behind the root. */
    ghost predicate Readable()
      reads this, cache, cache.db
    {
      && cache.Valid() && Formed(tree)
      && Shows(cache.Seen(), root, tree, cache.known, cache.hash)
    }

    /** What was written for the last Sync lies in the database. */
    ghost predicate Restorable()
      reads this, cache, cache.db
    {
      var n := AsNode(prevTree, true);
      && Formed(prevTree) && Whole(prevRoot) && Keyed(n) && Plain(prevRoot) == Ref(n, cache.hash)
      && Held(n, cache.db.data.Keys, cache.known, cache.hash)
    }

    /** The clean nodes are as they were seen at the last Sync, or have been read since. */
    ghost predicate Settled()
      reads this, cache, cache.db
    {
      && Fits(prevSeen, cache.known, cache.hash)
      && Shows(prevSeen, prevRoot, prevTree, cache.known, cache.hash)
      && CleanSince(cache.nodes, cache.db.data, prevSeen)
    }

    ghost predicate Valid()
      reads this, cache, cache.db
    {
      Readable() && Flags(cache.nodes, cache.isDirty) && Restorable() && Settled()
    }

    /** NewTrie: an empty cache, and the root for both fields. */
    constructor (db: Database, root: GoValue, hash: Hash, ghost known: set<Item>, ghost t: Tree)
      requires NoCollisions(known, hash) && Sane(db.data, known, hash)
      ensures fresh(cache) && cache.db == db && cache.hash == hash && cache.known == known
      ensures tree == prevTree == t && prevSeen == ViewOf(map[], db.data) && this.root == prevRoot == root
      ensures cache.nodes == map[] && !cache.isDirty && cache.Valid()
    {
      this.root, prevRoot := root, root;
      tree, prevTree, prevSeen := t, t, ViewOf(map[], db.data);
      cache := new Cache(db, hash, known);
    }

    /** `v` is a view of the cache, which may have read more since. */
    ghost predicate Ready(v: View)
      reads cache, cache.db
    {
      cache.Valid() && Fits(v, cache.known, cache.hash) && Extends(v, cache.Seen())
    }

    /** `g` shows `t`. */
    ghost predicate Sees(g: GoValue, t: Tree)
      reads cache, cache.db
    {
      Shows(cache.Seen(), g, t, cache.known, cache.hash)
    }

    /** The cache may have read nodes, but none was put. */
    ghost predicate OnlyRead(w: View, nodes: map<Bytes, Entry>, isDirty: bool)
      reads cache, cache.db
    {
      cache.Valid() && Extends(w, cache.Seen()) && Later(nodes, isDirty, cache.nodes, cache.isDirty, cache.db.data)
    }

    /** Since the view `w` exactly the nodes of `x` were put, and `g` shows what they leave. */
    ghost predicate ShowsAfter(w: View, nodes: map<Bytes, Entry>, isDirty: bool, g: GoValue, x: Effect)
      reads cache, cache.db
    {
      && cache.Valid() && Later(nodes, isDirty, cache.nodes, cache.isDirty, cache.db.data)
      && Renewed(w, cache.Seen(), x.puts, cache.known, cache.hash) && Sees(g, x.tree)
    }

    /** And its node was put last. */
    ghost predicate Leaves(w: View, nodes: map<Bytes, Entry>, isDirty: bool, g: GoValue, x: Effect)
      reads cache, cache.db
    {
      ShowsAfter(w, nodes, isDirty, g, x) && (x.puts != [] ==> JustPut(g))
    }

    /** What was put last is inline, or dirty in the cache. */
    ghost predicate JustPut(g: GoValue)
      reads cache
    {
      g.GoBytes? ==> g.b in cache.nodes && cache.nodes[g.b].dirty
    }

    /** The node behind a reference, inline or through the cache; nothing behind a hash kept as a Go string. */
    method GetNode(node: GoValue, ghost v: View, ghost t: Tree) returns (r: GoValue)
      requires Ready(v) && Formed(t) && Shows(v, node, t, cache.known, cache.hash)
      modifies cache`nodes
      ensures OnlyRead(old(cache.Seen()), old(cache.nodes), old(cache.isDirty))
      ensures Len(r) == Width(t) && SlotsShown(v, r, if IsNode(t) then t else Hole, cache.known, cache.hash)
      ensures IsNode(t) ==> r == Behind(v, node)
    {
      NodeKinds(v, node, t, cache.known, cache.hash);
      if IsNode(t) {
        NodeWidth(v, node, t, cache.known, cache.hash);
      }
      if !ItemAt(node, 0).GoNil? {
        return node;
      }
      var str := StrOf(node);
      if |str| == 0 {
        return node;
      }
      r := Lookup(BytesOf(node));
    }

    /** cache.Get as GetNode calls it. */
    method Lookup(key: Bytes) returns (r: GoValue)
      requires cache.Valid() && (key == [] || IsStored(key, cache.Seen(), cache.known, cache.hash))
      modifies cache`nodes
      ensures OnlyRead(old(cache.Seen()), old(cache.nodes), old(cache.isDirty))
      ensures r == if key == [] then GoNil else old(cache.Seen())[key]
    {
      if key == [] {
        ShortKeysMiss(cache.nodes, cache.db.data, key, cache.known, cache.hash);
      }
      r := cache.Get(key);
    }

    // ---------- GetState ----------

    method GetState(node: GoValue, key: seq<int>, ghost v: View, ghost t: Tree) returns (r: GoValue)
      requires Ready(v) && Shows(v, node, t, cache.known, cache.hash)
      requires key == [] || (IsTerminated(key) && Formed(t))
      modifies cache`nodes
      ensures OnlyRead(old(cache.Seen()), old(cache.nodes), old(cache.isDirty))
      ensures Shows(v, r, Find(t, key), cache.known, cache.hash)
      decreases |key|, 3
    {
      if |key| == 0 {
        return node;
      }
      NodeKinds(v, node, t, cache.known, cache.hash);
      if Len(node) == 0 {
        return node;
      }
      r := GetStateNode(node, key, v, t);
    }

    /** GetState on a reference, lines 196-216. */
    method GetStateNode(node: GoValue, key: seq<int>, ghost v: View, ghost t: Tree) returns (r: GoValue)
      requires Ready(v) && Shows(v, node, t, cache.known, cache.hash)
      requires (IsNode(t) || t.Lost?) && IsTerminated(key) && Formed(t)
      modifies cache`nodes
      ensures OnlyRead(old(cache.Seen()), old(cache.nodes), old(cache.isDirty))
      ensures Shows(v, r, Find(t, key), cache.known, cache.hash)
      decreases |key|, 2
    {
      var currentNode := GetNode(node, v, t);
      r := GetStateBehind(currentNode, key, v, t);
    }

    /** The cases of lines 199-216. */
    method GetStateBehind(currentNode: GoValue, key: seq<int>, ghost v: View, ghost t: Tree) returns (r: GoValue)
      requires Ready(v) && (IsNode(t) || t.Lost?) && IsTerminated(key) && Formed(t)
      requires Len(currentNode) == Width(t)
      requires IsNode(t) ==> SlotsShown(v, currentNode, t, cache.known, cache.hash)
      modifies cache`nodes
      ensures OnlyRead(old(cache.Seen()), old(cache.nodes), old(cache.isDirty))
      ensures Shows(v, r, Find(t, key), cache.known, cache.hash)
      decreases |key|, 1
    {
      if Len(currentNode) == 0 {
        NothingShown(v, cache.known, cache.hash);
        return GoString([]);
      } else if Len(currentNode) == 2 {
        r := GetStateShort(currentNode, key, v, t.key, t.child);
      } else {
        r := GetStateFull(currentNode, key, v, t.slots);
      }
    }

    /** The 17-slot case of GetState, line 212. */
    method GetStateFull(currentNode: GoValue, key: seq<int>, ghost v: View, ghost s: seq<Tree>) returns (r: GoValue)
      requires Ready(v)
      requires AllShown(v, currentNode, s, cache.known, cache.hash) && IsTerminated(key) && Formed(Branch(s))
      modifies cache`nodes
      ensures OnlyRead(old(cache.Seen()), old(cache.nodes), old(cache.isDirty))
      ensures Shows(v, r, Find(Branch(s), key), cache.known, cache.hash)
      decreases |key|, 0
    {
      HeadOfKey(key);
      r := GetState(ItemAt(currentNode, key[0]), key[1..], v, s[key[0]]);
    }

    /** The two-slot case of GetState, lines 201-210. */
    method GetStateShort(currentNode: GoValue, key: seq<int>, ghost v: View, ghost k0: seq<int>, ghost c: Tree)
      returns (r: GoValue)
      requires Ready(v) && SlotsShown(v, currentNode, Path(k0, c), cache.known, cache.hash)
      requires IsTerminated(key) && Formed(Path(k0, c))
      modifies cache`nodes
      ensures OnlyRead(old(cache.Seen()), old(cache.nodes), old(cache.isDirty))
      ensures Shows(v, r, Find(Path(k0, c), key), cache.known, cache.hash)
      decreases |key|, 0
    {
      ExpandInvertsCompact(k0);
      var k := CompactDecode(StrOf(ItemAt(currentNode, 0)));
      var below := ItemAt(currentNode, 1);
      var matches := BeginsWith(key, k);
      if matches {
        PathInKey(k, key);
        r := GetState(below, key[|k|..], v, c);
      } else {
        NothingShown(v, cache.known, cache.hash);
        r := GoString([]);
      }
    }

    // ---------- Put ----------

    /** Trie.Put: `x` is the node that the slots show. */
    method Put(node: GoValue, ghost x: Tree) returns (r: GoValue)
      requires cache.Valid() && node.GoList? && Whole(node) && IsNode(x) && Formed(x)
      requires KnownTree(x, cache.known, cache.hash)
      requires Plain(node) == NodeItem(AsNode(x, true), cache.hash)
      requires SlotsShown(cache.Seen(), node, x, cache.known, cache.hash)
      modifies cache
      ensures Leaves(old(cache.Seen()), old(cache.nodes), old(cache.isDirty), r, Alone(x))
    {
      ghost var v := cache.Seen();
      ViewFits(cache.nodes, cache.db.data, cache.known, cache.hash);
      r := cache.Put(node);
      if Inline(AsNode(x, true), cache.hash) {
        InlineNotPut(v, x, cache.known, cache.hash);
        InlineShown(v, node, x, cache.known, cache.hash);
      } else {
        PutRenews(v, node, x, cache.known, cache.hash);
      }
    }

    /** Put on a two-slot node. */
    method PutPair(compact: Bytes, g: GoValue, ghost k: seq<int>, ghost c: Tree) returns (r: GoValue)
      requires cache.Valid() && IsPath(k) && compact == Compact(k) && Sees(g, c)
      requires Formed(Path(k, c)) && KnownTree(Path(k, c), cache.known, cache.hash)
      modifies cache
      ensures Leaves(old(cache.Seen()), old(cache.nodes), old(cache.isDirty), r, Alone(Path(k, c)))
    {
      PairPut(cache.Seen(), compact, g, k, c, cache.known, cache.hash);
      r := Put(GoList([GoString(compact), g]), Path(k, c));
    }

    /** Put on the slots of a branch. */
    method PutSlots(items: seq<GoValue>, ghost s: seq<Tree>) returns (r: GoValue)
      requires cache.Valid() && AllShown(cache.Seen(), GoList(items), s, cache.known, cache.hash)
      requires Formed(Branch(s)) && KnownTree(Branch(s), cache.known, cache.hash)
      modifies cache
      ensures Leaves(old(cache.Seen()), old(cache.nodes), old(cache.isDirty), r, Alone(Branch(s)))
    {
      SlotsPut(cache.Seen(), items, s, cache.known, cache.hash);
      r := Put(GoList(items), Branch(s));
    }

    /** Put of a nil slice. */
    method PutNil() returns (r: GoValue)
      requires cache.Valid()
      modifies cache
      ensures Leaves(old(cache.Seen()), old(cache.nodes), old(cache.isDirty), r, Alone(Hole))
    {
      assert Encoded(List([])) == [0xc0];
      ViewFits(cache.nodes, cache.db.data, cache.known, cache.hash);
      InlineNotPut(cache.Seen(), Hole, cache.known, cache.hash);
      r := cache.Put(GoList([]));
      HoleShown(cache.Seen(), cache.known, cache.hash);
    }

    /** `x` was put on top of what `below` left. */
    lemma PutAbove(w: View, nodes: map<Bytes, Entry>, isDirty: bool, u: View, nodes': map<Bytes, Entry>, isDirty': bool,
                   below: Effect, g: GoValue, x: Tree)
      requires Renewed(w, u, below.puts, cache.known, cache.hash) && AllPuttable(below.puts)
      requires Later(nodes, isDirty, nodes', isDirty', cache.db.data)
      requires Leaves(u, nodes', isDirty', g, Alone(x))
      ensures Leaves(w, nodes, isDirty, g, Above(below, x))
    {
      RenewedOn(w, u, cache.Seen(), below.puts, [x], cache.known, cache.hash);
    }

    /** Nodes were read before others were put. */
    lemma ReadBefore(w: View, nodes: map<Bytes, Entry>, isDirty: bool, u: View, nodes': map<Bytes, Entry>,
                     isDirty': bool, g: GoValue, x: Effect)
      requires Fits(w, cache.known, cache.hash) && Extends(w, u)
      requires Later(nodes, isDirty, nodes', isDirty', cache.db.data)
      requires Leaves(u, nodes', isDirty', g, x)
      ensures Leaves(w, nodes, isDirty, g, x)
    {
      AfterReading(w, u, cache.Seen(), x.puts, cache.known, cache.hash);
    }

    /** Nothing was put. */
    lemma NothingPut(g: GoValue, t: Tree)
      requires cache.Valid() && Sees(g, t)
      ensures Leaves(cache.Seen(), cache.nodes, cache.isDirty, g, Effect(t, []))
    {
      ViewFits(cache.nodes, cache.db.data, cache.known, cache.hash);
      ReadRenews(cache.Seen(), cache.Seen(), cache.known, cache.hash);
    }

    // ---------- InsertState ----------

    method InsertState(node: GoValue, key: seq<int>, value: GoValue, ghost v: View, ghost t: Tree, ghost val: Tree)
      returns (r: GoValue)
      requires Ready(v) && Shows(v, node, t, cache.known, cache.hash) && Sees(value, val)
      requires Insertable(t, key, val)
      requires KnownTree(InsertOn(t, key, val, InlineTest(cache.hash)).tree, cache.known, cache.hash)
      modifies cache
      ensures Leaves(old(cache.Seen()), old(cache.nodes), old(cache.isDirty), r,
                     InsertOn(t, key, val, InlineTest(cache.hash)))
      decreases if t.Blank? then 0 else |key|, 3
    {
      if |key| == 0 {
        NothingPut(value, val);
        return value;
      }
      VacantKinds(v, node, t, cache.known, cache.hash);
      if Vacant(node) {
        OnNothing(t, key, val, InlineTest(cache.hash));
        var compact := CompactEncode(key);
        r := PutPair(compact, value, key, val);
      } else {
        r := InsertAtNode(node, key, value, v, t, val);
      }
    }

    /** InsertState on a reference to a node, from line 283 on. */
    method InsertAtNode(node: GoValue, key: seq<int>, value: GoValue, ghost v: View, ghost t: Tree, ghost val: Tree)
      returns (r: GoValue)
      requires Ready(v) && Shows(v, node, t, cache.known, cache.hash) && IsNode(t) && Formed(t)
      requires val.Word? && val.v != [] && Sees(value, val) && IsTerminated(key)
      requires KnownTree(Inserted(t, key, val, InlineTest(cache.hash)).tree, cache.known, cache.hash)
      modifies cache
      ensures Leaves(old(cache.Seen()), old(cache.nodes), old(cache.isDirty), r,
                     Inserted(t, key, val, InlineTest(cache.hash)))
      decreases |key|, 2
    {
      ghost var w, nodes, isDirty := cache.Seen(), cache.nodes, cache.isDirty;
      var currentNode := GetNodeFor(node, v, t, value, val);
      ghost var u, nodes', isDirty' := cache.Seen(), cache.nodes, cache.isDirty;
      r := InsertBehind(currentNode, key, value, v, t, val);
      ReadBefore(w, nodes, isDirty, u, nodes', isDirty', r, Inserted(t, key, val, InlineTest(cache.hash)));
    }

    /** The node, while a value is at hand. */
    method GetNodeFor(node: GoValue, ghost v: View, ghost t: Tree, ghost value: GoValue, ghost val: Tree)
      returns (r: GoValue)
      requires Ready(v) && Shows(v, node, t, cache.known, cache.hash) && IsNode(t) && Formed(t) && Sees(value, val)
      modifies cache`nodes
      ensures OnlyRead(old(cache.Seen()), old(cache.nodes), old(cache.isDirty)) && Ready(v) && Sees(value, val)
      ensures Fits(old(cache.Seen()), cache.known, cache.hash)
      ensures Len(r) == Width(t) && SlotsShown(v, r, t, cache.known, cache.hash)
    {
      ghost var w := cache.Seen();
      ViewFits(cache.nodes, cache.db.data, cache.known, cache.hash);
      r := GetNode(node, v, t);
      ShowsExtends(w, cache.Seen(), value, val, cache.known, cache.hash);
    }

    method InsertBehind(currentNode: GoValue, key: seq<int>, value: GoValue,
                        ghost v: View, ghost t: Tree, ghost val: Tree)
      returns (r: GoValue)
      requires Ready(v) && IsNode(t) && Formed(t) && SlotsShown(v, currentNode, t, cache.known, cache.hash)
      requires Len(currentNode) == Width(t)
      requires val.Word? && val.v != [] && Sees(value, val) && IsTerminated(key)
      requires KnownTree(Inserted(t, key, val, InlineTest(cache.hash)).tree, cache.known, cache.hash)
      modifies cache
      ensures Leaves(old(cache.Seen()), old(cache.nodes), old(cache.isDirty), r,
                     Inserted(t, key, val, InlineTest(cache.hash)))
      decreases |key|, 1, 1
    {
      if Len(currentNode) == 2 {
        r := InsertAtShort(currentNode, key, value, v, t.key, t.child, val);
      } else {
        r := InsertAtFull(currentNode, key, value, v, t.slots, val);
      }
    }

    /** The branch of InsertState for a 17-slot node, lines 324-336. */
    method InsertAtFull(currentNode: GoValue, key: seq<int>, value: GoValue,
                        ghost v: View, ghost s: seq<Tree>, ghost val: Tree)
      returns (r: GoValue)
      requires Ready(v) && Formed(Branch(s)) && AllShown(v, currentNode, s, cache.known, cache.hash)
      requires val.Word? && val.v != [] && Sees(value, val) && IsTerminated(key)
      requires KnownTree(Inserted(Branch(s), key, val, InlineTest(cache.hash)).tree, cache.known, cache.hash)
      modifies cache
      ensures Leaves(old(cache.Seen()), old(cache.nodes), old(cache.isDirty), r,
                     Inserted(Branch(s), key, val, InlineTest(cache.hash)))
      decreases |key|, 1, 0
    {
      InsertBelow(s, key, val, cache.known, cache.hash);
      var newNode := CopySlots(currentNode);
      ghost var w := cache.Seen();
      ghost var below := InsertOn(s[key[0]], key[1..], val, InlineTest(cache.hash));
      var slot := InsertState(currentNode.items[key[0]], key[1..], value, v, s[key[0]], val);
      AllShownWith(v, w, cache.Seen(), currentNode, s, key[0], slot, below, cache.known, cache.hash);
      newNode := newNode[key[0] := slot];
      r := PutChanged(newNode, w, old(cache.nodes), old(cache.isDirty), below,
                      RenewAllSlots(s, below.puts, InlineTest(cache.hash))[key[0] := below.tree], slot);
    }

    /** Put on a branch of which one slot changed. */
    method PutChanged(items: seq<GoValue>, ghost w: View, ghost nodes: map<Bytes, Entry>, ghost isDirty: bool,
                      ghost below: Effect, ghost s: seq<Tree>, ghost slot: GoValue)
      returns (r: GoValue)
      requires ShowsAfter(w, nodes, isDirty, slot, below) && AllPuttable(below.puts)
      requires AllShown(cache.Seen(), GoList(items), s, cache.known, cache.hash)
      requires Formed(Branch(s)) && KnownTree(Branch(s), cache.known, cache.hash)
      modifies cache
      ensures Leaves(w, nodes, isDirty, r, Above(below, Branch(s)))
    {
      ghost var u, nodes', isDirty' := cache.Seen(), cache.nodes, cache.isDirty;
      r := PutSlots(items, s);
      PutAbove(w, nodes, isDirty, u, nodes', isDirty', below, r, Branch(s));
    }

    /** The branch of InsertState for a two-slot node, lines 285-321. */
    method InsertAtShort(currentNode: GoValue, key: seq<int>, value: GoValue,
                         ghost v: View, ghost k0: seq<int>, ghost c: Tree, ghost val: Tree)
      returns (r: GoValue)
      requires Ready(v) && Formed(Path(k0, c)) && SlotsShown(v, currentNode, Path(k0, c), cache.known, cache.hash)
      requires val.Word? && val.v != [] && Sees(value, val) && IsTerminated(key)
      requires KnownTree(Inserted(Path(k0, c), key, val, InlineTest(cache.hash)).tree, cache.known, cache.hash)
      modifies cache
      ensures Leaves(old(cache.Seen()), old(cache.nodes), old(cache.isDirty), r,
                     Inserted(Path(k0, c), key, val, InlineTest(cache.hash)))
      decreases |key|, 1, 0
    {
      ExpandInvertsCompact(k0);
      var str := StrOf(ItemAt(currentNode, 0));
      var k := CompactDecode(str);
      var same := CompareIntSlice(k, key);
      if same {
        var compact := CompactEncode(key);
        r := PutPair(compact, value, key, val);
      } else {
        r := InsertOffPath(str, k, ItemAt(currentNode, 1), key, value, v, c, val);
      }
    }

    /** A key other than the path of the node, lines 297-321. */
    method InsertOffPath(str: Bytes, k: seq<int>, old1: GoValue, key: seq<int>, value: GoValue,
                         ghost v: View, ghost c: Tree, ghost val: Tree)
      returns (r: GoValue)
      requires Ready(v) && Formed(Path(k, c)) && str == Compact(k) && Shows(v, old1, c, cache.known, cache.hash)
      requires val.Word? && val.v != [] && Sees(value, val) && IsTerminated(key) && k != key
      requires KnownTree(Inserted(Path(k, c), key, val, InlineTest(cache.hash)).tree, cache.known, cache.hash)
      modifies cache
      ensures Leaves(old(cache.Seen()), old(cache.nodes), old(cache.isDirty), r,
                     Inserted(Path(k, c), key, val, InlineTest(cache.hash)))
      decreases |key|, 0, 2
    {
      BelowPathFacts(k, c, key, val, cache.known, cache.hash);
      ghost var w, below := cache.Seen(), BelowPath(k, c, key, val, InlineTest(cache.hash));
      var matchingLength := Matching(str, k, key);
      var newHash := InsertPastMatch(k, old1, key, value, matchingLength, v, c, val);
      r := Reprefix(key[..matchingLength], newHash, w, old(cache.nodes), old(cache.isDirty), below);
    }

    /** Behind the matching part: lines 299-313. */
    method InsertPastMatch(k: seq<int>, old1: GoValue, key: seq<int>, value: GoValue, m: nat,
                           ghost v: View, ghost c: Tree, ghost val: Tree)
      returns (newHash: GoValue)
      requires Ready(v) && Formed(Path(k, c)) && Shows(v, old1, c, cache.known, cache.hash)
      requires val.Word? && val.v != [] && Sees(value, val) && IsTerminated(key) && k != key && m == MatchLength(key, k)
      requires KnownTree(BelowPath(k, c, key, val, InlineTest(cache.hash)).tree, cache.known, cache.hash)
      modifies cache
      ensures Leaves(old(cache.Seen()), old(cache.nodes), old(cache.isDirty), newHash,
                     BelowPath(k, c, key, val, InlineTest(cache.hash)))
      decreases |key|, 0, 1
    {
      MatchedBelow(k, c, key, val, InlineTest(cache.hash));
      if m == |k| {
        newHash := InsertMatched(old1, key[m..], value, v, c, val);
      } else {
        ShowsExtends(v, cache.Seen(), old1, c, cache.known, cache.hash);
        newHash := Split(k, old1, key, value, m, c, val);
      }
    }

    /** The whole path matched: line 301. */
    method InsertMatched(old1: GoValue, rest: seq<int>, value: GoValue, ghost v: View, ghost c: Tree, ghost val: Tree)
      returns (newHash: GoValue)
      requires Ready(v) && Formed(c) && IsTerminated(rest) && Shows(v, old1, c, cache.known, cache.hash)
      requires val.Word? && val.v != [] && Sees(value, val)
      requires KnownTree(Inserted(c, rest, val, InlineTest(cache.hash)).tree, cache.known, cache.hash)
      modifies cache
      ensures Leaves(old(cache.Seen()), old(cache.nodes), old(cache.isDirty), newHash,
                     Inserted(c, rest, val, InlineTest(cache.hash)))
      decreases |rest|, 4
    {
      WordInsertable(c, rest, val.v, InlineTest(cache.hash));
      assert InsertOn(c, rest, val, InlineTest(cache.hash)) == Inserted(c, rest, val, InlineTest(cache.hash));
      newHash := InsertState(old1, rest, value, v, c, val);
    }

    /** MatchingNibbleLength on the key, with whatever lies behind it, and the decoded path. */
    method Matching(str: Bytes, k: seq<int>, key: seq<int>) returns (m: nat)
      requires IsPath(k) && str == Compact(k) && IsTerminated(key) && k != key
      ensures m == MatchLength(key, k)
    {
      ExpandInvertsCompact(k);
      var spare: seq<int> := *;
      var a := IntSlice(key + spare, |key|);
      assert a.Contents() == key;
      MatchingNibblesInTrie(a, str);
      var r := MatchingNibbleLength(a, ExpandSlice(str));
      m := r.value;
    }

    /** The end of the chain, or a two-slot node for the matching part: lines 315-321. */
    method Reprefix(prefix: seq<int>, newHash: GoValue, ghost w: View, ghost nodes: map<Bytes, Entry>,
                    ghost isDirty: bool, ghost below: Effect)
      returns (r: GoValue)
      requires Leaves(w, nodes, isDirty, newHash, below) && AllPuttable(below.puts) && Formed(below.tree)
      requires prefix != [] ==> IsPath(prefix) && !IsTerminated(prefix)
      requires KnownTree(PrefixedBy(prefix, below).tree, cache.known, cache.hash)
      modifies cache
      ensures Leaves(w, nodes, isDirty, r, PrefixedBy(prefix, below))
    {
      if |prefix| == 0 {
        return newHash;
      } else {
        ghost var u, nodes', isDirty' := cache.Seen(), cache.nodes, cache.isDirty;
        var compact := CompactEncode(prefix);
        r := PutPair(compact, newHash, prefix, below.tree);
        PutAbove(w, nodes, isDirty, u, nodes', isDirty', below, r, Path(prefix, below.tree));
      }
    }

    /** Expanding a two-slot node to 17 slots, lines 303-312. */
    method Split(k: seq<int>, old1: GoValue, key: seq<int>, value: GoValue, m: nat, ghost c: Tree, ghost val: Tree)
      returns (newHash: GoValue)
      requires cache.Valid() && Sees(old1, c) && Sees(value, val) && val.Word? && val.v != []
      requires Formed(Path(k, c)) && IsTerminated(key) && m < |k| && m < |key| && k[m] != key[m]
      requires KnownTree(ForksPut(k, c, key, val, m, InlineTest(cache.hash)).tree, cache.known, cache.hash)
      modifies cache
      ensures Leaves(old(cache.Seen()), old(cache.nodes), old(cache.isDirty), newHash,
                     ForksPut(k, c, key, val, m, InlineTest(cache.hash)))
      decreases |key|, 0, 0
    {
      ghost var w, nodes, isDirty := cache.Seen(), cache.nodes, cache.isDirty;
      ghost var a, b := New(k[m + 1..], c), New(key[m + 1..], val);
      ForksKnown(k, c, key, val, m, cache.known, cache.hash);
      ForksInsertable(k, c, key, val, m);
      var oldNode := InsertNew(k[m + 1..], old1, c);
      WordStays(val.v, val.low, a.puts, InlineTest(cache.hash));
      assert Sees(value, RenewAll(val, a.puts, InlineTest(cache.hash)));
      ghost var u, nodes', isDirty' := cache.Seen(), cache.nodes, cache.isDirty;
      var newNode := InsertNew(key[m + 1..], value, val);
      BothPut(w, nodes, isDirty, u, nodes', isDirty', a, b, newNode);
      assert Sees(oldNode, RenewAll(a.tree, b.puts, InlineTest(cache.hash)));
      newHash := PutFork(k, key, m, oldNode, newNode, c, val, w, nodes, isDirty);
    }

    /** First what `a` puts, then what `b` does. */
    lemma BothPut(w: View, nodes: map<Bytes, Entry>, isDirty: bool, u: View, nodes': map<Bytes, Entry>, isDirty': bool,
                  a: Effect, b: Effect, g: GoValue)
      requires Renewed(w, u, a.puts, cache.known, cache.hash) && AllPuttable(a.puts)
      requires Later(nodes, isDirty, nodes', isDirty', cache.db.data)
      requires Leaves(u, nodes', isDirty', g, b)
      ensures ShowsAfter(w, nodes, isDirty, g, Effect(b.tree, a.puts + b.puts))
    {
      RenewedOn(w, u, cache.Seen(), a.puts, b.puts, cache.known, cache.hash);
    }

    /** `t.InsertState("", key, value)`. */
    method InsertNew(key: seq<int>, value: GoValue, ghost val: Tree) returns (r: GoValue)
      requires cache.Valid() && Sees(value, val)
      requires Insertable(Blank(true), key, val) && KnownTree(Onto(key, val), cache.known, cache.hash)
      modifies cache
      ensures Leaves(old(cache.Seen()), old(cache.nodes), old(cache.isDirty), r, New(key, val))
      decreases 0, 4
    {
      ViewFits(cache.nodes, cache.db.data, cache.known, cache.hash);
      NothingShown(cache.Seen(), cache.known, cache.hash);
      r := InsertState(GoString([]), key, value, cache.Seen(), Blank(true), val);
    }

    /** The 17 slots, with both nodes in theirs. */
    method ForkSlots(k: seq<int>, key: seq<int>, m: nat, oldNode: GoValue, newNode: GoValue,
                     ghost c: Tree, ghost val: Tree)
      returns (scaledSlice: seq<GoValue>)
      requires IsPath(k) && IsTerminated(key) && m < |k| && m < |key| && k[m] != key[m]
      requires 0 <= k[m] <= 16 && 0 <= key[m] <= 16 && Sees(newNode, Onto(key[m + 1..], val))
      requires Sees(oldNode, RenewAll(Onto(k[m + 1..], c), New(key[m + 1..], val).puts, InlineTest(cache.hash)))
      ensures AllShown(cache.Seen(), GoList(scaledSlice), ForksSeen(k, c, key, val, m, InlineTest(cache.hash)),
                       cache.known, cache.hash)
    {
      scaledSlice := EmptyStrings(SLOTS);
      scaledSlice := scaledSlice[k[m] := oldNode];
      scaledSlice := scaledSlice[key[m] := newNode];
      ForksShown(cache.Seen(), scaledSlice, k, c, key, val, m, cache.known, cache.hash);
    }

    method PutFork(k: seq<int>, key: seq<int>, m: nat, oldNode: GoValue, newNode: GoValue,
                   ghost c: Tree, ghost val: Tree, ghost w: View, ghost nodes: map<Bytes, Entry>, ghost isDirty: bool)
      returns (newHash: GoValue)
      requires Formed(Path(k, c)) && IsTerminated(key) && m < |k| && m < |key| && k[m] != key[m] && WordSlot(val)
      requires 0 <= k[m] <= 16 && 0 <= key[m] <= 16
      requires AllPuttable(New(k[m + 1..], c).puts) && AllPuttable(New(key[m + 1..], val).puts)
      requires ShowsAfter(w, nodes, isDirty, newNode,
                          Effect(Onto(key[m + 1..], val), New(k[m + 1..], c).puts + New(key[m + 1..], val).puts))
      requires Sees(oldNode, RenewAll(Onto(k[m + 1..], c), New(key[m + 1..], val).puts, InlineTest(cache.hash)))
      requires KnownTree(ForksPut(k, c, key, val, m, InlineTest(cache.hash)).tree, cache.known, cache.hash)
      modifies cache
      ensures Leaves(w, nodes, isDirty, newHash, ForksPut(k, c, key, val, m, InlineTest(cache.hash)))
    {
      var scaledSlice := ForkSlots(k, key, m, oldNode, newNode, c, val);
      ForksPutFits(k, c, key, val, m, InlineTest(cache.hash));
      newHash := PutChanged(scaledSlice, w, nodes, isDirty,
                            Effect(Onto(key[m + 1..], val), New(k[m + 1..], c).puts + New(key[m + 1..], val).puts),
                            ForksSeen(k, c, key, val, m, InlineTest(cache.hash)), newNode);
    }

    // ---------- DeleteState ----------

    /** None is the slice-bounds panic of line 363, before which nothing is put. */
    ghost predicate DeleteLeaves(w: View, nodes: map<Bytes, Entry>, isDirty: bool, r: Option<GoValue>,
                                 t: Tree, key: seq<int>, room: nat)
      requires key == [] || (IsTerminated(key) && Formed(t))
      reads cache, cache.db
    {
      if r.None? then key != [] && Overruns(t, key, room) && OnlyRead(w, nodes, isDirty)
      else (key == [] || !Overruns(t, key, room))
           && Leaves(w, nodes, isDirty, r.value, Deleted(t, key, InlineTest(cache.hash)))
    }

    method DeleteState(node: GoValue, key: seq<int>, room: nat, ghost v: View, ghost t: Tree)
      returns (r: Option<GoValue>)
      requires Ready(v) && Shows(v, node, t, cache.known, cache.hash)
      requires key == [] || (IsTerminated(key) && Formed(t) && DeletePutsKnown(t, key, cache.known, cache.hash))
      modifies cache
      ensures DeleteLeaves(old(cache.Seen()), old(cache.nodes), old(cache.isDirty), r, t, key, room)
      decreases |key|, 3
    {
      if |key| == 0 {
        OffNothing(t, key, room, cache.hash);
        NothingLeft();
        return Some(GoString([]));
      }
      VacantKinds(v, node, t, cache.known, cache.hash);
      if Vacant(node) {
        OffNothing(t, key, room, cache.hash);
        NothingLeft();
        return Some(GoString([]));
      }
      r := DeleteAtNode(node, key, room, v, t);
    }

    /** Without a put, the empty string is what a deletion returns that leaves nothing. */
    lemma NothingLeft()
      requires cache.Valid()
      ensures Leaves(cache.Seen(), cache.nodes, cache.isDirty, GoString([]), Effect(Blank(true), []))
    {
      NothingShown(cache.Seen(), cache.known, cache.hash);
      NothingPut(GoString([]), Blank(true));
    }

    /** DeleteState on a reference to a node, from line 353 on. */
    method DeleteAtNode(node: GoValue, key: seq<int>, room: nat, ghost v: View, ghost t: Tree)
      returns (r: Option<GoValue>)
      requires Ready(v) && Shows(v, node, t, cache.known, cache.hash) && IsNode(t)
      requires IsTerminated(key) && Formed(t) && DeletePutsKnown(t, key, cache.known, cache.hash)
      modifies cache
      ensures DeleteLeaves(old(cache.Seen()), old(cache.nodes), old(cache.isDirty), r, t, key, room)
      decreases |key|, 2
    {
      ghost var w, nodes, isDirty := cache.Seen(), cache.nodes, cache.isDirty;
      ViewFits(nodes, cache.db.data, cache.known, cache.hash);
      var currentNode := GetNode(node, v, t);
      ghost var u, nodes', isDirty' := cache.Seen(), cache.nodes, cache.isDirty;
      ShowsExtends(v, u, node, t, cache.known, cache.hash);
      r := DeleteBehind(node, currentNode, key, room, v, t);
      ReadBeforeDelete(w, nodes, isDirty, u, nodes', isDirty', r, t, key, room);
    }

    lemma ReadBeforeDelete(w: View, nodes: map<Bytes, Entry>, isDirty: bool, u: View, nodes': map<Bytes, Entry>,
                           isDirty': bool, r: Option<GoValue>, t: Tree, key: seq<int>, room: nat)
      requires IsTerminated(key) && Formed(t) && Fits(w, cache.known, cache.hash) && Extends(w, u)
      requires Later(nodes, isDirty, nodes', isDirty', cache.db.data)
      requires DeleteLeaves(u, nodes', isDirty', r, t, key, room)
      ensures DeleteLeaves(w, nodes, isDirty, r, t, key, room)
    {
      if r.Some? {
        ReadBefore(w, nodes, isDirty, u, nodes', isDirty', r.value, Deleted(t, key, InlineTest(cache.hash)));
      }
    }

    method DeleteBehind(node: GoValue, currentNode: GoValue, key: seq<int>, room: nat, ghost v: View, ghost t: Tree)
      returns (r: Option<GoValue>)
      requires Ready(v) && IsNode(t) && Formed(t) && SlotsShown(v, currentNode, t, cache.known, cache.hash)
      requires Len(currentNode) == Width(t) && Sees(node, t)
      requires IsTerminated(key) && DeletePutsKnown(t, key, cache.known, cache.hash)
      modifies cache
      ensures DeleteLeaves(old(cache.Seen()), old(cache.nodes), old(cache.isDirty), r, t, key, room)
      decreases |key|, 1, 1
    {
      if Len(currentNode) == 2 {
        r := DeleteAtShort(node, currentNode, key, room, v, t.key, t.child);
      } else {
        r := DeleteAtFull(currentNode, key, room, v, t.slots);
      }
    }

    /** The branch of DeleteState for a two-slot node, lines 355-378. */
    method DeleteAtShort(node: GoValue, currentNode: GoValue, key: seq<int>, room: nat,
                         ghost v: View, ghost k0: seq<int>, ghost c: Tree)
      returns (r: Option<GoValue>)
      requires Ready(v) && Formed(Path(k0, c)) && SlotsShown(v, currentNode, Path(k0, c), cache.known, cache.hash)
      requires Sees(node, Path(k0, c))
      requires IsTerminated(key) && DeletePutsKnown(Path(k0, c), key, cache.known, cache.hash)
      modifies cache
      ensures DeleteLeaves(old(cache.Seen()), old(cache.nodes), old(cache.isDirty), r, Path(k0, c), key, room)
      decreases |key|, 1, 0
    {
      ExpandInvertsCompact(k0);
      OffPath(k0, c, key, room, InlineTest(cache.hash));
      var compact := StrOf(ItemAt(currentNode, 0));
      var k := CompactDecode(compact);
      var same := CompareIntSlice(k, key);
      if same {
        NothingLeft();
        return Some(GoString([]));
      }
      if |k| > |key| + room {
        return None;
      }
      var matches := BeginsWith(key, k);
      if matches {
        r := DeleteBelowShort(compact, k, ItemAt(currentNode, 1), key, room, v, c);
      } else {
        NothingPut(node, Path(k, c));
        return Some(node);
      }
    }

    /** The recursive case of a two-slot node, lines 364-375. */
    method DeleteBelowShort(compact: Bytes, k: seq<int>, below: GoValue, key: seq<int>, room: nat,
                            ghost v: View, ghost c: Tree)
      returns (r: Option<GoValue>)
      requires Ready(v) && Formed(Path(k, c)) && compact == Compact(k) && Shows(v, below, c, cache.known, cache.hash)
      requires IsTerminated(key) && k != key && k <= key && |k| <= |key| + room
      requires DeletePutsKnown(Path(k, c), key, cache.known, cache.hash)
      modifies cache
      ensures DeleteLeaves(old(cache.Seen()), old(cache.nodes), old(cache.isDirty), r, Path(k, c), key, room)
      decreases |key|, 0
    {
      ghost var w, nodes, isDirty := cache.Seen(), cache.nodes, cache.isDirty;
      ghost var left := DeleteBelowFacts(k, c, key, room, cache.known, cache.hash);
      var hash := DeleteState(below, key[|k|..], room, v, c);
      if hash.None? {
        return None;
      }
      var joined := Join(compact, k, hash.value, w, nodes, isDirty, left);
      return Some(joined);
    }

    /** The node above a changed child: lines 365-375. */
    method Join(compact: Bytes, k: seq<int>, hash: GoValue, ghost w: View, ghost nodes: map<Bytes, Entry>,
                ghost isDirty: bool, ghost left: Effect)
      returns (r: GoValue)
      requires Leaves(w, nodes, isDirty, hash, left) && IsPath(k) && !IsTerminated(k) && compact == Compact(k)
      requires Formed(left.tree) && AllPuttable(left.puts)
      requires KnownTree(Rejoined(k, left.tree), cache.known, cache.hash)
      modifies cache
      ensures Leaves(w, nodes, isDirty, r, Above(left, Rejoined(k, left.tree)))
    {
      ghost var u, nodes', isDirty' := cache.Seen(), cache.nodes, cache.isDirty;
      r := JoinRead(compact, k, hash, left.tree);
      PutAbove(w, nodes, isDirty, u, nodes', isDirty', left, r, Rejoined(k, left.tree));
    }

    method JoinRead(compact: Bytes, k: seq<int>, hash: GoValue, ghost left: Tree) returns (r: GoValue)
      requires cache.Valid() && Sees(hash, left) && IsPath(k) && !IsTerminated(k) && compact == Compact(k)
      requires Formed(left) && KnownTree(Rejoined(k, left), cache.known, cache.hash)
      modifies cache
      ensures Leaves(old(cache.Seen()), old(cache.nodes), old(cache.isDirty), r, Alone(Rejoined(k, left)))
    {
      ghost var v, nodes, isDirty := cache.Seen(), cache.nodes, cache.isDirty;
      ViewFits(nodes, cache.db.data, cache.known, cache.hash);
      var child := GetNode(hash, v, left);
      ghost var u, nodes', isDirty' := cache.Seen(), cache.nodes, cache.isDirty;
      if Len(child) == 2 {
        SlotsExtend(v, u, child, left, cache.known, cache.hash);
        r := JoinPath(k, child, left.key, left.child);
      } else {
        ShowsExtends(v, u, hash, left, cache.known, cache.hash);
        r := PutPair(compact, hash, k, left);
      }
      ReadBefore(v, nodes, isDirty, u, nodes', isDirty', r, Alone(Rejoined(k, left)));
    }

    /** Lines 368-369: `append(k, ...)` on the child's path. */
    method JoinPath(k: seq<int>, child: GoValue, ghost k2: seq<int>, ghost c: Tree) returns (r: GoValue)
      requires cache.Valid() && IsPath(k) && !IsTerminated(k) && Formed(Path(k2, c))
      requires SlotsShown(cache.Seen(), child, Path(k2, c), cache.known, cache.hash)
      requires KnownTree(Path(k + k2, c), cache.known, cache.hash)
      modifies cache
      ensures Leaves(old(cache.Seen()), old(cache.nodes), old(cache.isDirty), r, Alone(Path(k + k2, c)))
    {
      ExpandInvertsCompact(k2);
      JoinPaths(k, k2);
      var rest := CompactDecode(StrOf(ItemAt(child, 0)));
      var newKey := k + rest;
      var compact := CompactEncode(newKey);
      r := PutPair(compact, ItemAt(child, 1), newKey, c);
    }

    /** The branch of DeleteState for a 17-slot node, lines 380-391. */
    method DeleteAtFull(currentNode: GoValue, key: seq<int>, room: nat, ghost v: View, ghost s: seq<Tree>)
      returns (r: Option<GoValue>)
      requires Ready(v) && Formed(Branch(s)) && AllShown(v, currentNode, s, cache.known, cache.hash)
      requires IsTerminated(key) && DeletePutsKnown(Branch(s), key, cache.known, cache.hash)
      modifies cache
      ensures DeleteLeaves(old(cache.Seen()), old(cache.nodes), old(cache.isDirty), r, Branch(s), key, room)
      decreases |key|, 1, 0
    {
      ghost var w, nodes, isDirty := cache.Seen(), cache.nodes, cache.isDirty;
      ghost var left := DeleteInSlot(s, key, room, cache.known, cache.hash);
      var n := CopySlots(currentNode);
      var slot := DeleteState(n[key[0]], key[1..], room, v, s[key[0]]);
      if slot.None? {
        return None;
      }
      AllShownWith(v, w, cache.Seen(), currentNode, s, key[0], slot.value, left, cache.known, cache.hash);
      n := n[key[0] := slot.value];
      var shrunk := ShrinkChanged(n, w, nodes, isDirty, left, SeenSlots(s, key, InlineTest(cache.hash)), slot.value);
      return Some(shrunk);
    }

    /** What is made of the slots of which one changed. */
    method ShrinkChanged(n: seq<GoValue>, ghost w: View, ghost nodes: map<Bytes, Entry>, ghost isDirty: bool,
                         ghost left: Effect, ghost s: seq<Tree>, ghost slot: GoValue)
      returns (r: GoValue)
      requires Leaves(w, nodes, isDirty, slot, left) && AllPuttable(left.puts)
      requires AllShown(cache.Seen(), GoList(n), s, cache.known, cache.hash) && Formed(Branch(s))
      requires KnownTree(Shrunk(s, InlineTest(cache.hash)), cache.known, cache.hash)
      modifies cache
      ensures Leaves(w, nodes, isDirty, r, Above(left, Shrunk(s, InlineTest(cache.hash))))
    {
      ghost var u, nodes', isDirty' := cache.Seen(), cache.nodes, cache.isDirty;
      r := Shrink(n, s);
      PutAbove(w, nodes, isDirty, u, nodes', isDirty', left, r, Shrunk(s, InlineTest(cache.hash)));
    }

    /** The node for what is left of a branch: lines 392-419. */
    method Shrink(n: seq<GoValue>, ghost s: seq<Tree>) returns (r: GoValue)
      requires cache.Valid() && Formed(Branch(s)) && AllShown(cache.Seen(), GoList(n), s, cache.known, cache.hash)
      requires KnownTree(Shrunk(s, InlineTest(cache.hash)), cache.known, cache.hash)
      modifies cache
      ensures Leaves(old(cache.Seen()), old(cache.nodes), old(cache.isDirty), r,
                     Alone(Shrunk(s, InlineTest(cache.hash))))
    {
      SlotKinds(n, s);
      var amount := CountSlots(n, s);
      if amount == 16 {
        var compact := CompactEncode([16]);
        r := PutPair(compact, n[16], [16], s[16]);
      } else if amount >= 0 {
        r := ShrinkOnto(n[amount], amount, s[amount]);
      } else {
        r := PutSlots(n, s);
      }
    }

    lemma SlotKinds(n: seq<GoValue>, s: seq<Tree>)
      requires cache.Valid() && Formed(Branch(s)) && AllShown(cache.Seen(), GoList(n), s, cache.known, cache.hash)
      ensures forall i :: 0 <= i < 17 ==> (n[i] == GoString([]) <==> s[i] == Blank(true))
    {
      ViewFits(cache.nodes, cache.db.data, cache.known, cache.hash);
      forall i | 0 <= i < 17 ensures n[i] == GoString([]) <==> s[i] == Blank(true) {
        SlotKind(cache.Seen(), n[i], s[i], cache.known, cache.hash);
      }
    }

    /** The one slot that counts: lines 405-411. A child that is neither of 17 nor of 2 slots leaves the nil slice. */
    method ShrinkOnto(slot: GoValue, amount: int, ghost x: Tree) returns (r: GoValue)
      requires cache.Valid() && Formed(x) && 0 <= amount < 16 && Sees(slot, x)
      requires KnownTree(OneLeft(amount, x, InlineTest(cache.hash)), cache.known, cache.hash)
      modifies cache
      ensures Leaves(old(cache.Seen()), old(cache.nodes), old(cache.isDirty), r,
                     Alone(OneLeft(amount, x, InlineTest(cache.hash))))
    {
      ghost var v, nodes, isDirty := cache.Seen(), cache.nodes, cache.isDirty;
      ViewFits(nodes, cache.db.data, cache.known, cache.hash);
      var child := GetNode(slot, v, x);
      ghost var u, nodes', isDirty' := cache.Seen(), cache.nodes, cache.isDirty;
      ShowsExtends(v, u, slot, x, cache.known, cache.hash);
      if IsNode(x) {
        SlotsExtend(v, u, child, x, cache.known, cache.hash);
      }
      r := ShrinkBehind(slot, child, amount, x);
      ReadBefore(v, nodes, isDirty, u, nodes', isDirty', r, Alone(OneLeft(amount, x, InlineTest(cache.hash))));
    }

    method ShrinkBehind(slot: GoValue, child: GoValue, amount: int, ghost x: Tree) returns (r: GoValue)
      requires cache.Valid() && Formed(x) && 0 <= amount < 16 && Sees(slot, x) && Len(child) == Width(x)
      requires IsNode(x) ==> SlotsShown(cache.Seen(), child, x, cache.known, cache.hash)
      requires KnownTree(OneLeft(amount, x, InlineTest(cache.hash)), cache.known, cache.hash)
      modifies cache
      ensures Leaves(old(cache.Seen()), old(cache.nodes), old(cache.isDirty), r,
                     Alone(OneLeft(amount, x, InlineTest(cache.hash))))
    {
      if Len(child) == 17 {
        var compact := CompactEncode([amount]);
        r := PutPair(compact, slot, [amount], x);
      } else if Len(child) == 2 {
        r := ShrinkOntoPath(child, amount, x.key, x.child);
      } else {
        r := PutNil();
      }
    }

    /** Line 410: `.Str()` of the grandchild. */
    method ShrinkOntoPath(child: GoValue, amount: int, ghost k: seq<int>, ghost c: Tree) returns (r: GoValue)
      requires cache.Valid() && 0 <= amount < 16 && Formed(Path(k, c))
      requires SlotsShown(cache.Seen(), child, Path(k, c), cache.known, cache.hash)
      requires KnownTree(Path([amount] + k, Cut(c, InlineTest(cache.hash))), cache.known, cache.hash)
      modifies cache
      ensures Leaves(old(cache.Seen()), old(cache.nodes), old(cache.isDirty), r,
                     Alone(Path([amount] + k, Cut(c, InlineTest(cache.hash)))))
    {
      ViewFits(cache.nodes, cache.db.data, cache.known, cache.hash);
      ExpandInvertsCompact(k);
      JoinPaths([amount], k);
      CutFormed(k, c, InlineTest(cache.hash));
      CutShown(cache.Seen(), ItemAt(child, 1), c, cache.known, cache.hash);
      var rest := CompactDecode(StrOf(ItemAt(child, 0)));
      var key := [amount] + rest;
      var compact := CompactEncode(key);
      r := PutPair(compact, GoString(StrOf(ItemAt(child, 1))), key, Cut(c, InlineTest(cache.hash)));
    }

    // ---------- The public functions ----------

    /** None is a panic, before which nothing is put. */
    method UpdateState(node: GoValue, key: seq<int>, value: Bytes, room: nat, ghost op: Op) returns (r: Option<GoValue>)
      requires Readable() && node == root && key == KeyPath(op.key) && value == op.value
      requires UpdateKnown(tree, op, cache.known, cache.hash)
      modifies cache
      ensures r.None? <==> Panics(tree, op, room)
      ensures r.None? ==> OnlyRead(old(cache.Seen()), old(cache.nodes), old(cache.isDirty))
      ensures r.Some? ==> Leaves(old(cache.Seen()), old(cache.nodes), old(cache.isDirty), r.value,
                                 StepEffect(tree, op, InlineTest(cache.hash)))
    {
      ViewFits(cache.nodes, cache.db.data, cache.known, cache.hash);
      if value != [] {
        WordInsertable(tree, key, value, InlineTest(cache.hash));
        WordShown(cache.Seen(), value, cache.known, cache.hash);
        var inserted := InsertState(node, key, GoString(value), cache.Seen(), tree, Word(value, false));
        r := Some(inserted);
      } else {
        r := DeleteState(node, key, room, cache.Seen(), tree);
      }
    }

    /**
     Update; false is the panic of a deletion, which leaves the root as it was. The tree that is seen afterwards is
     known exactly, the kinds that other puts changed in it included.
     */
    method Update(key: Bytes, value: Bytes, room: nat) returns (ok: bool)
      requires Readable() && UpdateKnown(tree, Op.Update(key, value), cache.known, cache.hash)
      modifies this`root, this`tree, cache
      ensures Readable() && Later(old(cache.nodes), old(cache.isDirty), cache.nodes, cache.isDirty, cache.db.data)
      ensures ok <==> !Panics(old(tree), Op.Update(key, value), room)
      ensures !ok ==> tree == old(tree) && root == old(root)
      ensures ok ==> tree == StepAsCoded(old(tree), Op.Update(key, value), InlineTest(cache.hash))
      ensures ok && StepEffect(old(tree), Op.Update(key, value), InlineTest(cache.hash)).puts != [] ==> JustPut(root)
    {
      var k := CompactHexDecode(key);
      ghost var op := Op.Update(key, value);
      ghost var w := cache.Seen();
      ViewFits(cache.nodes, cache.db.data, cache.known, cache.hash);
      var r := UpdateState(root, k, value, room, op);
      ok := r.Some?;
      if ok {
        root, tree := r.value, StepAsCoded(tree, op, InlineTest(cache.hash));
      } else {
        ShowsExtends(w, cache.Seen(), root, tree, cache.known, cache.hash);
      }
    }

    method Get(key: Bytes) returns (value: Bytes)
      requires Readable()
      modifies cache`nodes
      ensures Readable() && Later(old(cache.nodes), old(cache.isDirty), cache.nodes, cache.isDirty, cache.db.data)
      ensures value == Answer(tree, KeyPath(key))
    {
      var k := CompactHexDecode(key);
      ghost var w := cache.Seen();
      ViewFits(cache.nodes, cache.db.data, cache.known, cache.hash);
      var c := GetState(root, k, w, tree);
      FoundIsWord(tree, k);
      ShownText(w, c, Find(tree, k), cache.known, cache.hash);
      ShowsExtends(w, cache.Seen(), root, tree, cache.known, cache.hash);
      value := StrOf(c);
    }

    /**
     On a flagged cache everything of the current tree reaches the database. The same tree is seen, unless the cache is
     emptied and its nodes have to be read again.
     */
    method Sync() returns (ghost emptied: bool)
      requires Readable()
      modifies this, cache, cache.db
      ensures Readable() && root == prevRoot == old(root) && prevTree == tree && prevSeen == cache.Seen() && Settled()
      ensures tree == if emptied then Refetch(old(tree), InlineTest(cache.hash)) else old(tree)
      ensures !cache.isDirty && Grows(old(cache.db.data), cache.db.data)
      ensures old(Flags(cache.nodes, cache.isDirty)) ==> Valid()
      ensures !old(cache.isDirty) ==> cache.nodes == old(cache.nodes) && cache.db.data == old(cache.db.data) && !emptied
    {
      ghost var nodes, data, isDirty := cache.nodes, cache.db.data, cache.isDirty;
      cache.Commit();
      emptied := isDirty && cache.nodes == map[] && nodes != map[];
      CommitSeen(nodes, data, isDirty, cache.nodes, cache.db.data, root, tree, cache.known, cache.hash);
      Remember(if emptied then Refetch(tree, InlineTest(cache.hash)) else tree);
    }

    /** `t.prevRoot = copyRoot(t.Root)`. */
    method Remember(ghost t: Tree)
      requires cache.Valid() && Formed(t) && Sees(root, t)
      modifies this
      ensures root == prevRoot == old(root) && tree == prevTree == t && prevSeen == cache.Seen()
      ensures Readable() && Settled()
      ensures Held(AsNode(t, true), cache.db.data.Keys, cache.known, cache.hash) ==> Restorable()
    {
      ViewFits(cache.nodes, cache.db.data, cache.known, cache.hash);
      ghost var v := cache.Seen();
      prevRoot, tree, prevTree, prevSeen := root, t, t, v;
    }

    /** Back to what was written at the last Sync, whatever was put since; no key is hidden that was not. */
    method Undo()
      requires cache.Valid() && Restorable() && Settled()
      modifies this, cache
      ensures Valid() && !cache.isDirty
      ensures AsNode(tree, true) == AsNode(old(prevTree), true) && tree == prevTree && root == prevRoot == old(prevRoot)
      ensures StillSeen(old(prevTree), tree) && tree == Now(cache.Seen(), root, AsNode(old(prevTree), true))
      ensures Reread(old(prevSeen), cache.Seen(), cache.known, cache.hash)
      ensures cache.nodes == map k | k in old(cache.nodes) && !old(cache.nodes)[k].dirty :: old(cache.nodes)[k]
    {
      ghost var nodes, n := cache.nodes, AsNode(prevTree, true);
      cache.Undo();
      UndoneSeen(nodes, cache.nodes, cache.db.data, prevSeen, cache.known, cache.hash);
      HeldGrows(n, cache.db.data.Keys, cache.Seen().Keys, cache.known, cache.hash);
      NowStands(cache.Seen(), prevRoot, prevTree, cache.known, cache.hash);
      RereadStill(prevSeen, cache.Seen(), prevRoot, prevRoot, n, cache.known, cache.hash);
      root, tree := prevRoot, Now(cache.Seen(), prevRoot, n);
      prevTree, prevSeen := tree, cache.Seen();
    }

    /** Cmp compares the roots in depth: they are equal when the tries are written alike and both roots of one kind. */
    method Cmp(trie: Trie) returns (r: bool)
      requires Readable() && trie.Readable()
      requires trie.cache.hash == cache.hash && trie.cache.known == cache.known
      ensures r <==> AsNode(tree, true) == AsNode(trie.tree, true) && SameKinds(root, trie.root)
      ensures root.GoBytes? && trie.root.GoBytes? ==> SameKinds(root, trie.root)
    {
      r := root == trie.root;
      HeldIsKnown(AsNode(tree, true), cache.Seen().Keys, cache.known, cache.hash);
      HeldIsKnown(AsNode(trie.tree, true), trie.cache.Seen().Keys, cache.known, cache.hash);
      FormedLayout(tree);
      FormedLayout(trie.tree);
      RefsCompareTrees(AsNode(tree, true), AsNode(trie.tree, true), cache.known, cache.hash);
      EqualValues(root, trie.root);
    }

    /** Copy takes the nodes over, dirty ones too, but not IsDirty, and the current root as the old one. */
    method Copy() returns (trie: Trie)
      requires Readable()
      ensures fresh(trie) && fresh(trie.cache) && trie.Readable()
      ensures trie.cache.db == cache.db && trie.cache.hash == cache.hash && trie.cache.known == cache.known
      ensures trie.tree == trie.prevTree == tree && trie.root == trie.prevRoot == root
      ensures trie.cache.nodes == cache.nodes && !trie.cache.isDirty
    {
      trie := new Trie(cache.db, root, cache.hash, cache.known, tree);
      CopyNodes(trie.cache);
      assert trie.cache.Valid();
      assert trie.cache.Seen() == cache.Seen();
    }

    method CopyNodes(to: Cache)
      requires to != cache && to.nodes == map[]
      modifies to`nodes
      ensures to.nodes == cache.nodes
    {
      var todo := cache.nodes.Keys;
      while todo != {}
        invariant todo <= cache.nodes.Keys
        invariant to.nodes == map k | k in cache.nodes && k !in todo :: cache.nodes[k]
        decreases todo
      {
        var key :| key in todo;
        to.nodes := to.nodes[key := cache.nodes[key]];
        todo := todo - {key};
      }
    }
  }

  lemma InlineShown(v: View, g: GoValue, x: Tree, known: set<Item>, h: Hash)
    requires g.GoList? && Whole(g) && IsNode(x) && Formed(x) && KnownTree(x, known, h) && Inline(AsNode(x, true), h)
    requires Plain(g) == NodeItem(AsNode(x, true), h) && SlotsShown(v, g, x, known, h)
    ensures Shows(v, g, x, known, h)
  {
    SlotsHeld(v, g, x, known, h);
    BehindSlots(v, g, x, known, h);
  }

  lemma HoleShown(v: View, known: set<Item>, h: Hash)
    ensures Shows(v, GoList([]), Hole, known, h)
  {
    assert Encoded(List([])) == [0xc0];
  }
}
