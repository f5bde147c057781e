/**
 What the trie's recursive methods need to know about one level of the tree they descend: which nodes are put, which of
 them are known, and what is shown afterwards.
 */
module TrieSteps {
  import opened ByteStrings
  import opened HexPrefix
  import opened Slices
  import opened Rlp
  import opened GoValues
  import opened PatriciaTree
  import opened TrieTheorems
  import opened CodedTree
  import opened CodedRight
  import opened Reading
  import opened SharedNodes
  import opened SharedAnswers
  import opened CodedRuns
  import opened NodeRefs
  import opened TrieViews

  // ---------- What the recursive methods store ----------

  /** InsertState also runs on an empty node with an open path, when it splits one. */
  function InsertOn(t: Tree, key: seq<int>, val: Tree, inline: Node -> bool): Effect
    requires t.Blank? || key == [] || (IsTerminated(key) && Formed(t))
  {
    if t.Blank? then New(key, val) else Inserted(t, key, val, inline)
  }

  /** InsertState's calls: a value under a terminated key, or any node below what is left of a split path. */
  predicate Insertable(t: Tree, key: seq<int>, val: Tree) {
    if t.Blank? then (if key == [] then Formed(val) || WordSlot(val) else Formed(Path(key, val)))
    else val.Word? && val.v != [] && (key == [] || (IsTerminated(key) && Formed(t)))
  }

  ghost predicate KnownTree(t: Tree, known: set<Item>, h: Hash) {
    Keyed(AsNode(t, true)) && Known(AsNode(t, true), known, h)
  }

  /** Every node a deletion puts into the cache is known: results on the way up may be joined and dropped. */
  ghost predicate DeletePutsKnown(t: Tree, key: seq<int>, known: set<Item>, h: Hash)
    requires IsTerminated(key) && Formed(t)
    decreases |key|
  {
    && KnownTree(Deleted(t, key, InlineTest(h)).tree, known, h)
    && match t
       case Path(k, c) =>
         k != key && k <= key ==> (PathInKey(k, key); DeletePutsKnown(c, key[|k|..], known, h))
       case Branch(s) => HeadOfKey(key); key[0] != 16 ==> DeletePutsKnown(s[key[0]], key[1..], known, h)
       case _ => true
  }

  /**
   The guard at line 363 slices `key[:len(k)]`, which panics when a path is longer than what is left of
   the key and the `room` spare elements behind it.
   */
  predicate Overruns(t: Tree, key: seq<int>, room: nat)
    requires IsTerminated(key) && Formed(t)
    decreases |key|
  {
    match t
    case Path(k, c) =>
      k != key && (|k| > |key| + room || (k <= key && (PathInKey(k, key); Overruns(c, key[|k|..], room))))
    case Branch(s) => HeadOfKey(key); key[0] != 16 && Overruns(s[key[0]], key[1..], room)
    case _ => false
  }

  /** What a walk along the key comes to behind its first `n` nibbles, if it is there at all. */
  function Along(t: Tree, key: seq<int>, n: nat): Option<Tree>
    decreases n
  {
    if n == 0 then Some(t) else
      match t
      case Path(k, c) => if 0 < |k| <= n && k < key then Along(c, key[|k|..], n - |k|) else None
      case Branch(s) => if key != [] && 0 <= key[0] < 16 && |s| == 17 then Along(s[key[0]], key[1..], n - 1) else None
      case _ => None
  }

  /** There the walk comes to a path that is longer than the rest of the key and `room` more. */
  predicate LongPathAt(t: Tree, key: seq<int>, n: nat, room: nat) {
    var u := Along(t, key, n);
    u.Some? && u.value.Path? && n <= |key| && |u.value.key| > |key| - n + room
  }

  /** The deletion panics if and only if the walk along the key comes to such a path. */
  lemma {:induction false} OverrunsExact(t: Tree, key: seq<int>, room: nat)
    requires IsTerminated(key) && Formed(t)
    ensures Overruns(t, key, room) <==> exists n: nat :: LongPathAt(t, key, n, room)
    decreases |key|
  {
    assert LongPathAt(t, key, 0, room) <==> t.Path? && |t.key| > |key| + room;
    match t
    case Path(k, c) =>
      if k < key {
        PathInKey(k, key);
        OverrunsExact(c, key[|k|..], room);
        forall n: nat | n >= |k|
          ensures LongPathAt(t, key, n, room) <==> LongPathAt(c, key[|k|..], n - |k|, room)
        {}
        if n: nat :| LongPathAt(c, key[|k|..], n, room) {
          assert LongPathAt(t, key, n + |k|, room);
        }
      }
    case Branch(s) =>
      HeadOfKey(key);
      if key[0] != 16 {
        OverrunsExact(s[key[0]], key[1..], room);
        if n: nat :| LongPathAt(s[key[0]], key[1..], n, room) {
          assert LongPathAt(t, key, n + 1, room);
        }
        forall n: nat | n >= 1
          ensures LongPathAt(t, key, n, room) <==> LongPathAt(s[key[0]], key[1..], n - 1, room)
        {}
      }
    case _ =>
  }

  // ---------- One update ----------

  ghost predicate UpdateKnown(t: Tree, op: Op, known: set<Item>, h: Hash)
    requires Formed(t)
  {
    if op.value != [] then KnownTree(Inserted(t, KeyPath(op.key), Word(op.value, false), InlineTest(h)).tree, known, h)
    else DeletePutsKnown(t, KeyPath(op.key), known, h)
  }

  predicate Panics(t: Tree, op: Op, room: nat)
    requires Formed(t)
  {
    op.value == [] && Overruns(t, KeyPath(op.key), room)
  }

  // ---------- Slots and nodes as they are put ----------

  /** EmptyStringSlice. */
  function EmptyStrings(l: nat): (r: seq<GoValue>)
    ensures |r| == l && forall i :: 0 <= i < l ==> r[i] == GoString([])
  {
    if l == 0 then [] else EmptyStrings(l - 1) + [GoString([])]
  }

  /** The slots of a branch, written. */
  lemma SlotsPut(v: View, items: seq<GoValue>, s: seq<Tree>, known: set<Item>, h: Hash)
    requires AllShown(v, GoList(items), s, known, h)
    ensures var n := AsNode(Branch(s), true); Keyed(n) && Plain(GoList(items)) == NodeItem(n, h)
  {
    var n := AsNodes(s, true);
    forall i | 0 <= i < |s| ensures Keyed(n[i]) && Plain(items[i]) == Ref(n[i], h) {
      assert Shows(v, items[i], s[i], known, h);
    }
    assert PlainAll(items) == SlotRefs(n, h);
  }

  lemma AllWhole(v: View, items: seq<GoValue>, s: seq<Tree>, known: set<Item>, h: Hash)
    requires |items| == |s| && forall i :: 0 <= i < |s| ==> Shows(v, items[i], s[i], known, h)
    ensures AllShown(v, GoList(items), s, known, h)
  {}

  /** The two slots of a path, written. */
  lemma PairPut(v: View, p: Bytes, g: GoValue, k: seq<int>, c: Tree, known: set<Item>, h: Hash)
    requires Shows(v, g, c, known, h) && IsPath(k) && p == Compact(k)
    ensures var x, n := GoList([GoString(p), g]), AsNode(Path(k, c), true);
            Keyed(n) && Whole(x) && Plain(x) == NodeItem(n, h) && SlotsShown(v, x, Path(k, c), known, h)
  {
    var items := [GoString(p), g];
    assert items[1..] == [g] && items[1..][1..] == [];
    assert PlainAll(items) == [Str(p), Ref(AsNode(c, true), h)];
  }

  /** One slot changes, and nodes are put for it. */
  lemma AllShownWith(v: View, w: View, u: View, x: GoValue, s: seq<Tree>, i: nat, g: GoValue, r: Effect,
                     known: set<Item>, h: Hash)
    requires Fits(v, known, h) && AllShown(v, x, s, known, h) && Formed(Branch(s)) && Extends(v, w) && i < 17
    requires Renewed(w, u, r.puts, known, h) && Shows(u, g, r.tree, known, h)
    ensures AllShown(u, GoList(x.items[i := g]), RenewAllSlots(s, r.puts, InlineTest(h))[i := r.tree], known, h)
  {
    var items, q := x.items[i := g], RenewAllSlots(s, r.puts, InlineTest(h))[i := r.tree];
    forall j | 0 <= j < 17 ensures Shows(u, items[j], q[j], known, h) {
      if j != i {
        ShowsExtends(v, w, x.items[j], s[j], known, h);
      }
    }
    AllWhole(u, items, q, known, h);
  }

  lemma {:induction false} WordStays(v: Bytes, low: bool, xs: seq<Tree>, inline: Node -> bool)
    ensures RenewAll(Word(v, low), xs, inline) == Word(v, low)
    decreases |xs|
  {
    if xs != [] {
      WordStays(v, low, xs[..|xs| - 1], inline);
    }
  }

  /** What was put after nodes were read. */
  lemma AfterReading(v: View, w: View, u: View, xs: seq<Tree>, known: set<Item>, h: Hash)
    requires Fits(v, known, h) && Extends(v, w) && Renewed(w, u, xs, known, h)
    ensures Renewed(v, u, xs, known, h)
  {
    forall g, t | Shows(v, g, t, known, h) && (Formed(t) || WordSlot(t))
      ensures Shows(u, g, RenewAll(t, xs, InlineTest(h)), known, h)
    {
      ShowsExtends(v, w, g, t, known, h);
    }
  }

  // ---------- Insertion ----------

  /** What InsertState puts behind the matching part of a two-slot node. */
  function BelowPath(k: seq<int>, c: Tree, key: seq<int>, val: Tree, inline: Node -> bool): Effect
    requires Formed(Path(k, c)) && IsTerminated(key) && k != key
  {
    var m := MatchLength(key, k);
    PathsPart(key, k);
    if m == |k| then
      assert k == key[..m];
      PathInKey(k, key);
      Inserted(c, key[m..], val, inline)
    else ForksPut(k, c, key, val, m, inline)
  }

  lemma BelowPathFacts(k: seq<int>, c: Tree, key: seq<int>, val: Tree, known: set<Item>, h: Hash)
    requires Formed(Path(k, c)) && IsTerminated(key) && k != key && val.Word? && val.v != []
    requires KnownTree(Inserted(Path(k, c), key, val, InlineTest(h)).tree, known, h)
    ensures var m := MatchLength(key, k);
            var below := BelowPath(k, c, key, val, InlineTest(h));
            && m < |key| && Inserted(Path(k, c), key, val, InlineTest(h)) == PrefixedBy(key[..m], below)
            && Formed(below.tree) && IsNode(below.tree) && KnownTree(below.tree, known, h) && AllPuttable(below.puts)
            && (m > 0 ==> IsPath(key[..m]) && !IsTerminated(key[..m]))
  {
    var m := MatchLength(key, k);
    PathsPart(key, k);
    if m > 0 {
      OpenPrefix(key, m);
    }
    if m == |k| {
      assert k == key[..m];
      PathInKey(k, key);
      InsertedFits(c, key[m..], val, InlineTest(h));
    } else {
      ForksPutFits(k, c, key, val, m, InlineTest(h));
    }
  }

  lemma MatchedBelow(k: seq<int>, c: Tree, key: seq<int>, val: Tree, inline: Node -> bool)
    requires Formed(Path(k, c)) && IsTerminated(key) && k != key
    ensures var m := MatchLength(key, k);
            && m < |key|
            && (if m == |k| then IsTerminated(key[m..]) && !IsTerminated(k) && Formed(c)
                               && BelowPath(k, c, key, val, inline) == Inserted(c, key[m..], val, inline)
                else k[m] != key[m] && BelowPath(k, c, key, val, inline) == ForksPut(k, c, key, val, m, inline))
  {
    var m := MatchLength(key, k);
    PathsPart(key, k);
    if m == |k| {
      assert k == key[..m];
      PathInKey(k, key);
    }
  }

  /** The new slot of a branch, and the branch. */
  lemma InsertBelow(s: seq<Tree>, key: seq<int>, val: Tree, known: set<Item>, h: Hash)
    requires Formed(Branch(s)) && IsTerminated(key) && val.Word? && val.v != []
    requires KnownTree(Inserted(Branch(s), key, val, InlineTest(h)).tree, known, h)
    ensures 0 <= key[0] <= 16 && Insertable(s[key[0]], key[1..], val) && (key[0] == 16 <==> key[1..] == [])
    ensures var r := InsertOn(s[key[0]], key[1..], val, InlineTest(h));
            var q := RenewAllSlots(s, r.puts, InlineTest(h))[key[0] := r.tree];
            && KnownTree(r.tree, known, h) && AllPuttable(r.puts)
            && Formed(Branch(q)) && Inserted(Branch(s), key, val, InlineTest(h)) == Above(r, Branch(q))
  {
    HeadOfKey(key);
    var i := key[0];
    var r := Inserted(s[i], key[1..], val, InlineTest(h));
    assert r == InsertOn(s[i], key[1..], val, InlineTest(h));
    InsertedFits(s[i], key[1..], val, InlineTest(h));
    InsertedFits(Branch(s), key, val, InlineTest(h));
    var q := RenewAllSlots(s, r.puts, InlineTest(h))[i := r.tree];
    assert AsNodes(q, true)[i] == AsNode(r.tree, true);
  }

  lemma ForksKnown(k: seq<int>, c: Tree, key: seq<int>, val: Tree, m: nat, known: set<Item>, h: Hash)
    requires Formed(Path(k, c)) && IsTerminated(key) && m < |k| && m < |key| && k[m] != key[m] && WordSlot(val)
    requires KnownTree(ForksPut(k, c, key, val, m, InlineTest(h)).tree, known, h)
    ensures 0 <= k[m] <= 16 && 0 <= key[m] <= 16
    ensures KnownTree(Onto(k[m + 1..], c), known, h) && KnownTree(Onto(key[m + 1..], val), known, h)
  {
    PathBounds(k, m);
    PathBounds(key, m);
    var s := ForksSeen(k, c, key, val, m, InlineTest(h));
    var n := AsNodes(s, true);
    ForkSlot(k, c, key, val, m, k[m], InlineTest(h));
    ForkSlot(k, c, key, val, m, key[m], InlineTest(h));
    ForkSlotFits(k, c, key, val, m, k[m], InlineTest(h));
    assert Known(n[k[m]], known, h) && Known(n[key[m]], known, h);
  }

  /** The split path and the new one, as InsertState gets them. */
  lemma ForksInsertable(k: seq<int>, c: Tree, key: seq<int>, val: Tree, m: nat)
    requires Formed(Path(k, c)) && IsTerminated(key) && m < |k| && m < |key| && val.Word? && val.v != []
    ensures Insertable(Blank(true), k[m + 1..], c) && Insertable(Blank(true), key[m + 1..], val)
    ensures 0 <= k[m] <= 16 && 0 <= key[m] <= 16
    ensures AllPuttable(New(k[m + 1..], c).puts) && AllPuttable(New(key[m + 1..], val).puts)
    ensures Formed(Onto(k[m + 1..], c)) || WordSlot(Onto(k[m + 1..], c))
  {
    PathBounds(k, m);
    PathBounds(key, m);
    OntoFormed(k, m, c);
    NewPuttable(k, m, c);
    NewPuttable(key, m, val);
    if m + 1 < |k| {
      OpenRest(k, m + 1);
    }
    if m + 1 < |key| {
      OpenRest(key, m + 1);
    }
  }

  /** The 17 slots of a split, as they are shown. */
  lemma ForksShown(v: View, items: seq<GoValue>, k: seq<int>, c: Tree, key: seq<int>, val: Tree, m: nat,
                   known: set<Item>, h: Hash)
    requires IsPath(k) && IsTerminated(key) && m < |k| && m < |key| && k[m] != key[m]
    requires 0 <= k[m] <= 16 && 0 <= key[m] <= 16 && |items| == 17
    requires Shows(v, items[k[m]], RenewAll(Onto(k[m + 1..], c), New(key[m + 1..], val).puts, InlineTest(h)), known, h)
    requires Shows(v, items[key[m]], Onto(key[m + 1..], val), known, h)
    requires forall i :: 0 <= i < 17 && i != k[m] && i != key[m] ==> items[i] == GoString([])
    ensures AllShown(v, GoList(items), ForksSeen(k, c, key, val, m, InlineTest(h)), known, h)
  {
    var s := ForksSeen(k, c, key, val, m, InlineTest(h));
    forall i | 0 <= i < 17 ensures Shows(v, items[i], s[i], known, h) {
      ForkSlot(k, c, key, val, m, i, InlineTest(h));
      if i != k[m] && i != key[m] {
        NothingShown(v, known, h);
      }
    }
    AllWhole(v, items, s, known, h);
  }

  /** Nothing is shown by the empty string. */
  lemma NothingShown(v: View, known: set<Item>, h: Hash)
    ensures Shows(v, GoString([]), Blank(true), known, h)
  {}

  lemma OnNothing(t: Tree, key: seq<int>, val: Tree, inline: Node -> bool)
    requires !IsNode(t) && key != [] && (t.Blank? || (IsTerminated(key) && Formed(t)))
    ensures InsertOn(t, key, val, inline) == Alone(Path(key, val))
  {}

  lemma WordInsertable(t: Tree, key: seq<int>, value: Bytes, inline: Node -> bool)
    requires Formed(t) && IsTerminated(key) && value != []
    ensures Insertable(t, key, Word(value, false))
    ensures InsertOn(t, key, Word(value, false), inline) == Inserted(t, key, Word(value, false), inline)
  {}

  lemma WordShown(v: View, value: Bytes, known: set<Item>, h: Hash)
    requires value != []
    ensures Shows(v, GoString(value), Word(value, false), known, h)
  {}

  // ---------- Deletion ----------

  lemma DeleteBelowFacts(k: seq<int>, c: Tree, key: seq<int>, room: nat, known: set<Item>, h: Hash)
    returns (below: Effect)
    requires Formed(Path(k, c)) && IsTerminated(key) && k != key && k <= key
    requires DeletePutsKnown(Path(k, c), key, known, h)
    ensures IsPath(k) && !IsTerminated(k) && IsTerminated(key[|k|..]) && Formed(c)
    ensures below == Deleted(c, key[|k|..], InlineTest(h)) && Formed(below.tree) && AllPuttable(below.puts)
    ensures Deleted(Path(k, c), key, InlineTest(h)) == Above(below, Rejoined(k, below.tree))
    ensures KnownTree(Rejoined(k, below.tree), known, h) && DeletePutsKnown(c, key[|k|..], known, h)
    ensures Overruns(Path(k, c), key, room) <==> |k| > |key| + room || Overruns(c, key[|k|..], room)
  {
    PathInKey(k, key);
    DeletedFits(c, key[|k|..], InlineTest(h));
    below := Deleted(c, key[|k|..], InlineTest(h));
  }

  lemma DeleteInSlot(s: seq<Tree>, key: seq<int>, room: nat, known: set<Item>, h: Hash) returns (below: Effect)
    requires Formed(Branch(s)) && IsTerminated(key) && DeletePutsKnown(Branch(s), key, known, h)
    ensures 0 <= key[0] <= 16 && IsRest(key[1..]) && (key[1..] == [] <==> key[0] == 16)
    ensures key[0] != 16 ==> Formed(s[key[0]]) && DeletePutsKnown(s[key[0]], key[1..], known, h)
    ensures below == Deleted(s[key[0]], key[1..], InlineTest(h)) && AllPuttable(below.puts)
    ensures Formed(Branch(SeenSlots(s, key, InlineTest(h))))
    ensures SeenSlots(s, key, InlineTest(h)) == RenewAllSlots(s, below.puts, InlineTest(h))[key[0] := below.tree]
    ensures Deleted(Branch(s), key, InlineTest(h))
         == Above(below, Shrunk(SeenSlots(s, key, InlineTest(h)), InlineTest(h)))
    ensures KnownTree(Shrunk(SeenSlots(s, key, InlineTest(h)), InlineTest(h)), known, h)
    ensures Overruns(Branch(s), key, room) <==> key[1..] != [] && Overruns(s[key[0]], key[1..], room)
  {
    HeadOfKey(key);
    below := Deleted(s[key[0]], key[1..], InlineTest(h));
    DeletedFits(s[key[0]], key[1..], InlineTest(h));
    SeenSlotsFit(s, key, InlineTest(h));
  }

  /** A deletion that does not go on below a two-slot node. */
  lemma OffPath(k: seq<int>, c: Tree, key: seq<int>, room: nat, inline: Node -> bool)
    requires IsTerminated(key) && Formed(Path(k, c))
    ensures k == key ==> Deleted(Path(k, c), key, inline) == Effect(Blank(true), []) && !Overruns(Path(k, c), key, room)
    ensures k != key && |k| > |key| + room ==> Overruns(Path(k, c), key, room)
    ensures !(k <= key) && |k| <= |key| + room ==>
              Deleted(Path(k, c), key, inline) == Effect(Path(k, c), []) && !Overruns(Path(k, c), key, room)
  {}

  /** A deletion where nothing is. */
  lemma OffNothing(t: Tree, key: seq<int>, room: nat, h: Hash)
    requires key == [] || (IsTerminated(key) && Formed(t) && !IsNode(t))
    ensures Deleted(t, key, InlineTest(h)) == Effect(Blank(true), [])
    ensures key == [] || !Overruns(t, key, room)
  {}

  // ---------- Kinds ----------

  /** The kinds of a reference, as GetNode tells them apart. */
  lemma NodeKinds(v: View, g: GoValue, t: Tree, known: set<Item>, h: Hash)
    requires Fits(v, known, h) && Formed(t) && Shows(v, g, t, known, h)
    ensures IsNode(t) ==> if g.GoList? then g.items != [] && !g.items[0].GoNil? && Behind(v, g) == g
                          else g.GoBytes? && IsStored(g.b, v, known, h) && |g.b| == 32 && Behind(v, g) == v[g.b]
    ensures t.Lost? ==> g.GoString? && g.s != []
    ensures t.Blank? || t.Hole? ==> Len(g) == 0 && ItemAt(g, 0).GoNil? && StrOf(g) == []
    ensures !IsNode(t) ==> ItemAt(g, 0).GoNil?
  {
    match t
    case Blank(b) => ShownBlank(v, g, b, known, h);
    case Hole => ShownHole(v, g, known, h);
    case Lost(u) => ShownLost(v, g, u, known, h);
    case Path(k, c) =>
      ShownPath(v, g, k, c, known, h);
      OpenNode(v, g, AsNode(t, true), known, h);
    case Branch(s) =>
      ShownBranch(v, g, s, known, h);
      OpenNode(v, g, AsNode(t, true), known, h);
  }

  /** How many slots GetNode finds. */
  function Width(t: Tree): nat {
    if t.Path? then 2 else if t.Branch? then 17 else 0
  }

  lemma NodeWidth(v: View, g: GoValue, t: Tree, known: set<Item>, h: Hash)
    requires Fits(v, known, h) && Formed(t) && Shows(v, g, t, known, h) && IsNode(t)
    ensures SlotsShown(v, Behind(v, g), t, known, h) && Len(Behind(v, g)) == Width(t)
  {
    ShownSlots(v, g, t, known, h);
  }

  lemma SlotsExtend(v: View, w: View, x: GoValue, t: Tree, known: set<Item>, h: Hash)
    requires Fits(v, known, h) && Formed(t) && SlotsShown(v, x, t, known, h) && Extends(v, w)
    ensures SlotsShown(w, x, t, known, h)
  {
    match t
    case Path(k, c) => ShowsExtends(v, w, x.items[1], c, known, h);
    case Branch(s) =>
      forall i | 0 <= i < 17 ensures Shows(w, x.items[i], s[i], known, h) {
        ShowsExtends(v, w, x.items[i], s[i], known, h);
      }
    case _ =>
  }

  /** An empty place, as InsertState and DeleteState tell it: also a hash kept as a Go string. */
  lemma VacantKinds(v: View, g: GoValue, t: Tree, known: set<Item>, h: Hash)
    requires Fits(v, known, h) && Formed(t) && Shows(v, g, t, known, h)
    ensures Vacant(g) <==> !IsNode(t)
  {
    NodeKinds(v, g, t, known, h);
  }

  /** Line 394 takes exactly the slots that hold nothing as a Go string for empty. */
  lemma SlotKind(v: View, g: GoValue, t: Tree, known: set<Item>, h: Hash)
    requires Fits(v, known, h) && Shows(v, g, t, known, h) && (Formed(t) || WordSlot(t))
    ensures g == GoString([]) <==> t == Blank(true)
  {
    match t
    case Word(w, low) => ShownWord(v, g, w, low, known, h);
    case Blank(b) => ShownBlank(v, g, b, known, h);
    case _ => NodeKinds(v, g, t, known, h);
              if t.Hole? {
                ShownHole(v, g, known, h);
              }
  }

  /** What line 410 keeps is shown as Cut says. */
  lemma CutShown(v: View, g: GoValue, c: Tree, known: set<Item>, h: Hash)
    requires Fits(v, known, h) && Shows(v, g, c, known, h) && (Formed(c) || WordSlot(c))
    ensures Shows(v, GoString(StrOf(g)), Cut(c, InlineTest(h)), known, h)
  {
    match c
    case Blank(b) => ShownBlank(v, g, b, known, h);
    case Hole => ShownHole(v, g, known, h);
    case Word(w, low) => ShownWord(v, g, w, low, known, h);
    case Lost(u) => CutLostShown(v, g, u, known, h);
    case _ => CutNodeShown(v, g, c, known, h);
  }

  lemma CutLostShown(v: View, g: GoValue, u: Tree, known: set<Item>, h: Hash)
    requires Fits(v, known, h) && Shows(v, g, Lost(u), known, h) && Formed(Lost(u))
    ensures Shows(v, GoString(StrOf(g)), Cut(Lost(u), InlineTest(h)), known, h)
  {
    ShownLost(v, g, u, known, h);
    OpenNode(v, g, AsNode(u, true), known, h);
    assert !Inline(AsNode(u, true), h);
  }

  lemma CutNodeShown(v: View, g: GoValue, c: Tree, known: set<Item>, h: Hash)
    requires Fits(v, known, h) && Shows(v, g, c, known, h) && Formed(c) && IsNode(c)
    ensures Shows(v, GoString(StrOf(g)), Cut(c, InlineTest(h)), known, h)
  {
    NodeKinds(v, g, c, known, h);
    StrKeepsBytes(g);
    if g.GoList? {
      assert Inline(AsNode(c, true), h);
      NothingShown(v, known, h);
    } else {
      assert !Inline(AsNode(c, true), h);
      LostNow(v, GoString(g.b), c);
    }
  }

  lemma FoundIsWord(t: Tree, key: seq<int>)
    requires IsTerminated(key) && Formed(t)
    ensures !IsNode(Find(t, key)) && !Find(t, key).Lost?
    decreases |key|
  {
    match t
    case Path(k, c) =>
      if k <= key {
        PathInKey(k, key);
        if k != key {
          FoundIsWord(c, key[|k|..]);
        }
      }
    case Branch(s) =>
      HeadOfKey(key);
      if key[0] != 16 {
        FoundIsWord(s[key[0]], key[1..]);
      }
    case _ =>
  }

  lemma ShownText(v: View, g: GoValue, t: Tree, known: set<Item>, h: Hash)
    requires Shows(v, g, t, known, h) && !IsNode(t) && !t.Lost?
    ensures StrOf(g) == Text(t)
  {
    match t
    case Blank(b) => ShownBlank(v, g, b, known, h);
    case Hole => ShownHole(v, g, known, h);
    case Word(w, low) => ShownWord(v, g, w, low, known, h);
  }
}
