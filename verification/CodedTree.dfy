/**
 What GetState, InsertState and DeleteState of ethutil/trie.go do, as functions on the tree behind a reference.

 Two things that the intended tree does not have tell how the code departs from it. A slot is empty as a Go string or
 as the empty bytes of a node that was read back, and line 394 recognises only the former. And line 410 turns the
 reference of a grandchild into a Go string: an inline list becomes "", and a hash is from then on taken for nothing,
 although it is written out as the hash it was.
 */
module CodedTree {
  import opened ByteStrings
  import opened HexPrefix
  import opened Slices
  import opened PatriciaTree
  import opened TrieTheorems

  /**
   `Blank` is an empty slot, as a Go string or as empty bytes; `Hole` is the empty list that `Put` returns for a nil
   slice; `Word` is a value, `low` when it is a single byte that was read back; `Lost` is a hash kept as a Go string.
   */
  datatype Tree =
    | Blank(isString: bool)
    | Hole
    | Word(v: Bytes, low: bool)
    | Path(key: seq<int>, child: Tree)
    | Branch(slots: seq<Tree>)
    | Lost(t: Tree)

  predicate IsNode(t: Tree) {
    t.Path? || t.Branch?
  }

  /** What may follow a terminator. */
  predicate WordSlot(t: Tree) {
    t.Blank? || (t.Word? && t.v != [])
  }

  /** What the recursion relies on. */
  predicate Formed(t: Tree) {
    match t
    case Blank(_) => true
    case Hole => true
    case Word(_, _) => false
    case Path(k, c) => IsPath(k) && if IsTerminated(k) then WordSlot(c) else Formed(c)
    case Branch(s) => |s| == 17 && WordSlot(s[16]) && forall i :: 0 <= i < 16 ==> Formed(s[i])
    case Lost(u) => IsNode(u) && Formed(u)
  }

  /** EmptyStringSlice. */
  function Blanks(l: nat): (s: seq<Tree>)
    ensures |s| == l && forall i :: 0 <= i < l ==> s[i] == Blank(true)
  {
    if l == 0 then [] else Blanks(l - 1) + [Blank(true)]
  }

  // ---------- The intended tree behind a coded one ----------

  /**
   As it is written out (`written`), with a hole as a branch without slots; or as lookups see it, without what hangs
   below a hash kept as a Go string.
   */
  function AsNode(t: Tree, written: bool): Node
    decreases t, 1
  {
    match t
    case Blank(_) => Empty
    case Hole => if written then Full([]) else Empty
    case Word(v, _) => Value(v)
    case Path(k, c) => Short(k, AsNode(c, written))
    case Branch(s) => Full(AsNodes(s, written))
    case Lost(u) => if written then AsNode(u, written) else Empty
  }

  function AsNodes(s: seq<Tree>, written: bool): (r: seq<Node>)
    ensures |r| == |s| && forall i :: 0 <= i < |s| ==> r[i] == AsNode(s[i], written)
    decreases s, 0
  {
    if s == [] then [] else [AsNode(s[0], written)] + AsNodes(s[1..], written)
  }

  /** No hash is kept as a Go string. */
  predicate Sound(t: Tree) {
    match t
    case Blank(_) => true
    case Hole => true
    case Word(_, _) => true
    case Path(_, c) => Sound(c)
    case Branch(s) => forall i :: 0 <= i < |s| ==> Sound(s[i])
    case Lost(_) => false
  }

  predicate NoHole(t: Tree) {
    match t
    case Blank(_) => true
    case Hole => false
    case Word(_, _) => true
    case Path(_, c) => NoHole(c)
    case Branch(s) => forall i :: 0 <= i < |s| ==> NoHole(s[i])
    case Lost(u) => NoHole(u)
  }

  /** No hash kept as a Go string, and no hole. */
  predicate Clear(t: Tree) {
    Sound(t) && NoHole(t)
  }

  lemma {:induction false} AsNodeShaped(t: Tree, written: bool)
    requires Formed(t) && (written ==> NoHole(t))
    ensures Shaped(AsNode(t, written))
    decreases t
  {
    match t
    case Path(k, c) =>
      if !IsTerminated(k) {
        AsNodeShaped(c, written);
      }
    case Branch(s) =>
      forall i | 0 <= i < 16 ensures Shaped(AsNode(s[i], written)) {
        AsNodeShaped(s[i], written);
      }
    case Lost(u) => AsNodeShaped(u, written);
    case _ =>
  }

  lemma {:induction false} SoundSeesAll(t: Tree)
    requires Clear(t)
    ensures AsNode(t, true) == AsNode(t, false)
    decreases t
  {
    match t
    case Path(_, c) => SoundSeesAll(c);
    case Branch(s) =>
      forall i | 0 <= i < |s| ensures AsNode(s[i], true) == AsNode(s[i], false) {
        SoundSeesAll(s[i]);
      }
      assert AsNodes(s, true) == AsNodes(s, false);
    case _ =>
  }

  lemma AsNodesUpdate(s: seq<Tree>, i: nat, t: Tree, written: bool)
    requires i < |s|
    ensures AsNodes(s[i := t], written) == AsNodes(s, written)[i := AsNode(t, written)]
  {}

  // ---------- GetState (trie.go:188-217) ----------

  function Find(t: Tree, key: seq<int>): Tree
    requires key == [] || (IsTerminated(key) && Formed(t))
    decreases |key|
  {
    if key == [] then t else
      match t
      case Path(k, c) => if k <= key then PathInKey(k, key); Find(c, key[|k|..]) else Blank(true)
      case Branch(s) => HeadOfKey(key); Find(s[key[0]], key[1..])
      case Lost(_) => Blank(true)
      case _ => t
  }

  function Text(t: Tree): Bytes {
    if t.Word? then t.v else []
  }

  /** What Get answers. */
  function Answer(t: Tree, key: seq<int>): Bytes
    requires key == [] || (IsTerminated(key) && Formed(t))
  {
    Text(Find(t, key))
  }

  /** Get answers with the lookup in the tree without what is lost. */
  lemma {:induction false} AnswerIsLookup(t: Tree, key: seq<int>)
    requires key == [] || (IsTerminated(key) && Formed(t))
    ensures key != [] ==> Shaped(AsNode(t, false))
    ensures Answer(t, key) == Lookup(AsNode(t, false), key)
    decreases |key|
  {
    if key != [] {
      AsNodeShaped(t, false);
      match t
      case Path(k, c) =>
        if k <= key {
          PathInKey(k, key);
          AnswerIsLookup(c, key[|k|..]);
        }
      case Branch(s) =>
        HeadOfKey(key);
        AnswerIsLookup(s[key[0]], key[1..]);
      case _ =>
    }
  }

  // ---------- InsertState (trie.go:270-340) ----------

  /** InsertState on nothing: a two-slot node, or the value itself when no path is left. */
  function Onto(k: seq<int>, val: Tree): Tree {
    if k == [] then val else Path(k, val)
  }

  /** A Go string of any content is taken for an empty place. */
  function Place(t: Tree, key: seq<int>, val: Tree): Tree
    requires key == [] || (IsTerminated(key) && Formed(t))
    decreases |key|
  {
    if key == [] then val else
      match t
      case Path(k, c) =>
        if k == key then Path(key, val) else
          var m := MatchLength(key, k);
          PathsPart(key, k);
          if m == |k| then
            assert k == key[..m];
            PathInKey(k, key);
            Onto(key[..m], Place(c, key[m..], val))
          else
            Onto(key[..m], Branch(Forks(k, c, key, val, m)))
      case Branch(s) => HeadOfKey(key); Branch(s[key[0] := Place(s[key[0]], key[1..], val)])
      case _ => Path(key, val)
  }

  function Forks(k: seq<int>, c: Tree, key: seq<int>, val: Tree, m: nat): (s: seq<Tree>)
    requires IsPath(k) && IsTerminated(key) && m < |k| && m < |key|
    ensures |s| == 17
  {
    PathBounds(k, m);
    PathBounds(key, m);
    Blanks(SLOTS)[k[m] := Onto(k[m + 1..], c)][key[m] := Onto(key[m + 1..], val)]
  }

  lemma OntoFormed(k: seq<int>, m: nat, c: Tree)
    requires IsPath(k) && m < |k|
    requires if IsTerminated(k) then WordSlot(c) else Formed(c)
    ensures var a := Onto(k[m + 1..], c); if k[m] == 16 then WordSlot(a) else Formed(a)
  {
    PathBounds(k, m);
    if m + 1 < |k| {
      OpenRest(k, m + 1);
    }
  }

  lemma ForksFormed(k: seq<int>, c: Tree, key: seq<int>, val: Tree, m: nat)
    requires Formed(Path(k, c)) && IsTerminated(key) && m < |k| && m < |key| && WordSlot(val)
    ensures Formed(Branch(Forks(k, c, key, val, m)))
  {
    PathBounds(k, m);
    PathBounds(key, m);
    OntoFormed(k, m, c);
    OntoFormed(key, m, val);
  }

  lemma {:induction false} PlaceFormed(t: Tree, key: seq<int>, val: Tree)
    requires IsTerminated(key) && Formed(t) && WordSlot(val)
    ensures Formed(Place(t, key, val)) && IsNode(Place(t, key, val))
    decreases |key|
  {
    match t
    case Path(k, c) =>
      if k != key {
        var m := MatchLength(key, k);
        PathsPart(key, k);
        if m > 0 {
          OpenPrefix(key, m);
        }
        if m == |k| {
          assert k == key[..m];
          PathInKey(k, key);
          PlaceFormed(c, key[m..], val);
        } else {
          ForksFormed(k, c, key, val, m);
        }
      }
    case Branch(s) =>
      HeadOfKey(key);
      if key[0] != 16 {
        PlaceFormed(s[key[0]], key[1..], val);
      }
    case _ =>
  }

  lemma BlanksAsNodes(l: nat, written: bool)
    ensures AsNodes(Blanks(l), written) == EmptySlots(l)
  {
    assert |EmptySlots(l)| == l;
  }

  lemma TwoAsNodes(s: seq<Tree>, i: nat, a: Tree, j: nat, b: Tree, written: bool)
    requires i < |s| && j < |s|
    ensures AsNodes(s[i := a][j := b], written) == AsNodes(s, written)[i := AsNode(a, written)][j := AsNode(b, written)]
  {
    AsNodesUpdate(s, i, a, written);
    AsNodesUpdate(s[i := a], j, b, written);
  }

  lemma ForksAsNodes(k: seq<int>, c: Tree, key: seq<int>, val: Tree, m: nat, written: bool)
    requires IsPath(k) && IsTerminated(key) && m < |k| && m < |key|
    ensures AsNodes(Forks(k, c, key, val, m), written) == Forked(k, AsNode(c, written), key, AsNode(val, written), m)
  {
    PathBounds(k, m);
    PathBounds(key, m);
    BlanksAsNodes(SLOTS, written);
    TwoAsNodes(Blanks(SLOTS), k[m], Onto(k[m + 1..], c), key[m], Onto(key[m + 1..], val), written);
  }

  /** By itself, an insertion is for lookups the intended one, whatever was lost before. */
  lemma {:induction false} PlaceIsInsert(t: Tree, key: seq<int>, val: Tree)
    requires key == [] || (IsTerminated(key) && Formed(t))
    ensures key != [] ==> Shaped(AsNode(t, false))
    ensures AsNode(Place(t, key, val), false) == Insert(AsNode(t, false), key, AsNode(val, false))
    decreases |key|, 1
  {
    if key != [] {
      AsNodeShaped(t, false);
      match t
      case Path(k, c) => PlaceInPath(k, c, key, val);
      case Branch(s) =>
        HeadOfKey(key);
        PlaceIsInsert(s[key[0]], key[1..], val);
        AsNodesUpdate(s, key[0], Place(s[key[0]], key[1..], val), false);
      case _ =>
    }
  }

  lemma {:induction false} PlaceInPath(k: seq<int>, c: Tree, key: seq<int>, val: Tree)
    requires IsTerminated(key) && Formed(Path(k, c))
    ensures Shaped(AsNode(Path(k, c), false))
    ensures AsNode(Place(Path(k, c), key, val), false) == Insert(AsNode(Path(k, c), false), key, AsNode(val, false))
    decreases |key|, 0
  {
    AsNodeShaped(Path(k, c), false);
    if k != key {
      var m := MatchLength(key, k);
      PathsPart(key, k);
      if m == |k| {
        assert k == key[..m];
        PathInKey(k, key);
        PlaceIsInsert(c, key[m..], val);
        OntoAsNode(key[..m], Place(c, key[m..], val), false);
      } else {
        ForksAsNodes(k, c, key, val, m, false);
        OntoAsNode(key[..m], Branch(Forks(k, c, key, val, m)), false);
      }
    }
  }

  lemma OntoAsNode(k: seq<int>, val: Tree, written: bool)
    ensures AsNode(Onto(k, val), written) == Attach(k, AsNode(val, written))
  {}

  lemma ForksClear(k: seq<int>, c: Tree, key: seq<int>, val: Tree, m: nat)
    requires IsPath(k) && IsTerminated(key) && m < |k| && m < |key|
    ensures Sound(c) && Sound(val) ==> Sound(Branch(Forks(k, c, key, val, m)))
    ensures NoHole(c) && NoHole(val) ==> NoHole(Branch(Forks(k, c, key, val, m)))
  {
    PathBounds(k, m);
    PathBounds(key, m);
    var s := Forks(k, c, key, val, m);
    assert forall i :: 0 <= i < 17 ==>
      s[i] == (if i == key[m] then Onto(key[m + 1..], val) else if i == k[m] then Onto(k[m + 1..], c) else Blank(true));
  }

  /** An insertion loses nothing and makes no hole. */
  lemma {:induction false} PlaceClear(t: Tree, key: seq<int>, val: Tree)
    requires key == [] || (IsTerminated(key) && Formed(t))
    ensures Sound(t) && Sound(val) ==> Sound(Place(t, key, val))
    ensures NoHole(t) && NoHole(val) ==> NoHole(Place(t, key, val))
    decreases |key|
  {
    if key != [] {
      match t
      case Path(k, c) =>
        if k != key {
          var m := MatchLength(key, k);
          PathsPart(key, k);
          if m == |k| {
            assert k == key[..m];
            PathInKey(k, key);
            PlaceClear(c, key[m..], val);
          } else {
            ForksClear(k, c, key, val, m);
          }
        }
      case Branch(s) =>
        HeadOfKey(key);
        PlaceClear(s[key[0]], key[1..], val);
      case _ =>
    }
  }

  // ---------- DeleteState (trie.go:342-421) ----------

  /** The loop at lines 392-401, as it is: what is not a Go string "" counts. */
  function Counted(s: seq<Tree>, n: nat): (a: int)
    requires n <= |s|
    ensures a == -1 <==> forall i :: 0 <= i < n ==> s[i] == Blank(true)
    ensures a >= 0 ==> a < n && s[a] != Blank(true) && forall i :: 0 <= i < n && i != a ==> s[i] == Blank(true)
    ensures a < -1 ==> a == -2 && exists i, j :: 0 <= i < j < n && Counts(s, i) && Counts(s, j)
  {
    if n == 0 then -1 else
      var a := Counted(s, n - 1);
      if s[n - 1] == Blank(true) then a
      else if a == -1 then n - 1
      else
        assert Counts(s, n - 1);
        assert a >= 0 ==> Counts(s, a);
        -2
  }

  predicate Counts(s: seq<Tree>, i: int) {
    0 <= i < |s| && s[i] != Blank(true)
  }

  /** Line 410: `.Str()` of a grandchild. */
  function Cut(c: Tree, inline: Node -> bool): Tree {
    match c
    case Blank(_) => Blank(true)
    case Hole => Blank(true)
    case Word(v, _) => Word(v, false)
    case Path(_, _) => if inline(AsNode(c, true)) then Blank(true) else Lost(c)
    case Branch(_) => if inline(AsNode(c, true)) then Blank(true) else Lost(c)
    case Lost(u) => if inline(AsNode(u, true)) then Blank(true) else c
  }

  /** Lines 402-417; a child that is neither of 2 nor of 17 slots leaves the nil slice. */
  function Shrunk(s: seq<Tree>, inline: Node -> bool): Tree
    requires |s| == 17
  {
    var a := Counted(s, 17);
    if a == 16 then Path([16], s[16])
    else if a < 0 then Branch(s)
    else OneLeft(a, s[a], inline)
  }

  /** The node for the one slot that counts. */
  function OneLeft(a: int, x: Tree, inline: Node -> bool): Tree {
    if x.Branch? then Path([a], x)
    else if x.Path? then Path([a] + x.key, Cut(x.child, inline))
    else Hole
  }

  /** Lines 365-375. */
  function Rejoined(k: seq<int>, child: Tree): Tree {
    if child.Path? then Path(k + child.key, child.child) else Path(k, child)
  }

  /** With the length guard of GetState at line 363. */
  function Remove(t: Tree, key: seq<int>, inline: Node -> bool): Tree
    requires key == [] || (IsTerminated(key) && Formed(t))
    decreases |key|
  {
    if key == [] then Blank(true) else
      match t
      case Path(k, c) =>
        if k == key then Blank(true)
        else if k <= key then PathInKey(k, key); Rejoined(k, Remove(c, key[|k|..], inline))
        else t
      case Branch(s) =>
        HeadOfKey(key);
        Shrunk(s[key[0] := Remove(s[key[0]], key[1..], inline)], inline)
      case _ => Blank(true)
  }

  lemma RejoinedFormed(k: seq<int>, child: Tree)
    requires IsPath(k) && !IsTerminated(k) && Formed(child)
    ensures Formed(Rejoined(k, child))
  {
    if child.Path? {
      JoinPaths(k, child.key);
    }
  }

  lemma CutFormed(k: seq<int>, c: Tree, inline: Node -> bool)
    requires Formed(Path(k, c))
    ensures if IsTerminated(k) then WordSlot(Cut(c, inline)) else Formed(Cut(c, inline))
  {}

  lemma ShrunkFormed(s: seq<Tree>, inline: Node -> bool)
    requires Formed(Branch(s))
    ensures Formed(Shrunk(s, inline))
  {
    var a := Counted(s, 17);
    if 0 <= a < 16 && s[a].Path? {
      JoinPaths([a], s[a].key);
      CutFormed(s[a].key, s[a].child, inline);
    }
  }

  lemma {:induction false} RemoveFormed(t: Tree, key: seq<int>, inline: Node -> bool)
    requires IsTerminated(key) && Formed(t)
    ensures Formed(Remove(t, key, inline))
    decreases |key|
  {
    match t
    case Path(k, c) =>
      if k != key && k <= key {
        PathInKey(k, key);
        RemoveFormed(c, key[|k|..], inline);
        RejoinedFormed(k, Remove(c, key[|k|..], inline));
      }
    case Branch(s) =>
      HeadOfKey(key);
      if key[0] != 16 {
        RemoveFormed(s[key[0]], key[1..], inline);
      }
      ShrunkFormed(s[key[0] := Remove(s[key[0]], key[1..], inline)], inline);
    case _ =>
  }

  // ---------- Exactly when a deletion hides other keys ----------

  /** The deletion reaches line 410 with a grandchild of which `p` holds. */
  predicate Reaches(t: Tree, key: seq<int>, inline: Node -> bool, p: Tree -> bool)
    requires key == [] || (IsTerminated(key) && Formed(t))
    decreases |key|
  {
    key != [] &&
    match t
    case Path(k, c) => k != key && k <= key && (PathInKey(k, key); Reaches(c, key[|k|..], inline, p))
    case Branch(s) =>
      HeadOfKey(key);
      || Reaches(s[key[0]], key[1..], inline, p)
      || ReachedAt(s[key[0] := Remove(s[key[0]], key[1..], inline)], p)
    case _ => false
  }

  predicate ReachedAt(s: seq<Tree>, p: Tree -> bool)
    requires |s| == 17
  {
    var a := Counted(s, 17);
    0 <= a < 16 && s[a].Path? && p(s[a].child)
  }

  /** Some key has a value below. */
  predicate Bears(t: Tree) {
    match t
    case Word(v, _) => v != []
    case Path(_, c) => Bears(c)
    case Branch(s) => exists i :: 0 <= i < |s| && Bears(s[i])
    case _ => false
  }

  function BearingNode(): Tree -> bool {
    c => IsNode(c) && Bears(c)
  }

  lemma {:induction false} BarrenAnswersNothing(t: Tree, key: seq<int>)
    requires key == [] || (IsTerminated(key) && Formed(t))
    requires !Bears(t)
    ensures Answer(t, key) == []
    decreases |key|
  {
    if key != [] {
      match t
      case Path(k, c) =>
        if k <= key {
          PathInKey(k, key);
          BarrenAnswersNothing(c, key[|k|..]);
        }
      case Branch(s) =>
        HeadOfKey(key);
        BarrenAnswersNothing(s[key[0]], key[1..]);
      case _ =>
    }
  }

  lemma {:induction false} BearsAKey(t: Tree) returns (key: seq<int>)
    requires Formed(t) && Bears(t)
    ensures IsTerminated(key) && Answer(t, key) != []
    decreases t
  {
    match t
    case Path(k, c) =>
      if IsTerminated(k) {
        key := k;
        assert Find(t, key) == Find(c, []);
      } else {
        var rest := BearsAKey(c);
        key := k + rest;
        JoinPaths(k, rest);
        assert key[|k|..] == rest;
      }
    case Branch(s) =>
      var i :| 0 <= i < |s| && Bears(s[i]);
      if i == 16 {
        key := [16];
        assert Find(t, key) == Find(s[16], []);
      } else {
        var rest := BearsAKey(s[i]);
        key := [i] + rest;
        JoinPaths([i], rest);
        assert key[1..] == rest;
      }
  }

  lemma AnswerPath(k: seq<int>, c: Tree, key: seq<int>)
    requires Formed(Path(k, c)) && IsTerminated(key)
    ensures k <= key ==> key[|k|..] == [] || (IsTerminated(key[|k|..]) && Formed(c))
    ensures Answer(Path(k, c), key) == if k <= key then Answer(c, key[|k|..]) else []
  {
    if k <= key {
      PathInKey(k, key);
    }
  }

  lemma AnswerBranch(s: seq<Tree>, key: seq<int>)
    requires Formed(Branch(s)) && IsTerminated(key)
    ensures 0 <= key[0] <= 16 && IsRest(key[1..]) && (key[1..] != [] ==> Formed(s[key[0]]))
    ensures Answer(Branch(s), key) == Answer(s[key[0]], key[1..])
  {
    HeadOfKey(key);
  }

  lemma AnswerRejoined(k: seq<int>, child: Tree, key: seq<int>)
    requires IsPath(k) && !IsTerminated(k) && Formed(child) && IsTerminated(key)
    ensures Formed(Rejoined(k, child)) && (k <= key ==> IsTerminated(key[|k|..]))
    ensures Answer(Rejoined(k, child), key) == if k <= key then Answer(child, key[|k|..]) else []
  {
    RejoinedFormed(k, child);
    if k <= key {
      PathInKey(k, key);
    }
    if child.Path? {
      SplitPrefix(k, child.key, key);
      AnswerPath(k + child.key, child.child, key);
      if k <= key {
        AnswerPath(child.key, child.child, key[|k|..]);
      }
    }
  }

  /** Below line 410 nothing but a value is seen. */
  lemma AnswerCut(k: seq<int>, c: Tree, inline: Node -> bool, key: seq<int>)
    requires Formed(Path(k, c)) && IsTerminated(key)
    ensures Formed(Path(k, Cut(c, inline)))
    ensures IsNode(c) ==> Answer(Path(k, Cut(c, inline)), key) == []
    ensures !IsNode(c) ==> Answer(Path(k, Cut(c, inline)), key) == Answer(Path(k, c), key)
  {
    AnswerPath(k, c, key);
    AnswerPath(k, Cut(c, inline), key);
    if k <= key {
      PathInKey(k, key);
    }
  }

  /** Shrinking a branch shows no key that was not there, and hides one only at line 410. */
  lemma AnswerShrunk(s: seq<Tree>, inline: Node -> bool, key: seq<int>)
    requires Formed(Branch(s)) && IsTerminated(key)
    ensures Formed(Shrunk(s, inline))
    ensures Answer(Shrunk(s, inline), key) == Answer(Branch(s), key) || Answer(Shrunk(s, inline), key) == []
    ensures !ReachedAt(s, c => IsNode(c)) ==> Answer(Shrunk(s, inline), key) == Answer(Branch(s), key)
    ensures ReachedAt(s, c => IsNode(c)) ==> Answer(Shrunk(s, inline), key) == []
  {
    ShrunkFormed(s, inline);
    AnswerBranch(s, key);
    var a := Counted(s, 17);
    if a == 16 {
      AnswerPath([16], s[16], key);
      assert [16] <= key <==> key == [16];
    } else if a >= 0 {
      assert [a] <= key <==> key[0] == a;
      if s[a].Branch? {
        AnswerPath([a], s[a], key);
      } else if s[a].Path? {
        AnswerShrunkPath(s, a, inline, key);
      }
    }
  }

  lemma AnswerShrunkPath(s: seq<Tree>, a: nat, inline: Node -> bool, key: seq<int>)
    requires Formed(Branch(s)) && IsTerminated(key) && a < 16 && Counted(s, 17) == a && s[a].Path?
    ensures Formed(Shrunk(s, inline))
    ensures Answer(Shrunk(s, inline), key) == if IsNode(s[a].child) then [] else Answer(Branch(s), key)
  {
    ShrunkFormed(s, inline);
    var k, c := s[a].key, s[a].child;
    JoinPaths([a], k);
    AnswerCut([a] + k, c, inline, key);
    AnswerPath([a] + k, c, key);
    AnswerBranch(s, key);
    SplitPrefix([a], k, key);
    assert [a] <= key <==> key[0] == a;
    if key[0] == a {
      AnswerPath(k, c, key[1..]);
    }
  }

  /** The deletion itself, and what it hides. */
  predicate RemovesOnly(t: Tree, key: seq<int>, other: seq<int>, inline: Node -> bool)
    requires IsTerminated(key) && Formed(t) && IsTerminated(other)
  {
    RemoveFormed(t, key, inline);
    Answer(Remove(t, key, inline), other) == if other == key then [] else Answer(t, other)
  }

  /** A key that is there before stays, as long as line 410 does not hide it. */
  lemma {:induction false} RemoveKeeps(t: Tree, key: seq<int>, other: seq<int>, inline: Node -> bool)
    requires IsTerminated(key) && IsTerminated(other) && Formed(t) && !Reaches(t, key, inline, BearingNode())
    ensures RemovesOnly(t, key, other, inline)
    decreases |key|, 1
  {
    RemoveFormed(t, key, inline);
    match t
    case Path(k, c) =>
      AnswerPath(k, c, other);
      if k == key {
        if k <= other {
          PathInKey(k, other);
        }
      } else if k <= key {
        PathInKey(k, key);
        RemoveFormed(c, key[|k|..], inline);
        AnswerRejoined(k, Remove(c, key[|k|..], inline), other);
        if k <= other {
          PathInKey(k, other);
          RemoveKeeps(c, key[|k|..], other[|k|..], inline);
          assert key == k + key[|k|..] && other == k + other[|k|..];
        }
      }
    case Branch(s) => RemoveKeepsInBranch(s, key, other, inline);
    case _ =>
  }

  lemma {:induction false} RemoveKeepsInBranch(s: seq<Tree>, key: seq<int>, other: seq<int>, inline: Node -> bool)
    requires IsTerminated(key) && IsTerminated(other) && Formed(Branch(s))
    requires !Reaches(Branch(s), key, inline, BearingNode())
    ensures RemovesOnly(Branch(s), key, other, inline)
    decreases |key|, 0
  {
    RemoveFormed(Branch(s), key, inline);
    HeadOfKey(key);
    HeadOfKey(other);
    assert key == [key[0]] + key[1..] && other == [other[0]] + other[1..];
    var i := key[0];
    var d := Remove(s[i], key[1..], inline);
    var s' := s[i := d];
    if i != 16 {
      RemoveFormed(s[i], key[1..], inline);
      if i == other[0] {
        RemoveKeeps(s[i], key[1..], other[1..], inline);
      }
    }
    AnswerBranch(s, other);
    AnswerBranch(s', other);
    AnswerShrunk(s', inline, other);
    if ReachedAt(s', c => IsNode(c)) {
      BarrenSlot(s', other);
    }
  }

  /** When the only slot that counts leads to a grandchild without keys, the branch has none. */
  lemma BarrenSlot(s: seq<Tree>, key: seq<int>)
    requires Formed(Branch(s)) && IsTerminated(key) && ReachedAt(s, c => IsNode(c)) && !ReachedAt(s, BearingNode())
    ensures Answer(Branch(s), key) == []
  {
    var a := Counted(s, 17);
    assert !Bears(s[a]);
    assert forall i :: 0 <= i < 17 ==> !Bears(s[i]);
    BarrenAnswersNothing(Branch(s), key);
  }

  /** A deletion that reaches line 410 with a grandchild that bears keys hides one of them. */
  lemma {:induction false} SomethingHidden(t: Tree, key: seq<int>, inline: Node -> bool) returns (other: seq<int>)
    requires IsTerminated(key) && Formed(t) && Reaches(t, key, inline, BearingNode())
    ensures IsTerminated(other) && other != key && Answer(t, other) != []
    ensures Formed(Remove(t, key, inline)) && Answer(Remove(t, key, inline), other) == []
    decreases |key|, 1
  {
    RemoveFormed(t, key, inline);
    match t
    case Path(k, c) =>
      PathInKey(k, key);
      var rest := SomethingHidden(c, key[|k|..], inline);
      other := k + rest;
      JoinPaths(k, rest);
      assert other[|k|..] == rest && key == k + key[|k|..];
      AnswerPath(k, c, other);
      AnswerRejoined(k, Remove(c, key[|k|..], inline), other);
    case Branch(s) => other := HiddenInBranch(s, key, inline);
  }

  lemma {:induction false} HiddenInBranch(s: seq<Tree>, key: seq<int>, inline: Node -> bool) returns (other: seq<int>)
    requires IsTerminated(key) && Formed(Branch(s)) && Reaches(Branch(s), key, inline, BearingNode())
    ensures IsTerminated(other) && other != key && Answer(Branch(s), other) != []
    ensures Formed(Remove(Branch(s), key, inline)) && Answer(Remove(Branch(s), key, inline), other) == []
    decreases |key|, 0
  {
    RemoveFormed(Branch(s), key, inline);
    HeadOfKey(key);
    var i := key[0];
    var d := Remove(s[i], key[1..], inline);
    var s' := s[i := d];
    assert key == [i] + key[1..];
    if i != 16 {
      RemoveFormed(s[i], key[1..], inline);
    }
    if Reaches(s[i], key[1..], inline, BearingNode()) {
      var rest := SomethingHidden(s[i], key[1..], inline);
      other := InSlot(s, i, rest);
      AnswerBranch(s', other);
    } else {
      var a := Counted(s', 17);
      var rest := BearsAKey(s'[a]);
      other := InSlot(s', a, rest);
      if a == i {
        RemoveKeeps(s[i], key[1..], rest, inline);
      }
      AnswerBranch(s, other);
    }
    AnswerShrunk(s', inline, other);
  }

  lemma InSlot(s: seq<Tree>, i: int, rest: seq<int>) returns (key: seq<int>)
    requires Formed(Branch(s)) && 0 <= i < 16 && IsTerminated(rest)
    ensures key == [i] + rest && IsTerminated(key) && key[1..] == rest
    ensures Answer(Branch(s), key) == Answer(s[i], rest)
  {
    key := [i] + rest;
    JoinPaths([i], rest);
    assert key[1..] == rest;
    AnswerBranch(s, key);
  }

  /**
   By itself, a deletion removes its key and keeps what Get answers for every other one, if and only if it does not
   reach line 410 with a grandchild node that bears a key, inline or stored. What its puts change elsewhere in the tree
   is in SharedAnswers.
   */
  lemma RemoveExact(t: Tree, key: seq<int>, inline: Node -> bool)
    requires IsTerminated(key) && Formed(t)
    ensures (forall other :: IsTerminated(other) ==> RemovesOnly(t, key, other, inline))
       <==> !Reaches(t, key, inline, BearingNode())
  {
    if Reaches(t, key, inline, BearingNode()) {
      var other := SomethingHidden(t, key, inline);
      assert !RemovesOnly(t, key, other, inline);
    } else {
      forall other | IsTerminated(other) ensures RemovesOnly(t, key, other, inline) {
        RemoveKeeps(t, key, other, inline);
      }
    }
  }
}
