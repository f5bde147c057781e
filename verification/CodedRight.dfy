/**
 Exactly when a deletion as coded leaves the tree it is meant to leave, and exactly when it leaves the canonical one.
 */
module CodedRight {
  import opened ByteStrings
  import opened HexPrefix
  import opened PatriciaTree
  import opened TrieTheorems
  import opened CodedTree

  /** Fewer than two slots are occupied, and yet the loop counts several: some empty ones were read back. */
  predicate StaleAt(s: seq<Tree>)
    requires |s| == 17
  {
    Amount(AsNodes(s, true), 17) >= -1 && Counted(s, 17) < -1
  }

  /** The deletion leaves a branch on the key's path in that state. */
  predicate Stale(t: Tree, key: seq<int>, inline: Node -> bool)
    requires key == [] || (IsTerminated(key) && Formed(t))
    decreases |key|
  {
    key != [] &&
    match t
    case Path(k, c) => k != key && k <= key && (PathInKey(k, key); Stale(c, key[|k|..], inline))
    case Branch(s) =>
      HeadOfKey(key);
      Stale(s[key[0]], key[1..], inline) || StaleAt(s[key[0] := Remove(s[key[0]], key[1..], inline)])
    case _ => false
  }

  function InlineNode(inline: Node -> bool): Tree -> bool {
    c => IsNode(c) && inline(AsNode(c, true))
  }

  function StoredNode(inline: Node -> bool): Tree -> bool {
    c => IsNode(c) && !inline(AsNode(c, true))
  }

  function AnyNode(): Tree -> bool {
    c => IsNode(c)
  }

  /** A grandchild node is inline or stored. */
  lemma {:induction false} ReachesEither(t: Tree, key: seq<int>, inline: Node -> bool, p: Tree -> bool, q: Tree -> bool,
                                         r: Tree -> bool)
    requires key == [] || (IsTerminated(key) && Formed(t))
    requires forall c :: p(c) <==> q(c) || r(c)
    ensures Reaches(t, key, inline, p) <==> Reaches(t, key, inline, q) || Reaches(t, key, inline, r)
    decreases |key|
  {
    if key != [] {
      match t
      case Path(k, c) =>
        if k != key && k <= key {
          PathInKey(k, key);
          ReachesEither(c, key[|k|..], inline, p, q, r);
        }
      case Branch(s) =>
        HeadOfKey(key);
        ReachesEither(s[key[0]], key[1..], inline, p, q, r);
      case _ =>
    }
  }

  /**
   `r` is written as `y`, or else not even canonical, by whether something went wrong; and a hash is kept as a Go
   string exactly when one was met.
   */
  predicate Outcome(r: Tree, y: Node, wrong: bool, met: bool) {
    && NoHole(r)
    && (AsNode(r, true) == y <==> !wrong)
    && (wrong ==> !Canonical(AsNode(r, true)))
    && (Sound(r) <==> !met)
  }

  /** What is proved of one deletion. */
  predicate RightExactly(t: Tree, key: seq<int>, inline: Node -> bool)
    requires IsTerminated(key) && Formed(t) && NoHole(t)
  {
    AsNodeShaped(t, true);
    Outcome(Remove(t, key, inline), Delete(AsNode(t, true), key),
            Stale(t, key, inline) || Reaches(t, key, inline, InlineNode(inline)),
            Reaches(t, key, inline, StoredNode(inline)))
  }

  /** Nothing is left in the one exactly when nothing is left in the other, and then nothing went wrong below. */
  ghost predicate EmptyTogether(t: Tree, key: seq<int>, inline: Node -> bool)
    requires IsTerminated(key) && Formed(t) && NoHole(t)
  {
    AsNodeShaped(t, true);
    var r := Remove(t, key, inline);
    && (r == Blank(true) || IsNode(r))
    && (r == Blank(true) <==> Delete(AsNode(t, true), key) == Empty)
    && (r == Blank(true) ==> !Stale(t, key, inline) && forall p :: !Reaches(t, key, inline, p))
  }

  // ---------- The loop at line 394 ----------

  /** What the loop counts is at least what is occupied. */
  lemma {:induction false} CountedCovers(s: seq<Tree>, n: nat)
    requires n <= |s|
    ensures var a := Amount(AsNodes(s, true), n);
            (a == -2 ==> Counted(s, n) == -2) && (a >= 0 ==> Counted(s, n) == a || Counted(s, n) == -2)
  {
    if n > 0 {
      CountedCovers(s, n - 1);
    }
  }

  lemma EmptyIsBlank(t: Tree)
    requires t.Lost? ==> IsNode(t.t)
    ensures AsNode(t, true).Empty? <==> t.Blank?
  {}

  /** The count `c` of the loop and the intended one `a`, one slot further. */
  lemma SameStep(c: int, a: int, x: Tree, n: nat, none: bool)
    requires -2 <= c < n && -2 <= a < n && (a == -2 ==> c == -2) && (a >= 0 ==> c == a || c == -2)
    requires c == a <==> none || a == -2
    ensures var c' := if x == Blank(true) then c else if c == -1 then n else -2;
            var a' := if x.Blank? then a else if a == -1 then n else -2;
            && (c' == a' <==> (none && x != Blank(false)) || a' == -2)
            && (a' == -2 ==> c' == -2) && (a' >= 0 ==> c' == a' || c' == -2)
  {
    assert x.Blank? ==> x == Blank(true) || x == Blank(false);
  }

  lemma {:induction false} CountsAgree(s: seq<Tree>, t: seq<Node>, n: nat)
    requires n <= |s| == |t| && forall i :: 0 <= i < |s| ==> (t[i].Empty? <==> s[i].Blank?)
    ensures Counted(s, n) == Amount(t, n) <==> NoneReadBack(s, n) || Amount(t, n) == -2
    ensures (Amount(t, n) == -2 ==> Counted(s, n) == -2)
    ensures (Amount(t, n) >= 0 ==> Counted(s, n) == Amount(t, n) || Counted(s, n) == -2)
  {
    if n > 0 {
      CountsAgree(s, t, n - 1);
      NoneMore(s, n - 1);
      SameStep(Counted(s, n - 1), Amount(t, n - 1), s[n - 1], n - 1, NoneReadBack(s, n - 1));
    }
  }

  /** The loop counts the occupied slots if and only if no empty one was read back, or two are occupied anyway. */
  lemma CountExact(s: seq<Tree>)
    requires |s| == 17 && forall i :: 0 <= i < |s| && s[i].Lost? ==> IsNode(s[i].t)
    ensures Counted(s, 17) == Amount(AsNodes(s, true), 17)
       <==> NoneReadBack(s, 17) || Amount(AsNodes(s, true), 17) == -2
  {
    forall i | 0 <= i < |s| ensures AsNodes(s, true)[i].Empty? <==> s[i].Blank? {
      EmptyIsBlank(s[i]);
    }
    CountsAgree(s, AsNodes(s, true), 17);
  }

  lemma NoneMore(s: seq<Tree>, n: nat)
    requires n < |s|
    ensures NoneReadBack(s, n + 1) <==> NoneReadBack(s, n) && s[n] != Blank(false)
  {}

  predicate NoneReadBack(s: seq<Tree>, n: nat)
    requires n <= |s|
  {
    forall i :: 0 <= i < n ==> s[i] != Blank(false)
  }

  lemma ClearSlots(s: seq<Tree>)
    requires Clear(Branch(s))
    ensures forall i :: 0 <= i < |s| ==> Clear(s[i]) && !s[i].Hole? && !s[i].Lost?
  {
    forall i | 0 <= i < |s| ensures Clear(s[i]) && !s[i].Hole? && !s[i].Lost? {
      assert Sound(s[i]) && NoHole(s[i]);
    }
  }

  lemma BothOccupied(n: seq<Node>, b: int, c: int)
    requires |n| == 17 && 0 <= b < c < 17 && Occupied(n, b) && Occupied(n, c)
    ensures Amount(n, 17) == -2 && Collapsed(n) == Full(n)
  {}

  lemma BothCount(s: seq<Tree>, b: int, c: int, inline: Node -> bool)
    requires |s| == 17 && 0 <= b < c < 17 && Counts(s, b) && Counts(s, c)
    ensures Counted(s, 17) == -2 && Shrunk(s, inline) == Branch(s) && forall p :: !ReachedAt(s, p)
  {}

  // ---------- Shrinking a branch that keeps one slot, or keeps its 17 ----------

  /** The intended node for the only slot left. */
  function OnlyChild(a: int, y: Node): Node {
    if y.Short? then Short([a] + y.key, y.child) else Short([a], y)
  }

  lemma OneLeftRight(a: int, x: Tree, inline: Node -> bool)
    requires IsNode(x) && Clear(x) && Sub(AsNode(x, true)) && 0 <= a < 16
    ensures Outcome(OneLeft(a, x, inline), OnlyChild(a, AsNode(x, true)),
                    x.Path? && InlineNode(inline)(x.child), x.Path? && StoredNode(inline)(x.child))
  {
    if x.Path? {
      assert ([a] + x.key)[1..] == x.key;
      JoinPaths([a], x.key);
      GrandchildRight([a] + x.key, x.child, inline);
    }
  }

  lemma GrandchildRight(k: seq<int>, c: Tree, inline: Node -> bool)
    requires Clear(c) && Sub(Short(k, AsNode(c, true)))
    ensures Outcome(Path(k, Cut(c, inline)), Short(k, AsNode(c, true)), InlineNode(inline)(c), StoredNode(inline)(c))
  {
    if IsNode(c) && inline(AsNode(c, true)) {
      assert AsNode(Cut(c, inline), true) == Empty;
    }
  }

  /** A branch that is not shrunk is right exactly when the intended one is not collapsed. */
  lemma UnshrunkRight(s: seq<Tree>, inline: Node -> bool)
    requires |s| == 17 && Clear(Branch(s)) && Counted(s, 17) == -2 && Amount(AsNodes(s, true), 17) != -1
    requires Shaped(Full(AsNodes(s, true)))
    ensures Shrunk(s, inline) == Branch(s) && (AsNode(Branch(s), true) == Collapsed(AsNodes(s, true)) <==> !StaleAt(s))
    ensures StaleAt(s) ==> !Canonical(AsNode(Branch(s), true))
    ensures forall p :: !ReachedAt(s, p)
  {
    var n := AsNodes(s, true);
    if Amount(n, 17) >= 0 {
      CollapsedIsShort(n);
    }
  }

  lemma CollapsedIsShort(n: seq<Node>)
    requires |n| == 17 && Amount(n, 17) >= 0 && Shaped(Full(n))
    ensures Collapsed(n).Short?
  {
    var a := Amount(n, 17);
    assert a < 16 ==> Shaped(n[a]);
  }

  /** What shrinking makes of the slots. */
  predicate ShrinksRight(s: seq<Tree>, inline: Node -> bool)
    requires |s| == 17
  {
    && Outcome(Shrunk(s, inline), Collapsed(AsNodes(s, true)), StaleAt(s) || ReachedAt(s, InlineNode(inline)),
               ReachedAt(s, StoredNode(inline)))
    && IsNode(Shrunk(s, inline)) && Inner(Collapsed(AsNodes(s, true)))
  }

  /** Each occupied slot below the terminator holds a canonical node. */
  predicate NodesInSlots(s: seq<Tree>) {
    && |s| == 17
    && Formed(Branch(s)) && Clear(Branch(s))
    && forall j :: 0 <= j < 16 && !AsNode(s[j], true).Empty? ==> IsNode(s[j]) && Sub(AsNode(s[j], true))
  }

  /** The only slot that counts is the only one that is occupied. */
  lemma ShrunkOntoRight(s: seq<Tree>, inline: Node -> bool)
    requires NodesInSlots(s) && Counted(s, 17) == Amount(AsNodes(s, true), 17) >= 0
    ensures ShrinksRight(s, inline)
  {
    var a := Counted(s, 17);
    ClearSlots(s);
    if a < 16 {
      OneLeftRight(a, s[a], inline);
    }
  }

  lemma ShrunkClear(s: seq<Tree>, inline: Node -> bool)
    requires NodesInSlots(s) && Amount(AsNodes(s, true), 17) != -1
    ensures ShrinksRight(s, inline)
  {
    AsNodeShaped(Branch(s), true);
    ClearSlots(s);
    CountedCovers(s, 17);
    if Counted(s, 17) == -2 {
      UnshrunkRight(s, inline);
      CollapsedInner(AsNodes(s, true));
    } else {
      ShrunkOntoRight(s, inline);
    }
  }

  lemma CollapsedInner(n: seq<Node>)
    requires |n| == 17 && Shaped(Full(n))
    ensures Inner(Collapsed(n))
  {}

  lemma CanonicalSlots(s: seq<Tree>)
    requires Formed(Branch(s)) && Clear(Branch(s)) && Sub(AsNode(Branch(s), true))
    ensures NodesInSlots(s)
  {
    var n := AsNodes(s, true);
    ClearSlots(s);
    forall j | 0 <= j < 16 && !AsNode(s[j], true).Empty? ensures IsNode(s[j]) && Sub(AsNode(s[j], true)) {
      assert n[j] == AsNode(s[j], true);
    }
  }

  lemma ClearedSlots(s: seq<Tree>, i: int)
    requires NodesInSlots(s) && 0 <= i < 17
    ensures NodesInSlots(s[i := Blank(true)])
  {
    ClearSlots(s);
    var s' := s[i := Blank(true)];
    assert forall j :: 0 <= j < 17 ==> s'[j] == if j == i then Blank(true) else s[j];
    assert Formed(Branch(s'));
    assert Sound(Branch(s'));
    assert NoHole(Branch(s'));
    assert AsNode(Blank(true), true).Empty?;
  }

  /** A canonical branch that loses what is in one slot. */
  lemma ShrunkRight(s: seq<Tree>, i: int, inline: Node -> bool)
    requires Formed(Branch(s)) && Clear(Branch(s)) && Sub(AsNode(Branch(s), true)) && 0 <= i < 17
    ensures ShrinksRight(s[i := Blank(true)], inline)
  {
    CanonicalSlots(s);
    ClearedSlots(s, i);
    AsNodesUpdate(s, i, Blank(true), true);
    StillOccupied(AsNodes(s, true), i, Empty);
    ShrunkClear(s[i := Blank(true)], inline);
  }

  // ---------- A branch of which one slot changes ----------

  lemma UpdatedBranch(s: seq<Tree>, i: int, d: Tree, y: Node)
    requires |s| == 17 && Clear(Branch(s)) && 0 <= i < 17 && NoHole(d)
    ensures NoHole(Branch(s[i := d])) && (Sound(Branch(s[i := d])) <==> Sound(d))
    ensures AsNode(Branch(s[i := d]), true) == Full(AsNodes(s, true)[i := y]) <==> AsNode(d, true) == y
    ensures i < 16 && !Canonical(AsNode(d, true)) ==> !Canonical(AsNode(Branch(s[i := d]), true))
  {
    var s' := s[i := d];
    ClearSlots(s);
    AsNodesUpdate(s, i, d, true);
    assert s'[i] == d && AsNodes(s, true)[i := y][i] == y && AsNodes(s', true)[i] == AsNode(d, true);
  }

  /** A branch of which one slot changes and stays occupied. */
  lemma BranchStays(s: seq<Tree>, i: int, d: Tree, y: Node, inline: Node -> bool)
    requires Formed(Branch(s)) && Clear(Branch(s)) && Sub(AsNode(Branch(s), true)) && 0 <= i < 17
    requires IsNode(d) && Inner(y)
    ensures var s' := s[i := d];
            && Shrunk(s', inline) == Branch(s') && Collapsed(AsNodes(s, true)[i := y]) == Full(AsNodes(s, true)[i := y])
            && !StaleAt(s') && forall p :: !ReachedAt(s', p)
  {
    var s' := s[i := d];
    var n := AsNodes(s, true);
    ClearSlots(s);
    AsNodesUpdate(s, i, d, true);
    var b, c :| 0 <= b < c < 17 && Occupied(n, b) && Occupied(n, c);
    assert Occupied(n[i := y], b) && Occupied(n[i := y], c);
    BothOccupied(n[i := y], b, c);
    assert Occupied(AsNodes(s', true), b) && Occupied(AsNodes(s', true), c);
    BothOccupied(AsNodes(s', true), b, c);
    assert Counts(s', b) && Counts(s', c);
    BothCount(s', b, c, inline);
  }

  // ---------- The deletion ----------

  /** The node above a changed child is right exactly when the child is. */
  lemma RejoinedRight(k: seq<int>, r: Tree, y: Node)
    requires IsNode(r) && Formed(r) && Inner(y) && Shaped(y)
    requires IsPath(k) && !IsTerminated(k)
    ensures AsNode(Rejoined(k, r), true) == Joined(k, y) <==> AsNode(r, true) == y
    ensures !Canonical(AsNode(r, true)) ==> !Canonical(AsNode(Rejoined(k, r), true))
  {
    if r.Path? {
      JoinPaths(k, r.key);
    }
    if r.Path? && y.Short? {
      assert (k + r.key)[|k|..] == r.key && (k + y.key)[|k|..] == y.key;
    }
  }

  /**
   On a canonical tree without losses a deletion leaves the intended tree behind the references if and only if no
   branch is left stale and no inline grandchild is met; and no hash becomes a Go string if and only if no stored
   grandchild is met.
   */
  lemma {:induction false} RemoveRight(t: Tree, key: seq<int>, inline: Node -> bool)
    requires IsTerminated(key) && Formed(t) && Clear(t) && Canonical(AsNode(t, true))
    ensures RightExactly(t, key, inline) && EmptyTogether(t, key, inline)
    decreases |key|, 1
  {
    AsNodeShaped(t, true);
    match t
    case Path(k, c) =>
      if k != key && k <= key {
        PathInKey(k, key);
        RemoveRight(c, key[|k|..], inline);
        RemoveRightInPath(k, c, key, inline);
      }
    case Branch(s) =>
      HeadOfKey(key);
      ClearSlots(s);
      if key[0] != 16 {
        assert AsNodes(s, true)[key[0]] == AsNode(s[key[0]], true);
        RemoveRight(s[key[0]], key[1..], inline);
        RemoveRightInBranch(s, key, inline);
      } else {
        RemoveRightAtValue(s, key, inline);
      }
    case _ =>
  }

  lemma RemoveInPath(k: seq<int>, c: Tree, key: seq<int>, inline: Node -> bool)
    requires IsTerminated(key) && Formed(Path(k, c)) && NoHole(c) && k != key && k <= key
    ensures IsTerminated(key[|k|..]) && Formed(c) && Shaped(AsNode(c, true)) && Shaped(AsNode(Path(k, c), true))
    ensures Remove(Path(k, c), key, inline) == Rejoined(k, Remove(c, key[|k|..], inline))
    ensures Stale(Path(k, c), key, inline) <==> Stale(c, key[|k|..], inline)
    ensures forall p :: Reaches(Path(k, c), key, inline, p) <==> Reaches(c, key[|k|..], inline, p)
    ensures Delete(AsNode(Path(k, c), true), key) == Joined(k, Delete(AsNode(c, true), key[|k|..]))
  {
    PathInKey(k, key);
    AsNodeShaped(Path(k, c), true);
  }

  lemma RemoveRightInPath(k: seq<int>, c: Tree, key: seq<int>, inline: Node -> bool)
    requires IsTerminated(key) && Formed(Path(k, c)) && NoHole(c) && Canonical(AsNode(Path(k, c), true))
    requires k != key && k <= key && IsTerminated(key[|k|..]) && Formed(c)
    requires RightExactly(c, key[|k|..], inline) && EmptyTogether(c, key[|k|..], inline)
    ensures RightExactly(Path(k, c), key, inline) && EmptyTogether(Path(k, c), key, inline)
  {
    RemoveInPath(k, c, key, inline);
    PathInKey(k, key);
    var rest := key[|k|..];
    RemoveFormed(c, rest, inline);
    DeleteCanonical(AsNode(c, true), rest);
    DeleteShaped(AsNode(c, true), rest);
    RejoinedRight(k, Remove(c, rest, inline), Delete(AsNode(c, true), rest));
  }

  /** What the deletion in a branch comes to, step by step. */
  lemma RemoveInBranch(s: seq<Tree>, key: seq<int>, inline: Node -> bool)
    requires IsTerminated(key) && Formed(Branch(s)) && NoHole(Branch(s))
    ensures 0 <= key[0] <= 16 && IsRest(key[1..]) && (key[1..] != [] ==> Formed(s[key[0]]) && NoHole(s[key[0]]))
    ensures var s' := s[key[0] := Remove(s[key[0]], key[1..], inline)];
            && Remove(Branch(s), key, inline) == Shrunk(s', inline)
            && (Stale(Branch(s), key, inline) <==> Stale(s[key[0]], key[1..], inline) || StaleAt(s'))
            && forall p :: Reaches(Branch(s), key, inline, p)
                  <==> Reaches(s[key[0]], key[1..], inline, p) || ReachedAt(s', p)
    ensures Shaped(AsNode(Branch(s), true)) && (key[1..] != [] ==> Shaped(AsNode(s[key[0]], true)))
    ensures Delete(AsNode(Branch(s), true), key)
         == Collapsed(AsNodes(s, true)[key[0] := Delete(AsNode(s[key[0]], true), key[1..])])
  {
    AsNodeShaped(Branch(s), true);
    HeadOfKey(key);
  }

  lemma RemoveRightAtValue(s: seq<Tree>, key: seq<int>, inline: Node -> bool)
    requires IsTerminated(key) && Formed(Branch(s)) && Clear(Branch(s)) && Sub(AsNode(Branch(s), true)) && key[0] == 16
    ensures RightExactly(Branch(s), key, inline) && EmptyTogether(Branch(s), key, inline)
  {
    HeadOfKey(key);
    RemoveInBranch(s, key, inline);
    ShrunkRight(s, 16, inline);
    AsNodesUpdate(s, 16, Blank(true), true);
  }

  lemma RemoveRightInBranch(s: seq<Tree>, key: seq<int>, inline: Node -> bool)
    requires IsTerminated(key) && Formed(Branch(s)) && Clear(Branch(s)) && Sub(AsNode(Branch(s), true))
    requires 0 <= key[0] < 16 && IsTerminated(key[1..]) && NoHole(s[key[0]])
    requires RightExactly(s[key[0]], key[1..], inline) && EmptyTogether(s[key[0]], key[1..], inline)
    ensures RightExactly(Branch(s), key, inline) && EmptyTogether(Branch(s), key, inline)
  {
    if Remove(s[key[0]], key[1..], inline) == Blank(true) {
      RemoveRightClearing(s, key, inline);
    } else {
      RemoveRightStaying(s, key, inline);
    }
  }

  lemma RemoveRightClearing(s: seq<Tree>, key: seq<int>, inline: Node -> bool)
    requires IsTerminated(key) && Formed(Branch(s)) && Clear(Branch(s)) && Sub(AsNode(Branch(s), true))
    requires 0 <= key[0] < 16 && IsTerminated(key[1..]) && NoHole(s[key[0]])
    requires EmptyTogether(s[key[0]], key[1..], inline) && Remove(s[key[0]], key[1..], inline) == Blank(true)
    ensures RightExactly(Branch(s), key, inline) && EmptyTogether(Branch(s), key, inline)
  {
    RemoveInBranch(s, key, inline);
    ShrunkRight(s, key[0], inline);
    AsNodesUpdate(s, key[0], Blank(true), true);
  }

  lemma RemoveRightStaying(s: seq<Tree>, key: seq<int>, inline: Node -> bool)
    requires IsTerminated(key) && Formed(Branch(s)) && Clear(Branch(s)) && Sub(AsNode(Branch(s), true))
    requires 0 <= key[0] < 16 && IsTerminated(key[1..]) && NoHole(s[key[0]])
    requires RightExactly(s[key[0]], key[1..], inline) && EmptyTogether(s[key[0]], key[1..], inline)
    requires Remove(s[key[0]], key[1..], inline) != Blank(true)
    ensures RightExactly(Branch(s), key, inline) && EmptyTogether(Branch(s), key, inline)
  {
    RemoveInBranch(s, key, inline);
    var i := key[0];
    var n := AsNode(s[i], true);
    AsNodeShaped(s[i], true);
    DeletedInner(n, key[1..]);
    BranchStays(s, i, Remove(s[i], key[1..], inline), Delete(n, key[1..]), inline);
    UpdatedBranch(s, i, Remove(s[i], key[1..], inline), Delete(n, key[1..]));
  }

  lemma DeletedInner(n: Node, key: seq<int>)
    requires IsTerminated(key) && Shaped(n) && Delete(n, key) != Empty
    ensures Inner(Delete(n, key))
  {
    DeleteShaped(n, key);
  }

  /** The deletion leaves no branch stale and meets no inline grandchild. */
  predicate LeavesRight(t: Tree, key: seq<int>, inline: Node -> bool)
    requires IsTerminated(key) && Formed(t)
  {
    !Stale(t, key, inline) && !Reaches(t, key, inline, InlineNode(inline))
  }

  /**
   Written out, what a deletion leaves is the intended tree, and is canonical at all, if and only if no branch is left
   stale and no inline grandchild is met; lookups see all of it if and only if no stored grandchild is met.
   */
  lemma DeletionRight(t: Tree, key: seq<int>, inline: Node -> bool)
    requires IsTerminated(key) && Formed(t) && Clear(t) && Canonical(AsNode(t, true))
    ensures Shaped(AsNode(t, true))
    ensures var r := AsNode(Remove(t, key, inline), true);
            && (r == Delete(AsNode(t, true), key) <==> LeavesRight(t, key, inline))
            && (Canonical(r) <==> LeavesRight(t, key, inline))
    ensures Clear(Remove(t, key, inline)) <==> !Reaches(t, key, inline, StoredNode(inline))
  {
    AsNodeShaped(t, true);
    RemoveRight(t, key, inline);
    DeleteCanonical(AsNode(t, true), key);
  }
}
