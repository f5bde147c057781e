/**
 Exactly when InsertState and DeleteState, with equal nodes shared, keep what Get answers.
 */
module SharedAnswers {
  import opened ByteStrings
  import opened HexPrefix
  import opened Slices
  import opened PatriciaTree
  import opened TrieTheorems
  import opened CodedTree
  import opened CodedRight
  import opened Reading
  import opened SharedNodes

  predicate AllUnhidden(xs: seq<Tree>) {
    forall i :: 0 <= i < |xs| ==> Unhidden(xs[i])
  }

  // ---------- Nothing is hidden that was not ----------

  lemma {:induction false} RenewWrites(t: Tree, x: Tree, inline: Node -> bool)
    ensures AsNode(Renew(t, x, inline), true) == AsNode(t, true)
    decreases t
  {
    if !SameStored(t, x, inline) {
      match t
      case Path(k, c) => RenewWrites(c, x, inline);
      case Branch(s) =>
        forall i | 0 <= i < |s| ensures AsNode(Renew(s[i], x, inline), true) == AsNode(s[i], true) {
          RenewWrites(s[i], x, inline);
        }
        assert AsNodes(RenewSlots(s, x, inline), true) == AsNodes(s, true);
      case Lost(u) => RenewWrites(u, x, inline);
      case _ =>
    }
  }

  lemma {:induction false} RenewUnhidden(t: Tree, x: Tree, inline: Node -> bool)
    requires Unhidden(t) && Unhidden(x)
    ensures Unhidden(Renew(t, x, inline))
    decreases t
  {
    if !SameStored(t, x, inline) {
      match t
      case Path(k, c) => RenewUnhidden(c, x, inline);
      case Branch(s) =>
        forall i | 0 <= i < |s| ensures Unhidden(RenewSlots(s, x, inline)[i]) {
          RenewUnhidden(s[i], x, inline);
        }
      case Lost(u) => RenewWrites(u, x, inline);
      case _ =>
    }
  }

  lemma {:induction false} RenewAllUnhidden(t: Tree, xs: seq<Tree>, inline: Node -> bool)
    requires Unhidden(t) && AllUnhidden(xs)
    ensures Unhidden(RenewAll(t, xs, inline))
    decreases |xs|
  {
    if xs != [] {
      RenewAllUnhidden(t, xs[..|xs| - 1], inline);
      RenewUnhidden(RenewAll(t, xs[..|xs| - 1], inline), xs[|xs| - 1], inline);
    }
  }

  lemma RenewedUnhidden(s: seq<Tree>, xs: seq<Tree>, i: nat, d: Tree, inline: Node -> bool)
    requires Unhidden(Branch(s)) && AllUnhidden(xs) && i < |s| && Unhidden(d)
    ensures Unhidden(Branch(RenewAllSlots(s, xs, inline)[i := d]))
  {
    var r := RenewAllSlots(s, xs, inline)[i := d];
    forall j | 0 <= j < |s| ensures Unhidden(r[j]) {
      if j != i {
        RenewAllUnhidden(s[j], xs, inline);
      }
    }
  }

  // ---------- Insertion ----------

  predicate EffectUnhidden(r: Effect) {
    Unhidden(r.tree) && AllUnhidden(r.puts)
  }

  lemma AboveUnhidden(r: Effect, x: Tree)
    requires EffectUnhidden(r) && Unhidden(x)
    ensures EffectUnhidden(Above(r, x))
  {}

  lemma PrefixedUnhidden(k: seq<int>, r: Effect)
    requires EffectUnhidden(r)
    ensures EffectUnhidden(PrefixedBy(k, r))
  {}

  lemma InsertedSlotUnhidden(s: seq<Tree>, key: seq<int>, val: Tree, inline: Node -> bool)
    requires Formed(Branch(s)) && IsTerminated(key) && Unhidden(Branch(s))
    requires 0 <= key[0] <= 16 && IsRest(key[1..]) && EffectUnhidden(Inserted(s[key[0]], key[1..], val, inline))
    ensures EffectUnhidden(Inserted(Branch(s), key, val, inline))
  {
    var r := Inserted(s[key[0]], key[1..], val, inline);
    RenewedUnhidden(s, r.puts, key[0], r.tree, inline);
    AboveUnhidden(r, Branch(RenewAllSlots(s, r.puts, inline)[key[0] := r.tree]));
  }

  lemma ForksUnhidden(k: seq<int>, c: Tree, key: seq<int>, val: Tree, m: nat, inline: Node -> bool)
    requires IsPath(k) && IsTerminated(key) && m < |k| && m < |key| && key[m] != k[m] && Unhidden(c) && Unhidden(val)
    ensures var r := ForksPut(k, c, key, val, m, inline); Unhidden(r.tree) && AllUnhidden(r.puts)
  {
    var s := ForksSeen(k, c, key, val, m, inline);
    forall i | 0 <= i < 17 ensures Unhidden(s[i]) {
      ForkSlot(k, c, key, val, m, i, inline);
      if i == k[m] {
        RenewAllUnhidden(Onto(k[m + 1..], c), New(key[m + 1..], val).puts, inline);
      }
    }
  }

  /** An insertion hides nothing. */
  lemma {:induction false} InsertedUnhidden(t: Tree, key: seq<int>, val: Tree, inline: Node -> bool)
    requires key == [] || (IsTerminated(key) && Formed(t))
    requires Unhidden(t) && Unhidden(val)
    ensures var r := Inserted(t, key, val, inline); EffectUnhidden(r)
    decreases |key|
  {
    if key != [] {
      match t
      case Path(k, c) =>
        if k != key {
          var m := MatchLength(key, k);
          PathsPart(key, k);
          if m == |k| {
            assert k == key[..m];
            PathInKey(k, key);
            InsertedUnhidden(c, key[m..], val, inline);
            PrefixedUnhidden(key[..m], Inserted(c, key[m..], val, inline));
          } else {
            ForksUnhidden(k, c, key, val, m, inline);
            PrefixedUnhidden(key[..m], ForksPut(k, c, key, val, m, inline));
          }
        }
      case Branch(s) =>
        HeadOfKey(key);
        InsertedUnhidden(s[key[0]], key[1..], val, inline);
        InsertedSlotUnhidden(s, key, val, inline);
      case _ =>
    }
  }

  /** On a tree that hides nothing, an insertion changes what Get answers at its key, and nowhere else. */
  lemma InsertedAnswers(t: Tree, key: seq<int>, v: Bytes, inline: Node -> bool, path: seq<int>)
    requires Formed(t) && Unhidden(t) && IsTerminated(key) && v != [] && IsTerminated(path)
    ensures var r := Inserted(t, key, Word(v, false), inline).tree;
            Formed(r) && Unhidden(r) && Answer(r, path) == if path == key then v else Answer(t, path)
  {
    var val := Word(v, false);
    InsertedFits(t, key, val, inline);
    InsertedUnhidden(t, key, val, inline);
    AnswerPlace(t, key, v, path);
    PlaceFormed(t, key, val);
    PlaceUnhidden(t, key, val);
    AnswerAlike(Inserted(t, key, val, inline).tree, Place(t, key, val), path);
  }

  /** An insertion changes what Get answers at its key, and nowhere else, as far as the tree itself goes. */
  lemma AnswerPlace(t: Tree, key: seq<int>, v: Bytes, path: seq<int>)
    requires Formed(t) && IsTerminated(key) && v != [] && IsTerminated(path)
    ensures Formed(Place(t, key, Word(v, false)))
    ensures Answer(Place(t, key, Word(v, false)), path) == if path == key then v else Answer(t, path)
  {
    PlaceFormed(t, key, Word(v, false));
    PlaceIsInsert(t, key, Word(v, false));
    AnswerIsLookup(t, path);
    AnswerIsLookup(Place(t, key, Word(v, false)), path);
    AsNodeShaped(t, false);
    LookupInsert(AsNode(t, false), key, v, path);
  }

  lemma {:induction false} PlaceUnhidden(t: Tree, key: seq<int>, val: Tree)
    requires key == [] || (IsTerminated(key) && Formed(t))
    requires Unhidden(t) && Unhidden(val)
    ensures Unhidden(Place(t, key, val))
    decreases |key|
  {
    if key != [] {
      match t
      case Path(k, c) =>
        if k != key {
          var m := MatchLength(key, k);
          PathsPart(key, k);
          if m == |k| {
            assert k == key[..m];
            PathInKey(k, key);
            PlaceUnhidden(c, key[m..], val);
          } else {
            PlainForksUnhidden(k, c, key, val, m);
          }
        }
      case Branch(s) =>
        HeadOfKey(key);
        PlaceUnhidden(s[key[0]], key[1..], val);
      case _ =>
    }
  }

  lemma PlainForksUnhidden(k: seq<int>, c: Tree, key: seq<int>, val: Tree, m: nat)
    requires IsPath(k) && IsTerminated(key) && m < |k| && m < |key| && key[m] != k[m] && Unhidden(c) && Unhidden(val)
    ensures Unhidden(Branch(Forks(k, c, key, val, m)))
  {
    var s := Forks(k, c, key, val, m);
    forall i | 0 <= i < 17 ensures Unhidden(s[i]) {
      ForkSlot(k, c, key, val, m, i, n => false);
    }
  }

  // ---------- Deletion ----------

  /** `.Str()` hides nothing when it is not taken of a node that bears a key. */
  lemma CutUnhidden(c: Tree, d: Tree, inline: Node -> bool)
    requires (Formed(c) && Formed(d)) || (WordSlot(c) && WordSlot(d))
    requires Unhidden(c) && Unhidden(d) && AsNode(c, true) == AsNode(d, true) && !BearingNode()(c)
    ensures Unhidden(Cut(d, inline))
  {
    if IsNode(c) {
      UnhiddenBears(c);
    }
  }

  lemma ShrunkUnhidden(a: seq<Tree>, b: seq<Tree>, inline: Node -> bool)
    requires Formed(Branch(a)) && Formed(Branch(b)) && SlotsFit(a, b) && Unhidden(Branch(a)) && Unhidden(Branch(b))
    requires !ReachedAt(a, BearingNode())
    ensures Unhidden(Shrunk(b, inline))
  {
    CountedAlike(a, b, 17);
    var i := Counted(a, 17);
    if i >= 0 {
      assert Unhidden(a[i]) && Unhidden(b[i]);
      if i < 16 && a[i].Path? {
        CutUnhidden(a[i].child, b[i].child, inline);
      }
    }
  }

  lemma SlotUnhidden(s: seq<Tree>, i: nat, d: Tree)
    requires Unhidden(Branch(s)) && i < |s| && Unhidden(d)
    ensures Unhidden(Branch(s[i := d]))
  {
    var r := s[i := d];
    forall j | 0 <= j < |s| ensures Unhidden(r[j]) {
      assert r[j] == if j == i then d else s[j];
    }
  }

  lemma {:induction false} RemoveUnhidden(t: Tree, key: seq<int>, inline: Node -> bool)
    requires key == [] || (IsTerminated(key) && Formed(t))
    requires Unhidden(t) && !Reaches(t, key, inline, BearingNode())
    ensures Unhidden(Remove(t, key, inline))
    decreases |key|
  {
    if key != [] {
      match t
      case Path(k, c) =>
        if k != key && k <= key {
          PathInKey(k, key);
          RemoveUnhidden(c, key[|k|..], inline);
        }
      case Branch(s) =>
        HeadOfKey(key);
        RemoveUnhidden(s[key[0]], key[1..], inline);
        SeenSlotsFit(s, key, inline);
        SlotUnhidden(s, key[0], Remove(s[key[0]], key[1..], inline));
        AlikeSelf(LeftSlots(s, key, inline));
        ShrunkUnhidden(LeftSlots(s, key, inline), LeftSlots(s, key, inline), inline);
      case _ =>
    }
  }

  lemma AlikeSelf(s: seq<Tree>)
    ensures SlotsFit(s, s)
  {}

  /** A deletion that meets no node that bears a key hides nothing, here or elsewhere. */
  lemma {:induction false} DeletedUnhidden(t: Tree, key: seq<int>, inline: Node -> bool)
    requires key == [] || (IsTerminated(key) && Formed(t))
    requires Unhidden(t) && !Reaches(t, key, inline, BearingNode())
    ensures var r := Deleted(t, key, inline); EffectUnhidden(r)
    decreases |key|
  {
    if key != [] {
      match t
      case Path(k, c) =>
        if k != key && k <= key {
          PathInKey(k, key);
          DeletedUnhidden(c, key[|k|..], inline);
          var r := Deleted(c, key[|k|..], inline);
          AboveUnhidden(r, Rejoined(k, r.tree));
        }
      case Branch(s) =>
        HeadOfKey(key);
        DeletedUnhidden(s[key[0]], key[1..], inline);
        RemoveUnhidden(s[key[0]], key[1..], inline);
        DeletedSlotUnhidden(s, key, inline);
      case _ =>
    }
  }

  lemma DeletedSlotUnhidden(s: seq<Tree>, key: seq<int>, inline: Node -> bool)
    requires Formed(Branch(s)) && IsTerminated(key) && Unhidden(Branch(s))
    requires 0 <= key[0] <= 16 && IsRest(key[1..]) && (key[1..] != [] ==> Formed(s[key[0]]))
    requires EffectUnhidden(Deleted(s[key[0]], key[1..], inline)) && Unhidden(Remove(s[key[0]], key[1..], inline))
    requires !ReachedAt(LeftSlots(s, key, inline), BearingNode())
    ensures EffectUnhidden(Deleted(Branch(s), key, inline))
  {
    var r := Deleted(s[key[0]], key[1..], inline);
    SeenSlotsFit(s, key, inline);
    SlotUnhidden(s, key[0], Remove(s[key[0]], key[1..], inline));
    RenewedUnhidden(s, r.puts, key[0], r.tree, inline);
    ShrunkUnhidden(LeftSlots(s, key, inline), SeenSlots(s, key, inline), inline);
    AboveUnhidden(r, Shrunk(SeenSlots(s, key, inline), inline));
  }

  /** Then it keeps what Get answers for every other key. */
  lemma DeletedAnswers(t: Tree, key: seq<int>, inline: Node -> bool, path: seq<int>)
    requires Formed(t) && Unhidden(t) && IsTerminated(key) && IsTerminated(path)
    requires !Reaches(t, key, inline, BearingNode())
    ensures var r := Deleted(t, key, inline).tree;
            Formed(r) && Unhidden(r) && Answer(r, path) == if path == key then [] else Answer(t, path)
  {
    DeletedFits(t, key, inline);
    DeletedUnhidden(t, key, inline);
    RemoveFormed(t, key, inline);
    RemoveUnhidden(t, key, inline);
    RemoveKeeps(t, key, path, inline);
    AnswerAlike(Deleted(t, key, inline).tree, Remove(t, key, inline), path);
  }

  // ---------- What a deletion hides ----------

  lemma SeenBelow(s: seq<Tree>, key: seq<int>, inline: Node -> bool, other: seq<int>)
    requires IsTerminated(key) && Formed(Branch(s)) && IsTerminated(other)
    requires Formed(Branch(SeenSlots(s, key, inline)))
    requires Answer(Branch(SeenSlots(s, key, inline)), other) == []
    ensures Formed(Deleted(Branch(s), key, inline).tree) && Answer(Deleted(Branch(s), key, inline).tree, other) == []
  {
    AnswerShrunk(SeenSlots(s, key, inline), inline, other);
  }

  lemma NodeBelow(x: Tree, y: Tree)
    requires Formed(x) && Formed(y) && Alike(x, y) && x.Path? && IsNode(x.child)
    ensures y.Path? && !IsTerminated(y.key) && (IsNode(y.child) || y.child.Lost?)
  {
    assert AsNode(x.child, true) == AsNode(y.child, true);
  }

  /** At line 410 all that is left of the branch is hidden, in whatever kinds it is seen. */
  lemma AllHidden(a: seq<Tree>, b: seq<Tree>, inline: Node -> bool, other: seq<int>)
    requires Formed(Branch(a)) && Formed(Branch(b)) && SlotsFit(a, b)
    requires ReachedAt(a, BearingNode()) && IsTerminated(other)
    ensures Formed(Shrunk(b, inline)) && Answer(Shrunk(b, inline), other) == []
  {
    CountedAlike(a, b, 17);
    ShrunkFormed(b, inline);
    var i := Counted(a, 17);
    var k, d := b[i].key, b[i].child;
    JoinPaths([i], k);
    NodeBelow(a[i], b[i]);
    AnswerPath([i] + k, Cut(d, inline), other);
  }

  /** A deletion that meets a node that bears a key hides one of its keys. */
  lemma {:induction false} DeletedHides(t: Tree, key: seq<int>, inline: Node -> bool) returns (other: seq<int>)
    requires IsTerminated(key) && Formed(t) && Reaches(t, key, inline, BearingNode())
    ensures IsTerminated(other) && other != key && Answer(t, other) != []
    ensures var r := Deleted(t, key, inline).tree; Formed(r) && Answer(r, other) == []
    decreases |key|, 1
  {
    DeletedFits(t, key, inline);
    match t
    case Path(k, c) =>
      PathInKey(k, key);
      var rest := DeletedHides(c, key[|k|..], inline);
      other := k + rest;
      JoinPaths(k, rest);
      assert other[|k|..] == rest && key == k + key[|k|..];
      AnswerPath(k, c, other);
      AnswerRejoined(k, Deleted(c, key[|k|..], inline).tree, other);
    case Branch(s) => other := DeletedHidesInBranch(s, key, inline);
  }

  lemma {:induction false} DeletedHidesInBranch(s: seq<Tree>, key: seq<int>, inline: Node -> bool)
    returns (other: seq<int>)
    requires IsTerminated(key) && Formed(Branch(s)) && Reaches(Branch(s), key, inline, BearingNode())
    ensures IsTerminated(other) && other != key && Answer(Branch(s), other) != []
    ensures var r := Deleted(Branch(s), key, inline).tree; Formed(r) && Answer(r, other) == []
    decreases |key|, 0
  {
    HeadOfKey(key);
    SeenSlotsFit(s, key, inline);
    var i := key[0];
    assert key == [i] + key[1..];
    if Reaches(s[i], key[1..], inline, BearingNode()) {
      var rest := DeletedHides(s[i], key[1..], inline);
      other := InSlot(s, i, rest);
      AnswerBranch(SeenSlots(s, key, inline), other);
      SeenBelow(s, key, inline, other);
    } else {
      other := HiddenHere(s, key, inline);
      AllHidden(LeftSlots(s, key, inline), SeenSlots(s, key, inline), inline, other);
    }
  }

  /** A key that the branch has, and that the deletion leaves it. */
  lemma HiddenHere(s: seq<Tree>, key: seq<int>, inline: Node -> bool) returns (other: seq<int>)
    requires IsTerminated(key) && Formed(Branch(s)) && Formed(Branch(LeftSlots(s, key, inline)))
    requires ReachedAt(LeftSlots(s, key, inline), BearingNode())
    requires 0 <= key[0] <= 16 && IsRest(key[1..]) && (key[0] == 16 <==> key[1..] == [])
    requires !Reaches(s[key[0]], key[1..], inline, BearingNode())
    ensures IsTerminated(other) && other != key && Answer(Branch(s), other) != []
  {
    var i, s' := key[0], LeftSlots(s, key, inline);
    var a := Counted(s', 17);
    var rest := BearsAKey(s'[a]);
    other := InSlot(s', a, rest);
    assert key == [i] + key[1..];
    if a == i {
      RemoveKeeps(s[i], key[1..], rest, inline);
    }
    AnswerBranch(s, other);
  }

  /** As far as Get goes. */
  ghost predicate DeletesOnly(t: Tree, key: seq<int>, inline: Node -> bool)
    requires IsTerminated(key) && Formed(t)
  {
    DeletedFits(t, key, inline);
    forall other {:trigger Answer(t, other)} :: IsTerminated(other) ==>
      Answer(Deleted(t, key, inline).tree, other) == if other == key then [] else Answer(t, other)
  }

  /**
   On every tree that hides no key, whatever is stored in which kinds: a deletion removes its key and keeps what Get
   answers for every other one, if and only if it does not reach line 410 with a node that bears a key, inline or
   stored.
   */
  lemma DeletedExact(t: Tree, key: seq<int>, inline: Node -> bool)
    requires IsTerminated(key) && Formed(t) && Unhidden(t)
    ensures DeletesOnly(t, key, inline) <==> !Reaches(t, key, inline, BearingNode())
  {
    DeletedFits(t, key, inline);
    if Reaches(t, key, inline, BearingNode()) {
      var other := DeletedHides(t, key, inline);
      assert Answer(t, other) != Answer(Deleted(t, key, inline).tree, other);
    } else {
      forall other | IsTerminated(other)
        ensures Answer(Deleted(t, key, inline).tree, other) == if other == key then [] else Answer(t, other)
      {
        DeletedAnswers(t, key, inline, other);
      }
    }
  }
}
