/**
 What InsertState and DeleteState do to a trie whose equal nodes are one node of the cache.

 Put keeps a node under its hash, in place of what was kept there (ethutil/trie.go:52), so every reference written alike
 leads to it from then on, with the Go kinds of the slots that were put last. `Effect` is what an operation returns,
 together with the nodes it put on the way.
 */
module SharedNodes {
  import opened ByteStrings
  import opened HexPrefix
  import opened Slices
  import opened PatriciaTree
  import opened TrieTheorems
  import opened CodedTree
  import opened CodedRight
  import opened Reading

  /** A stored node that is written as `x`. */
  predicate SameStored(t: Tree, x: Tree, inline: Node -> bool) {
    IsNode(t) && !inline(AsNode(t, true)) && AsNode(t, true) == AsNode(x, true)
  }

  /** The tree after `x` was put. */
  function Renew(t: Tree, x: Tree, inline: Node -> bool): Tree
    decreases t, 1
  {
    if SameStored(t, x, inline) then x else
      match t
      case Path(k, c) => Path(k, Renew(c, x, inline))
      case Branch(s) => Branch(RenewSlots(s, x, inline))
      case Lost(u) => Lost(Renew(u, x, inline))
      case _ => t
  }

  function RenewSlots(s: seq<Tree>, x: Tree, inline: Node -> bool): (r: seq<Tree>)
    ensures |r| == |s| && forall i :: 0 <= i < |s| ==> r[i] == Renew(s[i], x, inline)
    decreases s, 0
  {
    if s == [] then [] else [Renew(s[0], x, inline)] + RenewSlots(s[1..], x, inline)
  }

  /** After several puts. */
  function RenewAll(t: Tree, xs: seq<Tree>, inline: Node -> bool): Tree
    decreases |xs|
  {
    if xs == [] then t else Renew(RenewAll(t, xs[..|xs| - 1], inline), xs[|xs| - 1], inline)
  }

  function RenewAllSlots(s: seq<Tree>, xs: seq<Tree>, inline: Node -> bool): (r: seq<Tree>)
    ensures |r| == |s| && forall i :: 0 <= i < |s| ==> r[i] == RenewAll(s[i], xs, inline)
  {
    if s == [] then [] else [RenewAll(s[0], xs, inline)] + RenewAllSlots(s[1..], xs, inline)
  }

  lemma {:induction false} RenewAllConcat(t: Tree, xs: seq<Tree>, ys: seq<Tree>, inline: Node -> bool)
    ensures RenewAll(t, xs + ys, inline) == RenewAll(RenewAll(t, xs, inline), ys, inline)
    decreases |ys|
  {
    if ys == [] {
      assert xs + ys == xs;
    } else {
      var zs := ys[..|ys| - 1];
      assert (xs + ys)[..|xs + ys| - 1] == xs + zs;
      RenewAllConcat(t, xs, zs, inline);
    }
  }

  // ---------- The operations ----------

  datatype Effect = Effect(tree: Tree, puts: seq<Tree>)

  function Alone(x: Tree): Effect {
    Effect(x, [x])
  }

  /** `x` is put above `r`. */
  function Above(r: Effect, x: Tree): Effect {
    Effect(x, r.puts + [x])
  }

  function PrefixedBy(k: seq<int>, r: Effect): Effect {
    if k == [] then r else Above(r, Path(k, r.tree))
  }

  /** InsertState on nothing. */
  function New(key: seq<int>, val: Tree): Effect {
    if key == [] then Effect(val, []) else Alone(Path(key, val))
  }

  /** Lines 303-312: the old path is put before the new one. */
  function ForksSeen(k: seq<int>, c: Tree, key: seq<int>, val: Tree, m: nat, inline: Node -> bool): (s: seq<Tree>)
    requires IsPath(k) && IsTerminated(key) && m < |k| && m < |key|
    ensures |s| == 17
  {
    PathBounds(k, m);
    PathBounds(key, m);
    var b := New(key[m + 1..], val);
    Blanks(SLOTS)[k[m] := RenewAll(Onto(k[m + 1..], c), b.puts, inline)][key[m] := b.tree]
  }

  function ForksPut(k: seq<int>, c: Tree, key: seq<int>, val: Tree, m: nat, inline: Node -> bool): Effect
    requires IsPath(k) && IsTerminated(key) && m < |k| && m < |key|
  {
    var x := Branch(ForksSeen(k, c, key, val, m, inline));
    Effect(x, New(k[m + 1..], c).puts + New(key[m + 1..], val).puts + [x])
  }

  /** InsertState. */
  function Inserted(t: Tree, key: seq<int>, val: Tree, inline: Node -> bool): Effect
    requires key == [] || (IsTerminated(key) && Formed(t))
    decreases |key|
  {
    if key == [] then Effect(val, []) else
      match t
      case Path(k, c) =>
        if k == key then Alone(Path(key, val)) else
          var m := MatchLength(key, k);
          PathsPart(key, k);
          if m == |k| then
            assert k == key[..m];
            PathInKey(k, key);
            PrefixedBy(key[..m], Inserted(c, key[m..], val, inline))
          else
            PrefixedBy(key[..m], ForksPut(k, c, key, val, m, inline))
      case Branch(s) =>
        HeadOfKey(key);
        var r := Inserted(s[key[0]], key[1..], val, inline);
        Above(r, Branch(RenewAllSlots(s, r.puts, inline)[key[0] := r.tree]))
      case _ => Alone(Path(key, val))
  }

  /** DeleteState. */
  function Deleted(t: Tree, key: seq<int>, inline: Node -> bool): Effect
    requires key == [] || (IsTerminated(key) && Formed(t))
    decreases |key|
  {
    if key == [] then Effect(Blank(true), []) else
      match t
      case Path(k, c) =>
        if k == key then Effect(Blank(true), [])
        else if k <= key then
          PathInKey(k, key);
          var r := Deleted(c, key[|k|..], inline);
          Above(r, Rejoined(k, r.tree))
        else Effect(t, [])
      case Branch(s) =>
        HeadOfKey(key);
        var r := Deleted(s[key[0]], key[1..], inline);
        Above(r, Shrunk(RenewAllSlots(s, r.puts, inline)[key[0] := r.tree], inline))
      case _ => Effect(Blank(true), [])
  }

  // ---------- A put changes kinds only ----------

  /** What is put: a node, or the list of a nil slice. */
  predicate Puttable(x: Tree) {
    Formed(x) && (IsNode(x) || x.Hole?)
  }

  predicate AllPuttable(xs: seq<Tree>) {
    forall i :: 0 <= i < |xs| ==> Puttable(xs[i])
  }

  /** Written alike, and alike at the top: as far as the tests at lines 277, 349 and 394 look. */
  predicate Alike(a: Tree, b: Tree) {
    && AsNode(a, true) == AsNode(b, true)
    && (IsNode(a) || a.Lost? || a.Hole? || a.Word? || a.Blank?)
    && (IsNode(a) <==> IsNode(b)) && (a.Lost? <==> b.Lost?) && (a.Blank? || b.Blank? ==> a == b)
  }

  /** What is kept of a tree: it fits where it was. */
  predicate Replaces(t: Tree, r: Tree) {
    Alike(t, r) && (Formed(t) ==> Formed(r)) && (WordSlot(t) ==> r == t)
  }

  lemma {:induction false} RenewFits(t: Tree, x: Tree, inline: Node -> bool)
    requires (Formed(t) || WordSlot(t)) && Puttable(x)
    ensures Replaces(t, Renew(t, x, inline))
    decreases t
  {
    if !SameStored(t, x, inline) {
      match t
      case Path(k, c) => RenewFits(c, x, inline);
      case Branch(s) => RenewSlotsFit(s, x, inline);
      case Lost(u) => RenewFits(u, x, inline);
      case _ =>
    }
  }

  lemma {:induction false} RenewSlotsFit(s: seq<Tree>, x: Tree, inline: Node -> bool)
    requires Formed(Branch(s)) && Puttable(x)
    ensures Formed(Branch(RenewSlots(s, x, inline))) && AsNodes(RenewSlots(s, x, inline), true) == AsNodes(s, true)
    decreases s, 0
  {
    var r := RenewSlots(s, x, inline);
    forall i | 0 <= i < 17
      ensures (if i == 16 then WordSlot(r[i]) else Formed(r[i])) && AsNode(r[i], true) == AsNode(s[i], true)
    {
      RenewFits(s[i], x, inline);
    }
  }

  lemma {:induction false} RenewAllFits(t: Tree, xs: seq<Tree>, inline: Node -> bool)
    requires (Formed(t) || WordSlot(t)) && AllPuttable(xs)
    ensures Replaces(t, RenewAll(t, xs, inline))
    decreases |xs|
  {
    if xs != [] {
      var zs := xs[..|xs| - 1];
      RenewAllFits(t, zs, inline);
      RenewFits(RenewAll(t, zs, inline), xs[|xs| - 1], inline);
    }
  }

  /** The slots of a branch of which one was changed, after the puts for it. */
  predicate SlotsFit(s: seq<Tree>, r: seq<Tree>) {
    |s| == |r| && forall i :: 0 <= i < |s| ==> Alike(s[i], r[i])
  }

  lemma RenewedSlots(s: seq<Tree>, xs: seq<Tree>, i: nat, d: Tree, e: Tree, inline: Node -> bool)
    requires Formed(Branch(s)) && AllPuttable(xs) && i < 17 && Alike(d, e)
    requires if i == 16 then WordSlot(e) else Formed(e)
    ensures var r := RenewAllSlots(s, xs, inline)[i := e];
            Formed(Branch(r)) && SlotsFit(s[i := d], r)
  {
    var q, r := s[i := d], RenewAllSlots(s, xs, inline)[i := e];
    forall j | 0 <= j < 17 ensures Alike(q[j], r[j]) && (if j == 16 then WordSlot(r[j]) else Formed(r[j])) {
      if j != i {
        RenewAllFits(s[j], xs, inline);
      }
    }
  }

  lemma SlotsWritten(a: seq<Tree>, b: seq<Tree>)
    requires SlotsFit(a, b)
    ensures AsNodes(a, true) == AsNodes(b, true)
  {}

  // ---------- Insertion ----------

  lemma ForkSlot(k: seq<int>, c: Tree, key: seq<int>, val: Tree, m: nat, i: int, inline: Node -> bool)
    requires IsPath(k) && IsTerminated(key) && m < |k| && m < |key| && key[m] != k[m] && 0 <= i < 17
    ensures Forks(k, c, key, val, m)[i] ==
              if i == key[m] then Onto(key[m + 1..], val) else if i == k[m] then Onto(k[m + 1..], c) else Blank(true)
    ensures ForksSeen(k, c, key, val, m, inline)[i] ==
              if i == key[m] then Onto(key[m + 1..], val)
              else if i == k[m] then RenewAll(Onto(k[m + 1..], c), New(key[m + 1..], val).puts, inline)
              else Blank(true)
  {
    PathBounds(k, m);
    PathBounds(key, m);
  }

  lemma ForkSlotFits(k: seq<int>, c: Tree, key: seq<int>, val: Tree, m: nat, i: int, inline: Node -> bool)
    requires Formed(Path(k, c)) && IsTerminated(key) && m < |k| && m < |key| && WordSlot(val) && key[m] != k[m]
    requires 0 <= i < 17
    ensures var r := ForksSeen(k, c, key, val, m, inline)[i];
            Alike(Forks(k, c, key, val, m)[i], r) && (if i == 16 then WordSlot(r) else Formed(r))
  {
    ForkSlot(k, c, key, val, m, i, inline);
    PathBounds(k, m);
    PathBounds(key, m);
    OntoFormed(k, m, c);
    OntoFormed(key, m, val);
    if i == k[m] {
      RenewAllFits(Onto(k[m + 1..], c), New(key[m + 1..], val).puts, inline);
    }
  }

  lemma NewPuttable(k: seq<int>, m: nat, c: Tree)
    requires Formed(Path(k, c)) && m < |k|
    ensures AllPuttable(New(k[m + 1..], c).puts)
  {
    PathBounds(k, m);
    if m + 1 < |k| {
      OpenRest(k, m + 1);
    }
  }

  lemma ForksPutFits(k: seq<int>, c: Tree, key: seq<int>, val: Tree, m: nat, inline: Node -> bool)
    requires Formed(Path(k, c)) && IsTerminated(key) && m < |k| && m < |key| && WordSlot(val) && key[m] != k[m]
    ensures var r := ForksPut(k, c, key, val, m, inline);
            Alike(Branch(Forks(k, c, key, val, m)), r.tree) && Formed(r.tree) && AllPuttable(r.puts)
  {
    var s, r := Forks(k, c, key, val, m), ForksSeen(k, c, key, val, m, inline);
    forall i | 0 <= i < 17 ensures Alike(s[i], r[i]) && (if i == 16 then WordSlot(r[i]) else Formed(r[i])) {
      ForkSlotFits(k, c, key, val, m, i, inline);
    }
    SlotsWritten(s, r);
    NewPuttable(k, m, c);
    NewPuttable(key, m, val);
  }

  /** InsertState leaves what Place says, but for kinds. */
  lemma {:induction false} InsertedFits(t: Tree, key: seq<int>, val: Tree, inline: Node -> bool)
    requires key == [] || (IsTerminated(key) && Formed(t))
    requires WordSlot(val)
    ensures var r := Inserted(t, key, val, inline);
            && Alike(Place(t, key, val), r.tree) && AllPuttable(r.puts)
            && (key != [] ==> Formed(r.tree) && IsNode(r.tree))
    decreases |key|
  {
    if key != [] {
      match t
      case Path(k, c) =>
        if k != key {
          InsertedInPath(k, c, key, val, inline);
        }
      case Branch(s) =>
        HeadOfKey(key);
        InsertedFits(s[key[0]], key[1..], val, inline);
        InsertedInBranch(s, key, val, inline);
      case _ =>
    }
  }

  lemma InsertedInBranch(s: seq<Tree>, key: seq<int>, val: Tree, inline: Node -> bool)
    requires IsTerminated(key) && Formed(Branch(s)) && WordSlot(val)
    requires 0 <= key[0] <= 16 && IsRest(key[1..]) && (key[0] == 16 <==> key[1..] == [])
    requires var r := Inserted(s[key[0]], key[1..], val, inline);
             && Alike(Place(s[key[0]], key[1..], val), r.tree) && AllPuttable(r.puts)
             && (key[1..] != [] ==> Formed(r.tree))
    ensures var r := Inserted(Branch(s), key, val, inline);
            Alike(Place(Branch(s), key, val), r.tree) && AllPuttable(r.puts) && Formed(r.tree) && IsNode(r.tree)
  {
    var r := Inserted(s[key[0]], key[1..], val, inline);
    RenewedSlots(s, r.puts, key[0], Place(s[key[0]], key[1..], val), r.tree, inline);
    SlotsWritten(s[key[0] := Place(s[key[0]], key[1..], val)], RenewAllSlots(s, r.puts, inline)[key[0] := r.tree]);
  }

  lemma {:induction false} InsertedInPath(k: seq<int>, c: Tree, key: seq<int>, val: Tree, inline: Node -> bool)
    requires IsTerminated(key) && Formed(Path(k, c)) && WordSlot(val) && k != key
    ensures var r := Inserted(Path(k, c), key, val, inline);
            Alike(Place(Path(k, c), key, val), r.tree) && AllPuttable(r.puts) && Formed(r.tree) && IsNode(r.tree)
    decreases |key|, 0
  {
    var m := MatchLength(key, k);
    PathsPart(key, k);
    if m > 0 {
      OpenPrefix(key, m);
    }
    if m == |k| {
      assert k == key[..m];
      PathInKey(k, key);
      InsertedFits(c, key[m..], val, inline);
    } else {
      ForksPutFits(k, c, key, val, m, inline);
    }
  }

  // ---------- Deletion ----------

  /** Slots that are alike are counted and shrunk alike. */
  lemma {:induction false} CountedAlike(a: seq<Tree>, b: seq<Tree>, n: nat)
    requires SlotsFit(a, b) && n <= |a|
    ensures Counted(a, n) == Counted(b, n)
  {
    if n > 0 {
      CountedAlike(a, b, n - 1);
    }
  }

  lemma CutWritten(c: Tree, d: Tree, inline: Node -> bool)
    requires (Formed(c) && Formed(d)) || (WordSlot(c) && WordSlot(d))
    requires AsNode(c, true) == AsNode(d, true)
    ensures AsNode(Cut(c, inline), true) == AsNode(Cut(d, inline), true)
  {}

  lemma OneLeftAlike(a: int, x: Tree, y: Tree, inline: Node -> bool)
    requires Formed(x) && Formed(y) && Alike(x, y) && 0 <= a < 16
    ensures Alike(OneLeft(a, x, inline), OneLeft(a, y, inline))
  {
    if x.Path? {
      CutWritten(x.child, y.child, inline);
    }
  }

  lemma ShrunkAlike(a: seq<Tree>, b: seq<Tree>, inline: Node -> bool)
    requires Formed(Branch(a)) && Formed(Branch(b)) && SlotsFit(a, b)
    ensures Alike(Shrunk(a, inline), Shrunk(b, inline))
  {
    CountedAlike(a, b, 17);
    SlotsWritten(a, b);
    var i := Counted(a, 17);
    if 0 <= i < 16 {
      OneLeftAlike(i, a[i], b[i], inline);
    }
  }

  lemma RejoinedAlike(k: seq<int>, a: Tree, b: Tree)
    requires Alike(a, b)
    ensures Alike(Rejoined(k, a), Rejoined(k, b))
  {}

  lemma ShrunkPuttable(s: seq<Tree>, inline: Node -> bool)
    requires Formed(Branch(s))
    ensures Puttable(Shrunk(s, inline))
  {
    ShrunkFormed(s, inline);
  }

  /** DeleteState leaves what Remove says, but for kinds. */
  lemma {:induction false} DeletedFits(t: Tree, key: seq<int>, inline: Node -> bool)
    requires key == [] || (IsTerminated(key) && Formed(t))
    ensures var r := Deleted(t, key, inline);
            && Alike(Remove(t, key, inline), r.tree) && AllPuttable(r.puts)
            && (key != [] ==> Formed(r.tree)) && (r.tree == Blank(true) || Puttable(r.tree))
            && (r.tree == Blank(true) ==> r.puts == [])
    decreases |key|
  {
    if key != [] {
      match t
      case Path(k, c) =>
        if k != key && k <= key {
          PathInKey(k, key);
          DeletedFits(c, key[|k|..], inline);
          RejoinedAlike(k, Remove(c, key[|k|..], inline), Deleted(c, key[|k|..], inline).tree);
          RejoinedFormed(k, Deleted(c, key[|k|..], inline).tree);
        }
      case Branch(s) =>
        HeadOfKey(key);
        DeletedFits(s[key[0]], key[1..], inline);
        DeletedInBranch(s, key, inline);
      case _ =>
    }
  }

  /** The slots before and after: as Remove has them, and as they are seen. */
  function LeftSlots(s: seq<Tree>, key: seq<int>, inline: Node -> bool): (r: seq<Tree>)
    requires IsTerminated(key) && Formed(Branch(s))
    ensures |r| == 17
  {
    HeadOfKey(key);
    s[key[0] := Remove(s[key[0]], key[1..], inline)]
  }

  function SeenSlots(s: seq<Tree>, key: seq<int>, inline: Node -> bool): (r: seq<Tree>)
    requires IsTerminated(key) && Formed(Branch(s))
    ensures |r| == 17
  {
    HeadOfKey(key);
    var r := Deleted(s[key[0]], key[1..], inline);
    RenewAllSlots(s, r.puts, inline)[key[0] := r.tree]
  }

  lemma {:induction false} SeenSlotsFit(s: seq<Tree>, key: seq<int>, inline: Node -> bool)
    requires IsTerminated(key) && Formed(Branch(s))
    ensures Formed(Branch(LeftSlots(s, key, inline))) && Formed(Branch(SeenSlots(s, key, inline)))
    ensures SlotsFit(LeftSlots(s, key, inline), SeenSlots(s, key, inline))
    decreases |key|, 0
  {
    HeadOfKey(key);
    var i := key[0];
    DeletedFits(s[i], key[1..], inline);
    if i != 16 {
      RemoveFormed(s[i], key[1..], inline);
    }
    var r := Deleted(s[i], key[1..], inline);
    RenewedSlots(s, r.puts, i, Remove(s[i], key[1..], inline), r.tree, inline);
  }

  lemma {:induction false} DeletedInBranch(s: seq<Tree>, key: seq<int>, inline: Node -> bool)
    requires IsTerminated(key) && Formed(Branch(s))
    ensures var r := Deleted(Branch(s), key, inline);
            && Alike(Remove(Branch(s), key, inline), r.tree) && AllPuttable(r.puts)
            && Puttable(r.tree)
    decreases |key|, 1
  {
    HeadOfKey(key);
    SeenSlotsFit(s, key, inline);
    DeletedFits(s[key[0]], key[1..], inline);
    ShrunkAlike(LeftSlots(s, key, inline), SeenSlots(s, key, inline), inline);
    ShrunkPuttable(SeenSlots(s, key, inline), inline);
  }
}
