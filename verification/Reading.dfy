/**
 Trees that were read back, and trees that hide no key.
 */
module Reading {
  import opened ByteStrings
  import opened HexPrefix
  import opened PatriciaTree
  import opened TrieTheorems
  import opened CodedTree
  import opened CodedRight

  // ---------- Reading a tree back ----------

  /** Empty slots come back as empty bytes, single low bytes as a byte, and every hash as a hash. */
  function Reload(t: Tree): Tree
    decreases t, 1
  {
    match t
    case Blank(_) => Blank(false)
    case Hole => Hole
    case Word(v, _) => Word(v, |v| == 1 && v[0] <= 0x7f)
    case Path(k, c) => Path(k, Reload(c))
    case Branch(s) => Branch(ReloadAll(s))
    case Lost(u) => Reload(u)
  }

  function ReloadAll(s: seq<Tree>): (r: seq<Tree>)
    ensures |r| == |s| && forall i :: 0 <= i < |s| ==> r[i] == Reload(s[i])
    decreases s, 0
  {
    if s == [] then [] else [Reload(s[0])] + ReloadAll(s[1..])
  }

  /** A word comes back as a single byte if and only if it is one below 0x80, and a Go string as a hash. */
  lemma WordKinds(v: Bytes, low: bool, t: Tree)
    ensures Reload(Word(v, low)).Word? && Reload(Word(v, low)).v == v
    ensures Reload(Word(v, low)).low <==> exists c: byte :: c < 0x80 && v == [c]
    ensures Reload(Lost(t)) == Reload(t) && Reload(Blank(true)) == Blank(false)
  {
    if |v| == 1 {
      assert v == [v[0]];
    }
  }

  lemma {:induction false} ReloadFormed(t: Tree)
    requires Formed(t)
    ensures Formed(Reload(t)) && Sound(Reload(t)) && (IsNode(t) ==> IsNode(Reload(t)))
    ensures NoHole(t) ==> NoHole(Reload(t))
    decreases t
  {
    match t
    case Path(k, c) =>
      if !IsTerminated(k) {
        ReloadFormed(c);
      }
    case Branch(s) =>
      forall i | 0 <= i < 16
        ensures Formed(Reload(s[i])) && Sound(Reload(s[i])) && (NoHole(s[i]) ==> NoHole(Reload(s[i])))
      {
        ReloadFormed(s[i]);
      }
    case Lost(u) => ReloadFormed(u);
    case _ =>
  }

  /** Reading back changes nothing of what is written. */
  lemma {:induction false} ReloadKeepsWritten(t: Tree)
    ensures AsNode(Reload(t), true) == AsNode(t, true)
    decreases t
  {
    match t
    case Path(_, c) => ReloadKeepsWritten(c);
    case Branch(s) =>
      forall i | 0 <= i < |s| ensures AsNode(Reload(s[i]), true) == AsNode(s[i], true) {
        ReloadKeepsWritten(s[i]);
      }
      assert AsNodes(ReloadAll(s), true) == AsNodes(s, true);
    case Lost(u) => ReloadKeepsWritten(u);
    case _ =>
  }

  /** Every slot of a branch that was read back counts: such a branch never collapses. */
  lemma ReloadedNeverCollapses(s: seq<Tree>, i: nat, inline: Node -> bool)
    requires |s| == 17 && i < 17
    ensures Counted(ReloadAll(s), 17) == -2
    ensures Shrunk(ReloadAll(s), inline) == Branch(ReloadAll(s))
    ensures Counted(ReloadAll(s)[i := Blank(true)], 17) == -2
    ensures Shrunk(ReloadAll(s)[i := Blank(true)], inline) == Branch(ReloadAll(s)[i := Blank(true)])
  {
    var r := ReloadAll(s);
    var r' := r[i := Blank(true)];
    forall j | 0 <= j < 17 ensures Counts(r, j) && (j != i ==> Counts(r', j)) {
      NeverBlankString(s[j]);
    }
    BothCount(r, 0, 1, inline);
    BothCount(r', if i == 0 then 1 else 0, if i <= 1 then 2 else 1, inline);
  }

  lemma {:induction false} NeverBlankString(t: Tree)
    ensures Reload(t) != Blank(true)
    decreases t
  {
    if t.Lost? {
      NeverBlankString(t.t);
    }
  }

  /** Above a stored node nothing is read again when the cache is emptied: its slots are in the root, or in the trie. */
  function Refetch(t: Tree, inline: Node -> bool): Tree
    decreases t, 1
  {
    match t
    case Path(k, c) => if inline(AsNode(t, true)) then Path(k, Refetch(c, inline)) else Reload(t)
    case Branch(s) => if inline(AsNode(t, true)) then Branch(RefetchAll(s, inline)) else Reload(t)
    case Lost(u) => Lost(Reload(u))
    case _ => t
  }

  function RefetchAll(s: seq<Tree>, inline: Node -> bool): (r: seq<Tree>)
    ensures |r| == |s| && forall i :: 0 <= i < |s| ==> r[i] == Refetch(s[i], inline)
    decreases s, 0
  {
    if s == [] then [] else [Refetch(s[0], inline)] + RefetchAll(s[1..], inline)
  }

  lemma {:induction false} RefetchFormed(t: Tree, inline: Node -> bool)
    requires Formed(t) || WordSlot(t)
    ensures Formed(t) ==> Formed(Refetch(t, inline))
    ensures WordSlot(t) ==> Refetch(t, inline) == t
    ensures Unhidden(t) ==> Unhidden(Refetch(t, inline))
    ensures AsNode(Refetch(t, inline), true) == AsNode(t, true)
    decreases t
  {
    ReloadKeepsWritten(t);
    match t
    case Path(k, c) =>
      if inline(AsNode(t, true)) {
        RefetchFormed(c, inline);
      } else {
        ReloadFormed(t);
        SoundUnhidden(Reload(t));
      }
    case Branch(s) =>
      if inline(AsNode(t, true)) {
        RefetchSlots(s, inline);
      } else {
        ReloadFormed(t);
        SoundUnhidden(Reload(t));
      }
    case Lost(u) =>
      ReloadFormed(u);
      ReloadKeepsWritten(u);
    case _ =>
  }

  lemma {:induction false} RefetchSlots(s: seq<Tree>, inline: Node -> bool)
    requires Formed(Branch(s))
    ensures Formed(Branch(RefetchAll(s, inline))) && AsNodes(RefetchAll(s, inline), true) == AsNodes(s, true)
    ensures Unhidden(Branch(s)) ==> Unhidden(Branch(RefetchAll(s, inline)))
    decreases s, 0
  {
    var r := RefetchAll(s, inline);
    forall i | 0 <= i < 17
      ensures (if i == 16 then WordSlot(r[i]) else Formed(r[i])) && AsNode(r[i], true) == AsNode(s[i], true)
      ensures Unhidden(Branch(s)) ==> Unhidden(r[i])
    {
      RefetchFormed(s[i], inline);
    }
  }

  // ---------- Trees that hide no key ----------

  /** No key has a value below. */
  predicate Bare(n: Node) {
    match n
    case Empty => true
    case Value(v) => v == []
    case Short(_, c) => Bare(c)
    case Full(s) => forall i :: 0 <= i < |s| ==> Bare(s[i])
  }

  /** No hash that is kept as a Go string leads to a key. */
  predicate Unhidden(t: Tree) {
    match t
    case Path(_, c) => Unhidden(c)
    case Branch(s) => forall i :: 0 <= i < |s| ==> Unhidden(s[i])
    case Lost(u) => Bare(AsNode(u, true))
    case _ => true
  }

  lemma {:induction false} SoundUnhidden(t: Tree)
    requires Sound(t)
    ensures Unhidden(t)
    decreases t
  {
    match t
    case Path(_, c) => SoundUnhidden(c);
    case Branch(s) =>
      forall i | 0 <= i < |s| ensures Unhidden(s[i]) {
        SoundUnhidden(s[i]);
      }
    case _ =>
  }

  lemma {:induction false} BareAnswersNothing(t: Tree, key: seq<int>)
    requires key == [] || (IsTerminated(key) && Formed(t))
    requires Bare(AsNode(t, true))
    ensures Answer(t, key) == []
    decreases |key|
  {
    if key != [] {
      match t
      case Path(k, c) =>
        if k <= key {
          PathInKey(k, key);
          BareAnswersNothing(c, key[|k|..]);
        }
      case Branch(s) =>
        HeadOfKey(key);
        assert AsNodes(s, true)[key[0]] == AsNode(s[key[0]], true);
        BareAnswersNothing(s[key[0]], key[1..]);
      case _ =>
    }
  }

  /** Trees that are written alike and hide no key answer alike. */
  lemma {:induction false} AnswerAlike(a: Tree, b: Tree, key: seq<int>)
    requires if key == [] then !a.Lost? && !b.Lost? else IsTerminated(key) && Formed(a) && Formed(b)
    requires Unhidden(a) && Unhidden(b) && AsNode(a, true) == AsNode(b, true)
    ensures Answer(a, key) == Answer(b, key)
    decreases |key|
  {
    if key != [] {
      if a.Lost? || b.Lost? {
        BareAnswersNothing(a, key);
        BareAnswersNothing(b, key);
      } else {
        match a
        case Path(k, c) =>
          if k <= key {
            PathInKey(k, key);
            AnswerAlike(c, b.child, key[|k|..]);
          }
        case Branch(s) =>
          HeadOfKey(key);
          assert AsNodes(s, true)[key[0]] == AsNodes(b.slots, true)[key[0]];
          AnswerAlike(s[key[0]], b.slots[key[0]], key[1..]);
        case _ =>
      }
    }
  }

  /** On such a tree a node bears a key exactly when it is written with one. */
  lemma {:induction false} UnhiddenBears(t: Tree)
    requires Unhidden(t)
    ensures Bears(t) <==> !Bare(AsNode(t, true))
    decreases t
  {
    match t
    case Path(_, c) => UnhiddenBears(c);
    case Branch(s) =>
      forall i | 0 <= i < |s| ensures Bears(s[i]) <==> !Bare(AsNodes(s, true)[i]) {
        UnhiddenBears(s[i]);
      }
    case _ =>
  }

  /** A canonical node bears keys, so that a canonical tree that hides none keeps every hash. */
  lemma {:induction false} CanonicalNotBare(n: Node)
    requires Sub(n)
    ensures !Bare(n)
    decreases n
  {
    match n
    case Short(k, c) =>
      if !IsTerminated(k) {
        CanonicalNotBare(c);
      }
    case Full(s) =>
      var i, j :| 0 <= i < j < 17 && Occupied(s, i) && Occupied(s, j);
      if i < 16 {
        CanonicalNotBare(s[i]);
      }
  }

  lemma {:induction false} BareUnhidden(t: Tree)
    requires Bare(AsNode(t, true))
    ensures Unhidden(t)
    decreases t
  {
    match t
    case Path(_, c) => BareUnhidden(c);
    case Branch(s) =>
      forall i | 0 <= i < |s| ensures Unhidden(s[i]) {
        assert Bare(AsNodes(s, true)[i]);
        BareUnhidden(s[i]);
      }
    case _ =>
  }

  lemma {:induction false} CanonicalUnhidden(t: Tree)
    requires (Formed(t) && Canonical(AsNode(t, true))) || WordSlot(t)
    requires Unhidden(t)
    ensures Clear(t)
    decreases t
  {
    match t
    case Path(k, c) => CanonicalUnhidden(c);
    case Branch(s) =>
      forall i | 0 <= i < 17 ensures Clear(s[i]) {
        assert AsNodes(s, true)[i] == AsNode(s[i], true);
        CanonicalUnhidden(s[i]);
      }
    case Lost(u) => CanonicalNotBare(AsNode(u, true));
    case _ =>
  }

  // ---------- Trees that show more than others ----------

  /** Written alike, and nothing is hidden in `b` that is not hidden in `a`. */
  predicate StillSeen(a: Tree, b: Tree) {
    && AsNode(a, true) == AsNode(b, true)
    && match a
       case Path(_, c) => b.Path? && StillSeen(c, b.child)
       case Branch(s) => b.Branch? && |b.slots| == |s| && forall i :: 0 <= i < |s| ==> StillSeen(s[i], b.slots[i])
       case Lost(_) => true
       case _ => !b.Lost?
  }

  /** Every value that was answered is answered. */
  lemma {:induction false} AnswerStill(a: Tree, b: Tree, key: seq<int>)
    requires key == [] || (IsTerminated(key) && Formed(a) && Formed(b))
    requires StillSeen(a, b)
    ensures Answer(a, key) == [] || Answer(a, key) == Answer(b, key)
    decreases |key|
  {
    if key != [] {
      match a
      case Path(k, c) =>
        if k <= key {
          PathInKey(k, key);
          AnswerStill(c, b.child, key[|k|..]);
        }
      case Branch(s) =>
        HeadOfKey(key);
        AnswerStill(s[key[0]], b.slots[key[0]], key[1..]);
      case _ =>
    }
  }

  lemma {:induction false} StillUnhidden(a: Tree, b: Tree)
    requires StillSeen(a, b) && Unhidden(a)
    ensures Unhidden(b)
    decreases a
  {
    match a
    case Path(_, c) => StillUnhidden(c, b.child);
    case Branch(s) =>
      forall i | 0 <= i < |s| ensures Unhidden(b.slots[i]) {
        StillUnhidden(s[i], b.slots[i]);
      }
    case Lost(_) => BareUnhidden(b);
    case _ =>
  }

  lemma {:induction false} SelfSeen(t: Tree)
    ensures StillSeen(t, t)
    decreases t
  {
    match t
    case Path(_, c) => SelfSeen(c);
    case Branch(s) =>
      forall i | 0 <= i < |s| ensures StillSeen(s[i], s[i]) {
        SelfSeen(s[i]);
      }
    case _ =>
  }

  lemma {:induction false} ReloadStill(t: Tree)
    ensures StillSeen(t, Reload(t))
    decreases t
  {
    ReloadKeepsWritten(t);
    match t
    case Path(_, c) => ReloadStill(c);
    case Branch(s) =>
      forall i | 0 <= i < |s| ensures StillSeen(s[i], Reload(s[i])) {
        ReloadStill(s[i]);
      }
    case _ =>
  }

  lemma {:induction false} RefetchStill(t: Tree, inline: Node -> bool)
    requires Formed(t) || WordSlot(t)
    ensures StillSeen(t, Refetch(t, inline))
    decreases t
  {
    RefetchFormed(t, inline);
    ReloadStill(t);
    match t
    case Path(_, c) => RefetchStill(c, inline);
    case Branch(s) =>
      forall i | 0 <= i < 17 ensures StillSeen(s[i], Refetch(s[i], inline)) {
        RefetchStill(s[i], inline);
      }
    case _ =>
  }
}
