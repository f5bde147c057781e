/**
 Runs of updates on the trie as coded, in which it may at any point be written out and opened again on its root, or its
 cache be emptied.
 */
module CodedRuns {
  import opened ByteStrings
  import opened HexPrefix
  import opened Slices
  import opened PatriciaTree
  import opened TrieTheorems
  import opened CodedTree
  import opened CodedRight
  import opened Reading
  import opened SharedNodes
  import opened SharedAnswers

  /** An update, one that panicked, a new trie on the written root, or a Sync that empties the cache. */
  datatype Event = Do(op: Op) | Panicked(op: Op) | Reopen | Emptied

  function StepEffect(t: Tree, op: Op, inline: Node -> bool): Effect
    requires Formed(t)
  {
    if op.value != [] then Inserted(t, KeyPath(op.key), Word(op.value, false), inline)
    else Deleted(t, KeyPath(op.key), inline)
  }

  function StepAsCoded(t: Tree, op: Op, inline: Node -> bool): (r: Tree)
    requires Formed(t)
    ensures Formed(r)
  {
    StepFits(t, op, inline);
    StepEffect(t, op, inline).tree
  }

  lemma StepFits(t: Tree, op: Op, inline: Node -> bool)
    requires Formed(t)
    ensures Formed(StepEffect(t, op, inline).tree) && AllPuttable(StepEffect(t, op, inline).puts)
  {
    if op.value != [] {
      InsertedFits(t, KeyPath(op.key), Word(op.value, false), inline);
    } else {
      DeletedFits(t, KeyPath(op.key), inline);
    }
  }

  function Happened(t: Tree, e: Event, inline: Node -> bool): (r: Tree)
    requires Formed(t)
    ensures Formed(r)
  {
    match e
    case Do(op) => StepAsCoded(t, op, inline)
    case Panicked(_) => t
    case Reopen => ReloadFormed(t); Reload(t)
    case Emptied => RefetchFormed(t, inline); Refetch(t, inline)
  }

  /** The tree that is seen after a run from the empty trie. */
  function Played(events: seq<Event>, inline: Node -> bool): (t: Tree)
    ensures Formed(t)
  {
    if events == [] then Blank(true) else
      Happened(Played(events[..|events| - 1], inline), events[|events| - 1], inline)
  }

  lemma PlayedOn(events: seq<Event>, e: Event, inline: Node -> bool)
    ensures Played(events + [e], inline) == Happened(Played(events, inline), e, inline)
  {
    assert (events + [e])[..|events|] == events;
  }

  /** The updates that were made. */
  function Updates(events: seq<Event>): seq<Op> {
    if events == [] then [] else
      var front, last := Updates(events[..|events| - 1]), events[|events| - 1];
      if last.Do? then front + [last.op] else front
  }

  function ContentsAfter(m: map<Bytes, Bytes>, e: Event): map<Bytes, Bytes> {
    if !e.Do? then m else if e.op.value != [] then m[e.op.key := e.op.value] else m - {e.op.key}
  }

  function RunAfter(t: Node, e: Event): Node
    requires Shaped(t)
  {
    if !e.Do? then t else Step(t, e.op)
  }

  lemma OneMore(ops: seq<Op>, op: Op)
    ensures Run(ops + [op]) == Step(Run(ops), op)
    ensures Contents(ops + [op]) == ContentsAfter(Contents(ops), Do(op))
  {
    assert (ops + [op])[..|ops|] == ops;
  }

  lemma UpdatesStep(events: seq<Event>)
    requires events != []
    ensures var front, last := Updates(events[..|events| - 1]), events[|events| - 1];
            && Run(Updates(events)) == RunAfter(Run(front), last)
            && Contents(Updates(events)) == ContentsAfter(Contents(front), last)
  {
    var front, last := Updates(events[..|events| - 1]), events[|events| - 1];
    if last.Do? {
      OneMore(front, last.op);
    }
  }

  // ---------- Exactly when a run stays on the intended trees ----------

  /** It is written as the intended tree, and shows all of it. */
  predicate Right(t: Tree, ops: seq<Op>) {
    Unhidden(t) && AsNode(t, true) == Run(ops)
  }

  /** After every event. */
  predicate AlwaysRight(events: seq<Event>, inline: Node -> bool) {
    && Right(Played(events, inline), Updates(events))
    && (events != [] ==> AlwaysRight(events[..|events| - 1], inline))
  }

  predicate Meets(t: Tree, e: Event, inline: Node -> bool)
    requires Formed(t)
  {
    e.Do? && e.op.value == [] && Reaches(t, KeyPath(e.op.key), inline, BearingNode())
  }

  predicate LeavesStale(t: Tree, e: Event, inline: Node -> bool)
    requires Formed(t)
  {
    e.Do? && e.op.value == [] && Stale(t, KeyPath(e.op.key), inline)
  }

  /** No deletion leaves a branch stale or meets a node at line 410 that bears a key. */
  predicate Steady(events: seq<Event>, inline: Node -> bool) {
    events != [] ==>
      var front, e := events[..|events| - 1], events[|events| - 1];
      && Steady(front, inline)
      && !Meets(Played(front, inline), e, inline) && !LeavesStale(Played(front, inline), e, inline)
  }

  lemma RightIsClear(t: Tree, ops: seq<Op>)
    requires Formed(t) && Right(t, ops)
    ensures Clear(t) && Canonical(AsNode(t, true))
  {
    RunHolds(ops);
    CanonicalUnhidden(t);
  }

  lemma PlaceRight(t: Tree, key: seq<int>, v: Bytes)
    requires Formed(t) && Clear(t) && IsTerminated(key) && v != []
    ensures Shaped(AsNode(t, true))
    ensures AsNode(Place(t, key, Word(v, false)), true) == Insert(AsNode(t, true), key, Value(v))
  {
    var val := Word(v, false);
    AsNodeShaped(t, true);
    PlaceClear(t, key, val);
    PlaceIsInsert(t, key, val);
    SoundSeesAll(t);
    SoundSeesAll(Place(t, key, val));
  }

  lemma InsertionRight(t: Tree, ops: seq<Op>, op: Op, inline: Node -> bool)
    requires Formed(t) && Right(t, ops) && op.value != []
    ensures Unhidden(StepAsCoded(t, op, inline)) && AsNode(StepAsCoded(t, op, inline), true) == Step(Run(ops), op)
  {
    RightIsClear(t, ops);
    InsertedFits(t, KeyPath(op.key), Word(op.value, false), inline);
    InsertedUnhidden(t, KeyPath(op.key), Word(op.value, false), inline);
    PlaceRight(t, KeyPath(op.key), op.value);
  }

  /** On a canonical tree every node met at line 410 bears a key, unless a branch was left stale below. */
  lemma {:induction false} MetBears(t: Tree, key: seq<int>, inline: Node -> bool)
    requires IsTerminated(key) && Formed(t) && Clear(t) && Canonical(AsNode(t, true))
    requires !Stale(t, key, inline) && !Reaches(t, key, inline, BearingNode())
    ensures !Reaches(t, key, inline, AnyNode())
    decreases |key|
  {
    match t
    case Path(k, c) =>
      if k != key && k <= key {
        PathInKey(k, key);
        MetBears(c, key[|k|..], inline);
      }
    case Branch(s) =>
      HeadOfKey(key);
      ClearSlots(s);
      CanonicalSlots(s);
      if key[0] != 16 {
        assert AsNodes(s, true)[key[0]] == AsNode(s[key[0]], true);
        MetBears(s[key[0]], key[1..], inline);
        RemoveRightBelow(s[key[0]], key[1..], inline);
      }
      MetHereBears(s, key[0], Remove(s[key[0]], key[1..], inline));
    case _ =>
  }

  lemma RemoveRightBelow(t: Tree, key: seq<int>, inline: Node -> bool)
    requires IsTerminated(key) && Formed(t) && Clear(t) && Canonical(AsNode(t, true))
    requires !Stale(t, key, inline) && !Reaches(t, key, inline, AnyNode())
    ensures var r := Remove(t, key, inline); Canonical(AsNode(r, true)) && Clear(r)
  {
    DeletionRight(t, key, inline);
    ReachesEither(t, key, inline, AnyNode(), InlineNode(inline), StoredNode(inline));
  }

  lemma MetHereBears(s: seq<Tree>, i: nat, d: Tree)
    requires NodesInSlots(s) && i < 17 && Clear(d) && !ReachedAt(s[i := d], BearingNode())
    requires Canonical(AsNode(d, true))
    ensures !ReachedAt(s[i := d], AnyNode())
  {
    var s' := s[i := d];
    var a := Counted(s', 17);
    if ReachedAt(s', AnyNode()) {
      ClearSlots(s);
      var x := s'[a];
      assert Sub(AsNode(x, true)) && Clear(x);
      CanonicalNotBare(AsNode(x.child, true));
      SoundUnhidden(x.child);
      UnhiddenBears(x.child);
    }
  }

  predicate DeletedAsMeant(t: Tree, ops: seq<Op>, key: Bytes, inline: Node -> bool)
    requires Formed(t)
  {
    var r := Deleted(t, KeyPath(key), inline).tree;
    Unhidden(r) && AsNode(r, true) == Delete(Run(ops), KeyPath(key))
  }

  lemma DeletionStaysRight(t: Tree, ops: seq<Op>, key: Bytes, inline: Node -> bool)
    requires Formed(t) && Right(t, ops)
    requires !Stale(t, KeyPath(key), inline) && !Reaches(t, KeyPath(key), inline, BearingNode())
    ensures DeletedAsMeant(t, ops, key, inline)
  {
    var k := KeyPath(key);
    RightIsClear(t, ops);
    MetBears(t, k, inline);
    ReachesEither(t, k, inline, AnyNode(), InlineNode(inline), StoredNode(inline));
    DeletionRight(t, k, inline);
    DeletedFits(t, k, inline);
    DeletedUnhidden(t, k, inline);
  }

  /** A canonical tree that hides nothing answers as it is written. */
  lemma AnswerWritten(t: Tree, path: seq<int>)
    requires Formed(t) && Unhidden(t) && Canonical(AsNode(t, true)) && IsTerminated(path)
    ensures Shaped(AsNode(t, true)) && Answer(t, path) == Lookup(AsNode(t, true), path)
  {
    CanonicalUnhidden(t);
    SoundSeesAll(t);
    AnswerIsLookup(t, path);
  }

  lemma RightDeletionMetNone(t: Tree, ops: seq<Op>, key: Bytes, inline: Node -> bool)
    requires Formed(t) && Right(t, ops)
    requires DeletedAsMeant(t, ops, key, inline)
    ensures !Stale(t, KeyPath(key), inline) && !Reaches(t, KeyPath(key), inline, BearingNode())
  {
    var k := KeyPath(key);
    var r := Deleted(t, k, inline).tree;
    RightIsClear(t, ops);
    RunHolds(ops);
    DeletionRight(t, k, inline);
    DeletedFits(t, k, inline);
    DeleteCanonical(Run(ops), k);
    if Reaches(t, k, inline, BearingNode()) {
      var other := DeletedHides(t, k, inline);
      AnswerWritten(t, other);
      AnswerWritten(r, other);
      LookupDelete(Run(ops), k, other);
      assert false;
    }
  }

  lemma QuietEvent(t: Tree, e: Event, inline: Node -> bool)
    requires Formed(t) && !e.Do? && Unhidden(t)
    ensures Unhidden(Happened(t, e, inline)) && AsNode(Happened(t, e, inline), true) == AsNode(t, true)
  {
    ReloadFormed(t);
    SoundUnhidden(Reload(t));
    ReloadKeepsWritten(t);
    RefetchFormed(t, inline);
  }

  lemma EventRight(t: Tree, ops: seq<Op>, e: Event, inline: Node -> bool)
    requires Formed(t) && Right(t, ops)
    ensures Unhidden(Happened(t, e, inline)) && AsNode(Happened(t, e, inline), true) == RunAfter(Run(ops), e)
       <==> !Meets(t, e, inline) && !LeavesStale(t, e, inline)
  {
    if !e.Do? {
      QuietEvent(t, e, inline);
    } else if e.op.value != [] {
      InsertionRight(t, ops, e.op, inline);
    } else {
      DeletionRightExactly(t, ops, e.op.key, inline);
    }
  }

  lemma DeletionRightExactly(t: Tree, ops: seq<Op>, key: Bytes, inline: Node -> bool)
    requires Formed(t) && Right(t, ops)
    ensures DeletedAsMeant(t, ops, key, inline)
       <==> !Stale(t, KeyPath(key), inline) && !Reaches(t, KeyPath(key), inline, BearingNode())
  {
    if DeletedAsMeant(t, ops, key, inline) {
      RightDeletionMetNone(t, ops, key, inline);
    }
    if !Stale(t, KeyPath(key), inline) && !Reaches(t, KeyPath(key), inline, BearingNode()) {
      DeletionStaysRight(t, ops, key, inline);
    }
  }

  /**
   Whatever is cached, written out and opened again in between: after every event the trie is the intended one and shows
   all of it, if and only if no deletion leaves a branch stale or meets a node at line 410 that bears a key.
   */
  lemma {:induction false} RunRightExactly(events: seq<Event>, inline: Node -> bool)
    ensures AlwaysRight(events, inline) <==> Steady(events, inline)
  {
    if events != [] {
      var front, e := events[..|events| - 1], events[|events| - 1];
      RunRightExactly(front, inline);
      UpdatesStep(events);
      if AlwaysRight(front, inline) {
        AlwaysRightNow(front, inline);
        EventRight(Played(front, inline), Updates(front), e, inline);
      }
    }
  }

  lemma AlwaysRightNow(events: seq<Event>, inline: Node -> bool)
    requires AlwaysRight(events, inline)
    ensures Right(Played(events, inline), Updates(events))
  {}

  // ---------- Exactly when a run keeps answering ----------

  /** Get answers with the content. */
  ghost predicate Answers(t: Tree, m: map<Bytes, Bytes>)
    requires Formed(t)
  {
    forall path {:trigger Answer(t, path)} :: IsTerminated(path) ==> Answer(t, path) == PathGet(m, path)
  }

  /** After every event. */
  ghost predicate AlwaysAnswers(events: seq<Event>, inline: Node -> bool) {
    && Answers(Played(events, inline), Contents(Updates(events)))
    && (events != [] ==> AlwaysAnswers(events[..|events| - 1], inline))
  }

  /** No deletion reaches line 410 with a node that bears a key. */
  predicate NeverMeets(events: seq<Event>, inline: Node -> bool) {
    events != [] ==>
      var front, e := events[..|events| - 1], events[|events| - 1];
      NeverMeets(front, inline) && !Meets(Played(front, inline), e, inline)
  }

  lemma InsertionAnswers(t: Tree, m: map<Bytes, Bytes>, op: Op, inline: Node -> bool)
    requires Formed(t) && Unhidden(t) && Answers(t, m) && op.value != []
    ensures Unhidden(StepAsCoded(t, op, inline)) && Answers(StepAsCoded(t, op, inline), m[op.key := op.value])
  {
    InsertedUnhidden(t, KeyPath(op.key), Word(op.value, false), inline);
    forall path | IsTerminated(path)
      ensures Answer(StepAsCoded(t, op, inline), path) == PathGet(m[op.key := op.value], path)
    {
      InsertedAnswers(t, KeyPath(op.key), op.value, inline, path);
      PathGetUpdate(m, op.key, op.value, path);
    }
  }

  lemma DeletionAnswers(t: Tree, m: map<Bytes, Bytes>, key: Bytes, inline: Node -> bool)
    requires Formed(t) && Unhidden(t) && Answers(t, m)
    ensures Answers(StepAsCoded(t, Op.Update(key, []), inline), m - {key})
       <==> !Reaches(t, KeyPath(key), inline, BearingNode())
  {
    var t' := StepAsCoded(t, Op.Update(key, []), inline);
    if Reaches(t, KeyPath(key), inline, BearingNode()) {
      var other := DeletedHides(t, KeyPath(key), inline);
      PathGetUpdate(m, key, [], other);
      assert Answer(t', other) != PathGet(m - {key}, other);
    } else {
      forall path | IsTerminated(path) ensures Answer(t', path) == PathGet(m - {key}, path) {
        DeletedAnswers(t, KeyPath(key), inline, path);
        PathGetUpdate(m, key, [], path);
      }
    }
  }

  lemma QuietAnswers(t: Tree, m: map<Bytes, Bytes>, e: Event, inline: Node -> bool)
    requires Formed(t) && Unhidden(t) && Answers(t, m) && !e.Do?
    ensures Unhidden(Happened(t, e, inline)) && Answers(Happened(t, e, inline), m)
  {
    QuietEvent(t, e, inline);
    forall path | IsTerminated(path) ensures Answer(Happened(t, e, inline), path) == PathGet(m, path) {
      AnswerAlike(Happened(t, e, inline), t, path);
    }
  }

  lemma EventAnswers(t: Tree, m: map<Bytes, Bytes>, e: Event, inline: Node -> bool)
    requires Formed(t) && Unhidden(t) && Answers(t, m)
    ensures Answers(Happened(t, e, inline), ContentsAfter(m, e)) <==> !Meets(t, e, inline)
    ensures !Meets(t, e, inline) ==> Unhidden(Happened(t, e, inline))
  {
    if !e.Do? {
      QuietAnswers(t, m, e, inline);
    } else if e.op.value != [] {
      InsertionAnswers(t, m, e.op, inline);
    } else {
      assert e.op == Op.Update(e.op.key, []);
      DeletionAnswers(t, m, e.op.key, inline);
      if !Meets(t, e, inline) {
        DeletedUnhidden(t, KeyPath(e.op.key), inline);
      }
    }
  }

  /**
   Also on stale branches: after every event Get answers with the content of the run, if and only if no deletion meets
   a node at line 410 that bears a key. Until then no key is hidden.
   */
  lemma {:induction false} RunAnswersExactly(events: seq<Event>, inline: Node -> bool)
    ensures AlwaysAnswers(events, inline) <==> NeverMeets(events, inline)
    ensures NeverMeets(events, inline) ==> Unhidden(Played(events, inline))
  {
    if events == [] {
      NothingAnswers();
    } else {
      var front, e := events[..|events| - 1], events[|events| - 1];
      RunAnswersExactly(front, inline);
      UpdatesStep(events);
      if AlwaysAnswers(front, inline) {
        AlwaysAnswersNow(front, inline);
        EventAnswers(Played(front, inline), Contents(Updates(front)), e, inline);
      }
    }
  }

  lemma NothingAnswers()
    ensures Answers(Blank(true), map[])
  {}

  lemma AlwaysAnswersNow(events: seq<Event>, inline: Node -> bool)
    requires AlwaysAnswers(events, inline)
    ensures Answers(Played(events, inline), Contents(Updates(events)))
  {}

  // ---------- A condition without kinds ----------

  /** Every branch on the key's path keeps two occupied slots. */
  predicate Roomy(n: Node, key: seq<int>)
    requires key == [] || (IsTerminated(key) && Shaped(n))
    decreases |key|
  {
    key != [] ==>
      match n
      case Short(k, c) => k != key && k <= key ==> (PathInKey(k, key); Roomy(c, key[|k|..]))
      case Full(s) =>
        HeadOfKey(key);
        Roomy(s[key[0]], key[1..]) && Amount(s[key[0] := Delete(s[key[0]], key[1..])], 17) == -2
      case _ => true
  }

  /** Every deletion of the run does. */
  predicate Spacious(ops: seq<Op>) {
    ops != [] ==>
      var front, op := ops[..|ops| - 1], ops[|ops| - 1];
      Spacious(front) && (op.value == [] ==> Roomy(Run(front), KeyPath(op.key)))
  }

  /** Then, whatever the kinds, no branch is stale and line 410 is not reached. */
  lemma {:induction false} RoomyIsHarmless(t: Tree, key: seq<int>, inline: Node -> bool)
    requires key == [] || (IsTerminated(key) && Formed(t) && Clear(t) && Shaped(AsNode(t, true)))
    requires Roomy(AsNode(t, true), key)
    ensures !Stale(t, key, inline) && forall p :: !Reaches(t, key, inline, p)
    ensures AsNode(Remove(t, key, inline), true) == Delete(AsNode(t, true), key)
    decreases |key|
  {
    if key != [] {
      match t
      case Path(k, c) =>
        if k != key && k <= key {
          PathInKey(k, key);
          RoomyIsHarmless(c, key[|k|..], inline);
        }
      case Branch(s) =>
        HeadOfKey(key);
        ClearSlots(s);
        assert AsNodes(s, true)[key[0]] == AsNode(s[key[0]], true);
        RoomyIsHarmless(s[key[0]], key[1..], inline);
        RoomyInBranch(s, key, inline);
      case _ =>
    }
  }

  lemma RoomyInBranch(s: seq<Tree>, key: seq<int>, inline: Node -> bool)
    requires IsTerminated(key) && Formed(Branch(s)) && NoHole(Branch(s)) && Shaped(AsNode(Branch(s), true))
    requires Roomy(AsNode(Branch(s), true), key)
    requires 0 <= key[0] <= 16 && IsRest(key[1..]) && (key[1..] != [] ==> Formed(s[key[0]]) && NoHole(s[key[0]]))
    requires !Stale(s[key[0]], key[1..], inline) && forall p :: !Reaches(s[key[0]], key[1..], inline, p)
    requires AsNode(Remove(s[key[0]], key[1..], inline), true) == Delete(AsNode(s[key[0]], true), key[1..])
    ensures !Stale(Branch(s), key, inline) && forall p :: !Reaches(Branch(s), key, inline, p)
    ensures AsNode(Remove(Branch(s), key, inline), true) == Delete(AsNode(Branch(s), true), key)
  {
    assert AsNodes(s, true)[key[0]] == AsNode(s[key[0]], true);
    RoomyBranch(s, key[0], Remove(s[key[0]], key[1..], inline), inline);
    RemoveInBranch(s, key, inline);
  }

  lemma RoomyBranch(s: seq<Tree>, i: nat, d: Tree, inline: Node -> bool)
    requires |s| == 17 && i < 17 && Amount(AsNodes(s, true)[i := AsNode(d, true)], 17) == -2
    ensures var s' := s[i := d];
            && !StaleAt(s') && (forall p :: !ReachedAt(s', p)) && Shrunk(s', inline) == Branch(s')
            && AsNodes(s', true) == AsNodes(s, true)[i := AsNode(d, true)]
            && Collapsed(AsNodes(s', true)) == Full(AsNodes(s', true))
  {
    AsNodesUpdate(s, i, d, true);
    CountedCovers(s[i := d], 17);
  }

  /**
   Whatever is cached, written out and opened again: as long as every branch on a deleted key's path keeps two occupied
   slots, the trie is the intended one, and Get answers with the content.
   */
  lemma {:induction false} SpaciousIsSteady(events: seq<Event>, inline: Node -> bool)
    requires Spacious(Updates(events))
    ensures Steady(events, inline) && AlwaysRight(events, inline) && NeverMeets(events, inline)
  {
    RunRightExactly(events, inline);
    if events != [] {
      var front, e := events[..|events| - 1], events[|events| - 1];
      SpaciousFront(events);
      SpaciousIsSteady(front, inline);
      AlwaysRightNow(front, inline);
      RoomyEvent(Played(front, inline), Updates(front), e, inline);
      RunRightExactly(events, inline);
    }
  }

  lemma RoomyEvent(t: Tree, ops: seq<Op>, e: Event, inline: Node -> bool)
    requires Formed(t) && Right(t, ops)
    requires e.Do? && e.op.value == [] ==> Roomy(Run(ops), KeyPath(e.op.key))
    ensures !Meets(t, e, inline) && !LeavesStale(t, e, inline)
  {
    if e.Do? && e.op.value == [] {
      RightIsClear(t, ops);
      RoomyIsHarmless(t, KeyPath(e.op.key), inline);
    }
  }

  lemma SpaciousFront(events: seq<Event>)
    requires events != [] && Spacious(Updates(events))
    ensures var front, e := events[..|events| - 1], events[|events| - 1];
            Spacious(Updates(front)) && (e.Do? && e.op.value == [] ==> Roomy(Run(Updates(front)), KeyPath(e.op.key)))
  {
    var front, e := events[..|events| - 1], events[|events| - 1];
    if e.Do? {
      var ops := Updates(events);
      assert ops[..|ops| - 1] == Updates(front);
    }
  }
}
