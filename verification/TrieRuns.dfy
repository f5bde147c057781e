/**
 Whole runs of the trie object: what Get answers and what the root is after any of them, whatever is cached, written
 out, opened again or undone in between.
 */
module TrieRuns {
  import opened ByteStrings
  import opened HexPrefix
  import opened Rlp
  import opened GoValues
  import opened PatriciaTree
  import opened TrieTheorems
  import opened CodedTree
  import opened CodedRight
  import opened Reading
  import opened SharedNodes
  import opened SharedAnswers
  import opened CodedRuns
  import opened NodeRefs
  import opened TrieViews
  import opened TrieCache
  import opened TrieSteps
  import opened TrieObject

  // ---------- Opening a trie again ----------

  /**
   A new trie on the root as it is read from where it was written, a block say: what Reload says, and every hash is a
   hash again. A root that is a list and holds a single zero byte would come back as another one.
   */
  method OpenAgain(t: Trie) returns (c: Trie)
    requires t.Readable() && NoZeroByte(Plain(t.root))
    requires Held(AsNode(t.tree, true), t.cache.db.data.Keys, t.cache.known, t.cache.hash)
    ensures fresh(c) && fresh(c.cache) && c.cache.db == t.cache.db
    ensures c.cache.hash == t.cache.hash && c.cache.known == t.cache.known
    ensures c.Valid() && c.tree == Reload(t.tree)
  {
    ReadFromStore(t.cache.db.data, t.cache.known, t.cache.hash);
    assert ViewOf(map[], t.cache.db.data).Keys == t.cache.db.data.Keys;
    ReopenedShows(ViewOf(map[], t.cache.db.data), t.root, t.tree, t.cache.known, t.cache.hash);
    c := Open(t.cache.db, Reloaded(Plain(t.root)), t.cache.hash, t.cache.known, Reload(t.tree));
  }

  method Open(db: Database, root: GoValue, hash: Hash, ghost known: set<Item>, ghost tree: Tree) returns (c: Trie)
    requires NoCollisions(known, hash) && Sane(db.data, known, hash)
    requires Formed(tree) && Shows(ViewOf(map[], db.data), root, tree, known, hash)
    ensures fresh(c) && fresh(c.cache) && c.cache.db == db && c.cache.hash == hash && c.cache.known == known
    ensures c.Valid() && c.tree == tree && c.root == root
  {
    c := new Trie(db, root, hash, known, tree);
    ReadFromStore(db.data, known, hash);
    assert ViewOf(map[], db.data).Keys == db.data.Keys;
    assert c.cache.Seen() == ViewOf(map[], db.data);
  }

  lemma ReopenedShows(v: View, root: GoValue, t: Tree, known: set<Item>, h: Hash)
    requires Fits(v, known, h) && ReadBack(v, known, h) && Formed(t) && NoZeroByte(Plain(root))
    requires Keyed(AsNode(t, true)) && Plain(root) == Ref(AsNode(t, true), h) && Held(AsNode(t, true), v.Keys, known, h)
    ensures Formed(Reload(t)) && Shows(v, Reloaded(Plain(root)), Reload(t), known, h)
  {
    ReloadedWhole(Plain(root));
    ReloadFormed(t);
    ReloadKeepsWritten(t);
    NowReadBack(v, t, known, h);
  }

  // ---------- The nodes that runs store ----------

  /** The update stores known nodes only, and leaves one of these nodes. */
  ghost predicate StaysIn(t: Tree, op: Op, states: set<Node>, known: set<Item>, h: Hash) {
    Formed(t) && AsNode(t, true) in states ==>
      UpdateKnown(t, op, known, h) && AsNode(StepAsCoded(t, op, InlineTest(h)), true) in states
  }

  /** The nodes that a run of these updates can leave, whatever is read back on the way. */
  ghost predicate Closed(states: set<Node>, ops: seq<Op>, known: set<Item>, h: Hash) {
    forall t, op {:trigger StaysIn(t, op, states, known, h)} :: op in ops ==> StaysIn(t, op, states, known, h)
  }

  ghost predicate Within(t: Trie, states: set<Node>)
    reads t
  {
    AsNode(t.tree, true) in states
  }

  // ---------- Runs with their panics ----------

  /** What was asked of the trie, panics included. */
  function Asked(events: seq<Event>): seq<Op> {
    if events == [] then [] else
      var front, last := Asked(events[..|events| - 1]), events[|events| - 1];
      if last.Do? || last.Panicked? then front + [last.op] else front
  }

  /** An update panics exactly when a path overruns its key and the room behind it. */
  predicate PanicsRightly(t: Tree, e: Event, room: nat)
    requires Formed(t)
  {
    (e.Do? ==> !Panics(t, e.op, room)) && (e.Panicked? ==> Panics(t, e.op, room))
  }

  predicate WellRun(events: seq<Event>, room: nat, inline: Node -> bool) {
    events != [] ==>
      var front := events[..|events| - 1];
      WellRun(front, room, inline) && PanicsRightly(Played(front, inline), events[|events| - 1], room)
  }

  lemma AskedOn(events: seq<Event>, e: Event)
    ensures Asked(events + [e]) == if e.Do? || e.Panicked? then Asked(events) + [e.op] else Asked(events)
  {
    assert (events + [e])[..|events|] == events;
  }

  lemma WellRunOn(events: seq<Event>, e: Event, room: nat, inline: Node -> bool)
    requires WellRun(events, room, inline) && PanicsRightly(Played(events, inline), e, room)
    ensures WellRun(events + [e], room, inline)
  {
    assert (events + [e])[..|events|] == events;
  }

  /** The trie is what these events left. */
  ghost predicate Follows(t: Trie, events: seq<Event>, room: nat)
    reads t, t.cache, t.cache.db
  {
    t.Valid() && t.tree == Played(events, InlineTest(t.cache.hash)) && WellRun(events, room, InlineTest(t.cache.hash))
  }

  lemma CleanStays(nodes: map<Bytes, Entry>, nodes': map<Bytes, Entry>, data: map<Bytes, Bytes>, v: View)
    requires CleanFrom(nodes, nodes', data) && CleanSince(nodes, data, v)
    ensures CleanSince(nodes', data, v)
  {}

  /** Update on a valid trie, which stays valid. */
  method UpdateOnce(t: Trie, op: Op, room: nat)
    requires t.Valid() && UpdateKnown(t.tree, op, t.cache.known, t.cache.hash)
    modifies t`root, t`tree, t.cache
    ensures t.Valid()
    ensures Panics(old(t.tree), op, room) ==> t.tree == old(t.tree)
    ensures !Panics(old(t.tree), op, room) ==> LeftBy(t, old(t.tree), op)
  {
    label Before:
    assert op == Op.Update(op.key, op.value);
    var _ := t.Update(op.key, op.value, room);
    StaysValid@Before(t);
  }

  twostate lemma StaysValid(t: Trie)
    requires old(t.Valid()) && t.Readable()
    requires unchanged(t`prevRoot, t`prevTree, t`prevSeen) && unchanged(t.cache.db)
    requires Later(old(t.cache.nodes), old(t.cache.isDirty), t.cache.nodes, t.cache.isDirty, t.cache.db.data)
    ensures t.Valid()
  {
    CleanStays(old(t.cache.nodes), t.cache.nodes, t.cache.db.data, t.prevSeen);
  }

  /** The tree is what the update makes, and the node of its root was put last. */
  ghost predicate LeftBy(t: Trie, before: Tree, op: Op)
    requires Formed(before)
    reads t, t.cache
  {
    var x := StepEffect(before, op, InlineTest(t.cache.hash));
    t.tree == x.tree && (x.puts != [] ==> t.JustPut(t.root))
  }

  /** One update of a run. */
  method UpdateIn(t: Trie, op: Op, room: nat, ghost ops: seq<Op>, ghost states: set<Node>)
    requires t.Valid() && Within(t, states) && op in ops && Closed(states, ops, t.cache.known, t.cache.hash)
    modifies t`root, t`tree, t.cache
    ensures t.Valid() && Within(t, states)
    ensures Panics(old(t.tree), op, room) ==> t.tree == old(t.tree)
    ensures !Panics(old(t.tree), op, room) ==> LeftBy(t, old(t.tree), op)
  {
    assert StaysIn(t.tree, op, states, t.cache.known, t.cache.hash);
    UpdateOnce(t, op, room);
  }

  /** And what happened. */
  method RunOne(t: Trie, op: Op, room: nat, ghost ops: seq<Op>, ghost states: set<Node>) returns (ghost e: Event)
    requires t.Valid() && Within(t, states) && op in ops && Closed(states, ops, t.cache.known, t.cache.hash)
    modifies t`root, t`tree, t.cache
    ensures t.Valid() && Within(t, states)
    ensures (e == Do(op) || e == Panicked(op)) && PanicsRightly(old(t.tree), e, room)
    ensures t.tree == Happened(old(t.tree), e, InlineTest(t.cache.hash))
  {
    e := if Panics(t.tree, op, room) then Panicked(op) else Do(op);
    UpdateIn(t, op, room, ops, states);
  }

  function Between(t: Tree, emptied: bool, reopened: bool, inline: Node -> bool): Tree {
    var r := if emptied then Refetch(t, inline) else t;
    if reopened then Reload(r) else r
  }

  /** Nothing, a Sync, or a Sync and a new trie on the root that was written. */
  method Perhaps(t: Trie, ghost states: set<Node>) returns (c: Trie, ghost emptied: bool, ghost reopened: bool)
    requires t.Valid() && Within(t, states)
    modifies t, t.cache, t.cache.db
    ensures c.Valid() && Within(c, states)
    ensures c.tree == Between(old(t.tree), emptied, reopened, InlineTest(t.cache.hash))
    ensures c.cache.hash == t.cache.hash && c.cache.known == t.cache.known && c.cache.db == t.cache.db
    ensures c == t || (fresh(c) && fresh(c.cache))
  {
    c, emptied, reopened := t, false, false;
    var sync: bool, reopen: bool := *, *;
    if sync {
      RefetchFormed(t.tree, InlineTest(t.cache.hash));
      emptied := t.Sync();
      if reopen && NoZeroByte(Plain(t.root)) {
        ReloadKeepsWritten(t.tree);
        c := OpenAgain(t);
        reopened := true;
      }
    }
  }

  /** The run goes on by one update, and perhaps a Sync and a new trie. */
  method RunOn(t: Trie, op: Op, room: nat, ghost ops: seq<Op>, ghost states: set<Node>, ghost events: seq<Event>)
    returns (c: Trie, ghost events': seq<Event>)
    requires Follows(t, events, room) && Within(t, states) && op in ops
    requires Closed(states, ops, t.cache.known, t.cache.hash)
    modifies t, t.cache, t.cache.db
    ensures Follows(c, events', room) && Within(c, states) && Asked(events') == Asked(events) + [op]
    ensures c.cache.hash == t.cache.hash && c.cache.known == t.cache.known && c.cache.db == t.cache.db
    ensures c == t || (fresh(c) && fresh(c.cache))
  {
    ghost var inline := InlineTest(t.cache.hash);
    ghost var e := RunOne(t, op, room, ops, states);
    EventOn(events, e, room, inline);
    ghost var emptied, reopened;
    c, emptied, reopened := Perhaps(t, states);
    events' := events + [e];
    if emptied {
      EventOn(events', Emptied, room, inline);
      events' := events' + [Emptied];
    }
    if reopened {
      EventOn(events', Reopen, room, inline);
      events' := events' + [Reopen];
    }
  }

  lemma EventOn(events: seq<Event>, e: Event, room: nat, inline: Node -> bool)
    requires WellRun(events, room, inline) && PanicsRightly(Played(events, inline), e, room)
    ensures WellRun(events + [e], room, inline)
    ensures Played(events + [e], inline) == Happened(Played(events, inline), e, inline)
    ensures Asked(events + [e]) == if e.Do? || e.Panicked? then Asked(events) + [e.op] else Asked(events)
  {
    WellRunOn(events, e, room, inline);
    PlayedOn(events, e, inline);
    AskedOn(events, e);
  }

  method RunAll(t0: Trie, ops: seq<Op>, room: nat, ghost states: set<Node>) returns (t: Trie, ghost events: seq<Event>)
    requires t0.Valid() && t0.tree.Blank? && Within(t0, states) && Closed(states, ops, t0.cache.known, t0.cache.hash)
    modifies t0, t0.cache, t0.cache.db
    ensures Follows(t, events, room) && Asked(events) == ops && t.cache.hash == t0.cache.hash
    ensures t == t0 || (fresh(t) && fresh(t.cache))
  {
    t := t0;
    events := if t0.tree == Blank(true) then [] else [Reopen];
    StartFollows(t0.tree, room, InlineTest(t0.cache.hash));
    for i := 0 to |ops|
      invariant Follows(t, events, room) && Within(t, states) && Asked(events) == ops[..i]
      invariant t.cache.hash == t0.cache.hash && t.cache.known == t0.cache.known && t.cache.db == t0.cache.db
      invariant t == t0 || (fresh(t) && fresh(t.cache))
    {
      assert ops[..i + 1] == ops[..i] + [ops[i]];
      t, events := RunOn(t, ops[i], room, ops, states, events);
    }
    assert ops[..|ops|] == ops;
  }

  lemma StartFollows(t: Tree, room: nat, inline: Node -> bool)
    requires t.Blank?
    ensures var events := if t == Blank(true) then [] else [Reopen];
            Played(events, inline) == t && WellRun(events, room, inline) && Asked(events) == []
  {
    assert [Reopen][..0] == [];
  }

  // ---------- What a run promises ----------

  /** A run that always answers, and what follows for one key. */
  lemma AnswersKey(events: seq<Event>, key: Bytes, inline: Node -> bool)
    requires NeverMeets(events, inline)
    ensures Answer(Played(events, inline), KeyPath(key)) == MapGet(Contents(Updates(events)), key)
  {
    RunAnswersExactly(events, inline);
    AlwaysAnswersNow(events, inline);
    PathOfKey(KeyPath(key), key);
  }

  lemma SteadyRoot(events: seq<Event>, h: Hash)
    requires Steady(events, InlineTest(h))
    ensures RootOf(events, h) == IntendedRoot(Updates(events), h)
  {
    RunRightExactly(events, InlineTest(h));
    AlwaysRightNow(events, InlineTest(h));
  }

  /** No deletion is among them. */
  predicate OnlyInserts(ops: seq<Op>) {
    forall op :: op in ops ==> op.value != []
  }

  /** Without deletions nothing panics, and every deleted key's path is as roomy as can be. */
  lemma {:induction false} InsertsAreSpacious(events: seq<Event>, room: nat, inline: Node -> bool)
    requires WellRun(events, room, inline) && OnlyInserts(Asked(events))
    ensures Updates(events) == Asked(events) && Spacious(Updates(events))
  {
    if events != [] {
      var front, e := events[..|events| - 1], events[|events| - 1];
      assert OnlyInserts(Asked(front)) by { assert forall op :: op in Asked(front) ==> op in Asked(events); }
      InsertsAreSpacious(front, room, inline);
      if e.Do? || e.Panicked? {
        assert e.op in Asked(events);
        assert Updates(events)[..|Updates(events)| - 1] == Updates(front);
      }
    }
  }

  /**
   The trie object refines a map. After any run of updates and deletions from the empty trie, with a Sync or a new trie
   on the written root behind any of them, the tree that is seen is exactly the one of these events. Hence Get answers
   with the content of what did not panic as long as no deletion meets a node that bears a key at line 410, and the root
   is the one for that content as long as none leaves a branch stale either; both whenever every branch on a deleted
   key's path keeps two occupied slots, so in particular without deletions.
   */
  method GetAfterRun(t0: Trie, ops: seq<Op>, room: nat, key: Bytes, ghost states: set<Node>)
    returns (t: Trie, value: Bytes, ghost events: seq<Event>)
    requires t0.Valid() && t0.tree.Blank? && Within(t0, states) && Closed(states, ops, t0.cache.known, t0.cache.hash)
    modifies t0, t0.cache, t0.cache.db
    ensures t.Readable() && t.cache.hash == t0.cache.hash
    ensures t.tree == Played(events, InlineTest(t.cache.hash)) && Plain(t.root) == RootOf(events, t.cache.hash)
    ensures Asked(events) == ops && WellRun(events, room, InlineTest(t.cache.hash))
    ensures value == Answer(t.tree, KeyPath(key))
    ensures NeverMeets(events, InlineTest(t.cache.hash)) ==> value == MapGet(Contents(Updates(events)), key)
    ensures Steady(events, InlineTest(t.cache.hash)) ==> Plain(t.root) == IntendedRoot(Updates(events), t.cache.hash)
    ensures Spacious(Updates(events)) ==>
              value == MapGet(Contents(Updates(events)), key) &&
              Plain(t.root) == IntendedRoot(Updates(events), t.cache.hash)
    ensures OnlyInserts(ops) ==>
              value == MapGet(Contents(ops), key) && Plain(t.root) == IntendedRoot(ops, t.cache.hash)
  {
    t, events := RunAll(t0, ops, room, states);
    value := t.Get(key);
    Promises(events, room, key, t.cache.hash);
  }

  lemma Promises(events: seq<Event>, room: nat, key: Bytes, h: Hash)
    requires WellRun(events, room, InlineTest(h))
    ensures var value, ops := Answer(Played(events, InlineTest(h)), KeyPath(key)), Updates(events);
            && (NeverMeets(events, InlineTest(h)) ==> value == MapGet(Contents(ops), key))
            && (Steady(events, InlineTest(h)) ==> RootOf(events, h) == IntendedRoot(ops, h))
            && (Spacious(ops) ==> value == MapGet(Contents(ops), key) && RootOf(events, h) == IntendedRoot(ops, h))
            && (OnlyInserts(Asked(events)) ==> Spacious(ops) && ops == Asked(events))
  {
    if NeverMeets(events, InlineTest(h)) {
      AnswersKey(events, key, InlineTest(h));
    }
    if Steady(events, InlineTest(h)) {
      SteadyRoot(events, h);
    }
    if Spacious(Updates(events)) {
      SpaciousIsSteady(events, InlineTest(h));
    }
    if OnlyInserts(Asked(events)) {
      InsertsAreSpacious(events, room, InlineTest(h));
    }
  }

  // ---------- Undo ----------

  /** What is answered in the first tree is answered in the second. */
  ghost predicate StillAnswers(a: Tree, b: Tree)
    requires Formed(a) && Formed(b)
  {
    forall path {:trigger Answer(b, path)} :: IsTerminated(path) ==>
      Answer(a, path) == [] || Answer(a, path) == Answer(b, path)
  }

  ghost predicate SameAnswers(a: Tree, b: Tree)
    requires Formed(a) && Formed(b)
  {
    forall path {:trigger Answer(b, path)} :: IsTerminated(path) ==> Answer(a, path) == Answer(b, path)
  }

  /** A Sync and an Undo hide nothing. */
  lemma BackSeen(a: Tree, b: Tree, c: Tree)
    requires Formed(a) && Formed(b) && Formed(c) && StillSeen(a, b) && StillSeen(b, c)
    ensures StillAnswers(a, c) && (Unhidden(a) ==> Unhidden(c) && SameAnswers(a, c))
  {
    forall path | IsTerminated(path) ensures Answer(a, path) == [] || Answer(a, path) == Answer(c, path) {
      AnswerStill(a, b, path);
      AnswerStill(b, c, path);
    }
    if Unhidden(a) {
      StillUnhidden(a, b);
      StillUnhidden(b, c);
      forall path | IsTerminated(path) ensures Answer(a, path) == Answer(c, path) {
        AnswerAlike(a, c, path);
      }
    }
  }

  /**
   After a Sync, any run of updates and deletions, also one that loses keys or panics, and an Undo, the trie is written
   as before the Sync, and Get answers every value that it answered then. It answers nothing else if no key was hidden;
   otherwise Undo can bring some of them back.
   */
  method UndoAfterRun(t: Trie, ops: seq<Op>, room: nat, ghost states: set<Node>)
    requires t.Valid() && Within(t, states) && Closed(states, ops, t.cache.known, t.cache.hash)
    modifies t, t.cache, t.cache.db
    ensures t.Valid() && AsNode(t.tree, true) == old(AsNode(t.tree, true)) && t.root == old(t.root)
    ensures StillAnswers(old(t.tree), t.tree)
    ensures old(Unhidden(t.tree)) ==> Unhidden(t.tree) && SameAnswers(old(t.tree), t.tree)
  {
    ghost var before := t.tree;
    SyncSeen(t.tree, InlineTest(t.cache.hash));
    ghost var _ := t.Sync();
    ghost var synced, root := t.prevTree, t.prevRoot;
    for i := 0 to |ops|
      invariant t.Valid() && Within(t, states) && t.prevTree == synced && t.prevRoot == root
    {
      ghost var _ := RunOne(t, ops[i], room, ops, states);
    }
    t.Undo();
    BackSeen(before, synced, t.tree);
  }

  lemma SyncSeen(t: Tree, inline: Node -> bool)
    requires Formed(t)
    ensures StillSeen(t, t) && StillSeen(t, Refetch(t, inline)) && Formed(Refetch(t, inline))
    ensures AsNode(Refetch(t, inline), true) == AsNode(t, true)
  {
    SelfSeen(t);
    RefetchStill(t, inline);
    RefetchFormed(t, inline);
  }

  // ---------- Copies ----------

  /**
   Sync on a copy writes nothing: its old root can be restored from the database exactly when the
   original's nodes were all there already.
   */
  method SyncOfCopy(t: Trie) returns (c: Trie)
    requires t.Readable()
    modifies t.cache.db
    ensures c.Readable() && c.cache.db.data == old(t.cache.db.data)
    ensures c.Restorable() <==> Held(AsNode(t.tree, true), t.cache.db.data.Keys, t.cache.known, t.cache.hash)
    ensures Flags(c.cache.nodes, c.cache.isDirty) <==> forall k :: k in t.cache.nodes ==> !t.cache.nodes[k].dirty
  {
    c := t.Copy();
    ghost var _ := c.Sync();
  }

  /** What other tries on the same database write leaves a trie as it is. */
  twostate lemma StaysReadable(t: Trie)
    requires old(t.Readable()) && unchanged(t) && unchanged(t.cache)
    requires Grows(old(t.cache.db.data), t.cache.db.data) && Sane(t.cache.db.data, t.cache.known, t.cache.hash)
    ensures t.Readable()
  {
    var v, w := old(t.cache.Seen()), t.cache.Seen();
    ViewFits(old(t.cache.nodes), old(t.cache.db.data), t.cache.known, t.cache.hash);
    ShowsExtends(v, w, t.root, t.tree, t.cache.known, t.cache.hash);
  }

  /**
   What is done to a trie does not reach its copy: after any run of updates, deletions, Syncs and Undos on the original,
   also one that loses keys or panics, every Get on the copy answers as the original did.
   */
  method RunBesideCopy(t: Trie, ops: seq<Op>, room: nat, key: Bytes, ghost states: set<Node>)
    returns (c: Trie, value: Bytes)
    requires t.Valid() && Within(t, states) && AsNode(t.prevTree, true) in states
    requires Closed(states, ops, t.cache.known, t.cache.hash)
    modifies t, t.cache, t.cache.db
    ensures c.Readable() && c.tree == old(t.tree) && value == old(Answer(t.tree, KeyPath(key)))
  {
    c := t.Copy();
    for i := 0 to |ops|
      invariant t.Valid() && Within(t, states) && AsNode(t.prevTree, true) in states
      invariant c.Readable() && c.tree == old(t.tree) && fresh(c) && fresh(c.cache) && c.cache != t.cache
      invariant c.cache.db == t.cache.db && c.cache.hash == t.cache.hash && c.cache.known == t.cache.known
    {
      RunBeside(t, ops[i], room, c, ops, states);
    }
    value := c.Get(key);
  }

  /** One update of the original, and perhaps a Sync or an Undo of it. */
  method RunBeside(t: Trie, op: Op, room: nat, c: Trie, ghost ops: seq<Op>, ghost states: set<Node>)
    requires t.Valid() && Within(t, states) && AsNode(t.prevTree, true) in states
    requires op in ops && Closed(states, ops, t.cache.known, t.cache.hash)
    requires c.Readable() && c != t && c.cache != t.cache
    requires c.cache.db == t.cache.db && c.cache.hash == t.cache.hash && c.cache.known == t.cache.known
    modifies t, t.cache, t.cache.db
    ensures t.Valid() && Within(t, states) && AsNode(t.prevTree, true) in states && c.Readable()
  {
    ghost var _ := RunOne(t, op, room, ops, states);
    SyncOrUndo(t, c);
  }

  method SyncOrUndo(t: Trie, c: Trie)
    requires t.Valid() && c.Readable() && c != t && c.cache != t.cache
    requires c.cache.db == t.cache.db && c.cache.hash == t.cache.hash && c.cache.known == t.cache.known
    modifies t, t.cache, t.cache.db
    ensures t.Valid() && c.Readable()
    ensures Either(AsNode(t.tree, true), old(AsNode(t.tree, true)), old(AsNode(t.prevTree, true)))
    ensures Either(AsNode(t.prevTree, true), old(AsNode(t.tree, true)), old(AsNode(t.prevTree, true)))
  {
    var sync: bool, undo: bool := *, *;
    if sync {
      SyncBeside(t, c);
    } else if undo {
      UndoBeside(t, c);
    }
  }

  method UndoBeside(t: Trie, c: Trie)
    requires t.Valid() && c.Readable() && c != t && c.cache != t.cache
    modifies t, t.cache
    ensures t.Valid() && c.Readable()
    ensures AsNode(t.tree, true) == AsNode(t.prevTree, true) == old(AsNode(t.prevTree, true))
  {
    t.Undo();
  }

  predicate Either(n: Node, a: Node, b: Node) {
    n == a || n == b
  }

  method SyncBeside(t: Trie, c: Trie)
    requires t.Valid() && c.Readable() && c != t && c.cache != t.cache
    requires c.cache.db == t.cache.db && c.cache.hash == t.cache.hash && c.cache.known == t.cache.known
    modifies t, t.cache, t.cache.db
    ensures t.Valid() && c.Readable()
    ensures AsNode(t.tree, true) == AsNode(t.prevTree, true) == old(AsNode(t.tree, true))
  {
    RefetchFormed(t.tree, InlineTest(t.cache.hash));
    label Before:
    ghost var _ := t.Sync();
    StaysReadable@Before(c);
  }
}
