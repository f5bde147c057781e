/**
 The database and the write-back cache of ethutil/trie.go.
 */
module TrieCache {
  import opened ByteStrings
  import opened Rlp
  import opened GoValues
  import opened NodeRefs
  import opened TrieViews

  /** The key-value store behind one or more caches. */
  class Database {
    var data: map<Bytes, Bytes>

    constructor ()
      ensures data == map[]
    {
      data := map[];
    }
  }

  /** A cache node; nil is what a failed database read leaves. */
  datatype Entry = Entry(value: GoValue, dirty: bool)

  /** The nodes after the keys in `done` are committed. */
  function Cleaned(nodes: map<Bytes, Entry>, done: set<Bytes>): map<Bytes, Entry> {
    map k | k in nodes :: if k in done then Entry(nodes[k].value, false) else nodes[k]
  }

  /** The database after the dirty ones among the keys in `done` are written. */
  function Written(nodes: map<Bytes, Entry>, data: map<Bytes, Bytes>, done: set<Bytes>): map<Bytes, Bytes> {
    data + map k | k in nodes && k in done && nodes[k].dirty :: Encoded(Plain(nodes[k].value))
  }

  /** NewValueFromBytes. */
  function ValueOf(data: Bytes): GoValue {
    if data == [] || DecodeAt(data, 0).None? then GoNil else Reloaded(DecodeAt(data, 0).value.0)
  }

  function ViewOf(nodes: map<Bytes, Entry>, data: map<Bytes, Bytes>): View {
    map k | k in nodes.Keys + data.Keys :: if k in nodes then nodes[k].value else ValueOf(data[k])
  }

  /** Known encodings are stored under their hash only, and nothing under a key of at most one byte. */
  ghost predicate Sane(data: map<Bytes, Bytes>, known: set<Item>, h: Hash) {
    && (forall x :: x in known && HashOf(x, h) in data ==> data[HashOf(x, h)] == Encoded(x))
    && (forall k :: k in data ==> |k| > 1)
  }

  /**
   A node sits under the hash of its item, and a clean one is in the database too; nil is kept for short keys only.
   */
  ghost predicate EntryFits(k: Bytes, e: Entry, data: map<Bytes, Bytes>, known: set<Item>, h: Hash) {
    if e.value.GoNil? then !e.dirty && |k| <= 1
    else Whole(e.value) && Plain(e.value) in known && k == HashOf(Plain(e.value), h) && (e.dirty || k in data)
  }

  ghost predicate EntriesFit(nodes: map<Bytes, Entry>, data: map<Bytes, Bytes>, known: set<Item>, h: Hash) {
    forall k :: k in nodes ==> EntryFits(k, nodes[k], data, known, h)
  }

  /** What is read from the database for a known item. */
  lemma ValueOfKnown(x: Item, known: set<Item>, h: Hash)
    requires NoCollisions(known, h) && x in known
    ensures ValueOf(Encoded(x)) == Reloaded(x) && Whole(Reloaded(x)) && Plain(Reloaded(x)) == x
  {
    DecodeExact(Encoded(x), 0, x);
    ReloadedWhole(x);
  }

  /** Whatever cache and database hold, a known hash leads to its item. */
  lemma ViewFits(nodes: map<Bytes, Entry>, data: map<Bytes, Bytes>, known: set<Item>, h: Hash)
    requires NoCollisions(known, h) && EntriesFit(nodes, data, known, h) && Sane(data, known, h)
    ensures Fits(ViewOf(nodes, data), known, h)
  {
    var v := ViewOf(nodes, data);
    forall x | x in known && HashOf(x, h) in v ensures Plain(v[HashOf(x, h)]) == x && Whole(v[HashOf(x, h)]) {
      var k := HashOf(x, h);
      if k in nodes {
        assert EntryFits(k, nodes[k], data, known, h);
        SameHashSameItem(x, Plain(nodes[k].value), known, h);
      } else {
        ValueOfKnown(x, known, h);
      }
    }
  }

  // ---------- What a cache remembers ----------

  /** A dirty node always implies IsDirty, so Commit never skips one. */
  predicate Flags(nodes: map<Bytes, Entry>, isDirty: bool) {
    forall k :: k in nodes && nodes[k].dirty ==> isDirty
  }

  function ReadIn(data: map<Bytes, Bytes>, key: Bytes): GoValue {
    if key in data then ValueOf(data[key]) else GoNil
  }

  /** The clean nodes were clean before, or have been read since. */
  predicate CleanFrom(nodes: map<Bytes, Entry>, nodes': map<Bytes, Entry>, data: map<Bytes, Bytes>) {
    forall k :: k in nodes' && !nodes'[k].dirty ==>
      (k in nodes && nodes[k] == nodes'[k]) || nodes'[k].value == ReadIn(data, k)
  }

  /** The clean nodes are as in the view `v`, or have been read since. */
  predicate CleanSince(nodes: map<Bytes, Entry>, data: map<Bytes, Bytes>, v: View) {
    forall k :: k in nodes && !nodes[k].dirty ==>
      (k in v && nodes[k].value == v[k]) || nodes[k].value == ReadIn(data, k)
  }

  /** What every operation but Commit keeps. */
  predicate Later(nodes: map<Bytes, Entry>, isDirty: bool, nodes': map<Bytes, Entry>, isDirty': bool,
                  data: map<Bytes, Bytes>) {
    (Flags(nodes, isDirty) ==> Flags(nodes', isDirty')) && CleanFrom(nodes, nodes', data)
  }

  /** Keys of at most one byte lead to nothing. */
  lemma ShortKeysMiss(nodes: map<Bytes, Entry>, data: map<Bytes, Bytes>, key: Bytes, known: set<Item>, h: Hash)
    requires NoCollisions(known, h) && EntriesFit(nodes, data, known, h) && Sane(data, known, h) && |key| <= 1
    ensures key in ViewOf(nodes, data) ==> ViewOf(nodes, data)[key].GoNil?
  {
    if key in nodes {
      assert EntryFits(key, nodes[key], data, known, h);
    }
  }

  lemma EntryAdded(nodes: map<Bytes, Entry>, key: Bytes, e: Entry, data: map<Bytes, Bytes>, known: set<Item>, h: Hash)
    requires EntriesFit(nodes, data, known, h) && EntryFits(key, e, data, known, h)
    ensures EntriesFit(nodes[key := e], data, known, h)
  {}

  lemma EntrySeen(nodes: map<Bytes, Entry>, data: map<Bytes, Bytes>, key: Bytes, e: Entry)
    ensures ViewOf(nodes[key := e], data) == ViewOf(nodes, data)[key := e.value]
  {}

  lemma ReadFits(data: map<Bytes, Bytes>, key: Bytes, known: set<Item>, h: Hash)
    requires NoCollisions(known, h) && Sane(data, known, h)
    requires |key| <= 1 || (key in data && exists x :: x in known && key == HashOf(x, h))
    ensures EntryFits(key, Entry(ReadIn(data, key), false), data, known, h)
  {
    if |key| > 1 {
      var x :| x in known && key == HashOf(x, h);
      ValueOfKnown(x, known, h);
    }
  }

  /** Remembering what was read says nothing new about the keys that are there. */
  lemma ReadSeen(nodes: map<Bytes, Entry>, data: map<Bytes, Bytes>, key: Bytes)
    requires key !in nodes
    ensures ViewOf(nodes[key := Entry(ReadIn(data, key), false)], data) == ViewOf(nodes, data)[key := ReadIn(data, key)]
    ensures key in ViewOf(nodes, data) ==> ViewOf(nodes, data)[key] == ReadIn(data, key)
  {}

  class Cache {
    const db: Database
    const hash: Hash
    ghost const known: set<Item>
    var nodes: map<Bytes, Entry>
    var isDirty: bool

    ghost predicate Valid()
      reads this, db
    {
      NoCollisions(known, hash) && EntriesFit(nodes, db.data, known, hash) && Sane(db.data, known, hash)
    }

    /** What Get would answer for each key. */
    ghost function Seen(): View
      reads this, db
    {
      ViewOf(nodes, db.data)
    }

    constructor (db: Database, hash: Hash, ghost known: set<Item>)
      ensures this.db == db && this.hash == hash && this.known == known
      ensures nodes == map[] && !isDirty
    {
      this.db, this.hash, this.known := db, hash, known;
      nodes, isDirty := map[], false;
    }

    method Put(v: GoValue) returns (r: GoValue)
      requires Valid() && Whole(v) && (|Encoded(Plain(v))| >= 32 ==> Plain(v) in known)
      modifies this
      ensures Valid()
      ensures |Encoded(Plain(v))| < 32 ==> r == v && nodes == old(nodes) && isDirty == old(isDirty)
      ensures |Encoded(Plain(v))| >= 32 ==> r == GoBytes(HashOf(Plain(v), hash))
      ensures |Encoded(Plain(v))| >= 32 ==> nodes == old(nodes)[HashOf(Plain(v), hash) := Entry(v, true)] && isDirty
      ensures Seen() == if |Encoded(Plain(v))| >= 32 then old(Seen())[HashOf(Plain(v), hash) := v] else old(Seen())
      ensures Later(old(nodes), old(isDirty), nodes, isDirty, db.data)
    {
      var enc := Rlp.Encode(Plain(v));
      if |enc| >= 32 {
        var sha := hash(enc);
        assert v != GoNil;
        EntryAdded(nodes, sha, Entry(v, true), db.data, known, hash);
        EntrySeen(nodes, db.data, sha, Entry(v, true));
        nodes := nodes[sha := Entry(v, true)];
        isDirty := true;
        return GoBytes(sha);
      }
      return v;
    }

    /** The key is that of a known node that is there, or too short for a hash. */
    method Get(key: Bytes) returns (r: GoValue)
      requires Valid() && (|key| <= 1 || IsStored(key, Seen(), known, hash))
      modifies this`nodes
      ensures Valid()
      ensures r == if key in old(Seen()) then old(Seen())[key] else GoNil
      ensures Extends(old(Seen()), Seen()) && (key in old(Seen()) ==> Seen() == old(Seen()))
      ensures nodes == if key in old(nodes) then old(nodes) else old(nodes)[key := Entry(r, false)]
      ensures Later(old(nodes), old(isDirty), nodes, isDirty, db.data)
    {
      if key in nodes {
        return nodes[key].value;
      }
      r := Read(key);
    }

    /** The part of Get behind a miss. */
    method Read(key: Bytes) returns (r: GoValue)
      requires Valid() && key !in nodes && (|key| <= 1 || IsStored(key, Seen(), known, hash))
      modifies this`nodes
      ensures Valid()
      ensures r == if key in old(Seen()) then old(Seen())[key] else GoNil
      ensures Extends(old(Seen()), Seen()) && (key in old(Seen()) ==> Seen() == old(Seen()))
      ensures nodes == old(nodes)[key := Entry(r, false)] && r == ReadIn(db.data, key)
    {
      var data := if key in db.data then db.data[key] else [];
      r := NewValueFromBytes(data);
      ReadFits(db.data, key, known, hash);
      ReadSeen(nodes, db.data, key);
      EntryAdded(nodes, key, Entry(r, false), db.data, known, hash);
      nodes := nodes[key := Entry(r, false)];
    }

    method NewValueFromBytes(data: Bytes) returns (r: GoValue)
      ensures r == ValueOf(data)
    {
      if |data| != 0 {
        var d := Rlp.Decode(data, 0);
        return if d.None? then GoNil else Reloaded(d.value.0);
      }
      return GoNil;
    }

    /** Writes every dirty node to the database, then empties a cache of more than 200 nodes. */
    method Commit()
      requires Valid()
      modifies this, db
      ensures Valid() && !isDirty
      ensures !old(isDirty) ==> nodes == old(nodes) && db.data == old(db.data)
      ensures old(isDirty) ==> db.data == Written(old(nodes), old(db.data), old(nodes).Keys)
      ensures old(isDirty) ==> nodes == if |old(nodes)| > 200 then map[] else Cleaned(old(nodes), old(nodes).Keys)
    {
      if !isDirty {
        return;
      }
      WriteDirty();
      isDirty := false;
      CommitKeepsValid(old(nodes), old(db.data), known, hash);
      assert nodes.Keys == old(nodes).Keys && |nodes| == |nodes.Keys| && |old(nodes)| == |old(nodes).Keys|;
      if |nodes| > 200 {
        nodes := map[];
      }
    }

    /** The loop of Commit. */
    method WriteDirty()
      modifies this`nodes, db
      ensures nodes == Cleaned(old(nodes), old(nodes).Keys)
      ensures db.data == Written(old(nodes), old(db.data), old(nodes).Keys)
    {
      var todo := nodes.Keys;
      ghost var done: set<Bytes> := {};
      while todo != {}
        invariant todo !! done && todo + done == old(nodes).Keys
        invariant nodes == Cleaned(old(nodes), done)
        invariant db.data == Written(old(nodes), old(db.data), done)
        decreases todo
      {
        var k :| k in todo;
        var node := nodes[k];
        CommitStep(old(nodes), old(db.data), done, k);
        if node.dirty {
          var enc := Rlp.Encode(Plain(node.value));
          db.data := db.data[k := enc];
          nodes := nodes[k := Entry(node.value, false)];
        }
        todo, done := todo - {k}, done + {k};
      }
    }

    method Undo()
      requires Valid()
      modifies this
      ensures Valid() && !isDirty
      ensures nodes == map k | k in old(nodes) && !old(nodes)[k].dirty :: old(nodes)[k]
    {
      DropDirty();
      isDirty := false;
    }

    /** The loop of Undo. */
    method DropDirty()
      modifies this`nodes
      ensures nodes == map k | k in old(nodes) && !old(nodes)[k].dirty :: old(nodes)[k]
    {
      var todo := nodes.Keys;
      while todo != {}
        invariant todo <= old(nodes).Keys
        invariant nodes == map k | k in old(nodes) && (k in todo || !old(nodes)[k].dirty) :: old(nodes)[k]
        decreases todo
      {
        var k :| k in todo;
        if nodes[k].dirty {
          nodes := nodes - {k};
        }
        todo := todo - {k};
      }
    }
  }

  lemma CommitStep(nodes: map<Bytes, Entry>, data: map<Bytes, Bytes>, done: set<Bytes>, k: Bytes)
    requires k in nodes && k !in done
    ensures Cleaned(nodes, done + {k}) == Cleaned(nodes, done)[k := Entry(nodes[k].value, false)]
    ensures !nodes[k].dirty ==> Cleaned(nodes, done + {k}) == Cleaned(nodes, done)
    ensures Written(nodes, data, done + {k}) ==
            if nodes[k].dirty then Written(nodes, data, done)[k := Encoded(Plain(nodes[k].value))]
            else Written(nodes, data, done)
  {}

  /** Committing puts encodings under their own hash only, and leaves every node in the database. */
  lemma CommitKeepsValid(nodes: map<Bytes, Entry>, data: map<Bytes, Bytes>, known: set<Item>, h: Hash)
    requires NoCollisions(known, h) && EntriesFit(nodes, data, known, h) && Sane(data, known, h)
    ensures var w := Written(nodes, data, nodes.Keys);
            Sane(w, known, h) && EntriesFit(Cleaned(nodes, nodes.Keys), w, known, h)
  {
    var w := Written(nodes, data, nodes.Keys);
    forall x | x in known && HashOf(x, h) in w ensures w[HashOf(x, h)] == Encoded(x) {
      var k := HashOf(x, h);
      if k in nodes && nodes[k].dirty {
        assert EntryFits(k, nodes[k], data, known, h);
        SameHashSameItem(x, Plain(nodes[k].value), known, h);
      }
    }
    forall k | k in w ensures |k| > 1 {
      if k in nodes && nodes[k].dirty {
        assert EntryFits(k, nodes[k], data, known, h);
      }
    }
    forall k | k in nodes ensures EntryFits(k, Cleaned(nodes, nodes.Keys)[k], w, known, h) {
      assert EntryFits(k, nodes[k], data, known, h);
    }
  }
}
