/**
 States with nested states (ethchain/state.go): copies, snapshots and reverts.

 A trie is the map it refines, with the map of its last Sync; what TrieObject proves of Update, Get, Sync, Undo and
 Copy is what these do here. An account is the record stored for it.
 */
module States {
  import opened ByteStrings

  type Contents = map<Bytes, Bytes>

  class MapTrie {
    var contents: Contents
    var synced: Contents
    /** Made by Copy: it holds nodes that its own Sync and Undo know nothing about. */
    var copied: bool

    constructor (contents: Contents)
      ensures this.contents == synced == contents && !copied
    {
      this.contents, synced, copied := contents, contents, false;
    }

    function Get(key: Bytes): Bytes
      reads this
    {
      if key in contents then contents[key] else []
    }

    /** The empty value deletes. */
    method Update(key: Bytes, value: Bytes)
      modifies this`contents
      ensures contents == if value == [] then old(contents) - {key} else old(contents)[key := value]
    {
      contents := if value == [] then contents - {key} else contents[key := value];
    }

    method Sync()
      modifies this`synced
      ensures synced == contents
    {
      synced := contents;
    }

    /** On a copy, Undo may drop nodes that were never written: then nothing is claimed of what it reads. */
    method Undo()
      modifies this`contents
      ensures !copied ==> contents == synced
    {
      if copied {
        contents := *;
      } else {
        contents := synced;
      }
    }

    method Copy() returns (t: MapTrie)
      ensures fresh(t) && t.contents == t.synced == contents && t.copied
    {
      t := new MapTrie(contents);
      t.copied := true;
    }
  }

  /** The Go map `states`: a reference, which Revert shares. */
  class Nested {
    var at: map<Bytes, State>

    constructor ()
      ensures at == map[]
    {
      at := map[];
    }
  }

  /** Everything lookups can tell of a state. */
  datatype View = View(contents: Contents, nested: map<Bytes, View>)

  /** States that have nothing in common, and all their objects. */
  ghost predicate Family(at: map<Bytes, State>, repr: set<object>)
    reads at.Values, set a, o | a in at && o in at[a].Repr :: o
  {
    && (forall a :: a in at ==> at[a].Repr <= repr && at[a].Valid())
    && (forall a, b :: a in at && b in at && a != b ==> at[a].Repr !! at[b].Repr)
  }

  /** They look like `m`, and so does all they were last synced to. */
  ghost predicate FamilyShows(at: map<Bytes, State>, repr: set<object>, m: map<Bytes, View>)
    requires Family(at, repr)
    reads at.Values, repr
  {
    forall a :: a in at ==> a in m && at[a].Lookups() == at[a].SyncedLookups() == m[a]
  }

  /** The copies of the nested states under the keys in `done`. */
  ghost predicate CopiedKeys(at: map<Bytes, State>, repr: set<object>, m: map<Bytes, View>, done: set<Bytes>)
    reads at.Values, (set a, o | a in at && o in at[a].Repr :: o), repr
  {
    Family(at, repr) && FamilyShows(at, repr, m) && at.Keys == done
  }

  /** What the database holds below the storage root in an account's record. */
  type Storages = Bytes -> Contents

  class State {
    const storages: Storages
    var trie: MapTrie
    var states: Nested
    ghost var Repr: set<object>

    ghost predicate Valid()
      reads this, Repr
      decreases Repr
      ensures Valid() ==> this in Repr
    {
      && this in Repr && trie in Repr && states in Repr
      && (forall a :: a in states.at ==> states.at[a] in Repr && Below(states.at[a]) && states.at[a].Valid())
      && (forall a, b :: a in states.at && b in states.at && a != b ==> states.at[a].Repr !! states.at[b].Repr)
    }

    /** A nested state's objects are among this one's, and not its own. */
    ghost predicate Below(s: State)
      reads this, s
    {
      s.Repr < Repr && this !in s.Repr && trie !in s.Repr && states !in s.Repr
    }

    ghost function Lookups(): View
      requires Valid()
      reads this, Repr
      decreases Repr
    {
      View(trie.contents, map a | a in states.at :: states.at[a].Lookups())
    }

    /** NewState. */
    constructor (trie: MapTrie, storages: Storages)
      ensures Valid() && this.trie == trie && this.storages == storages && fresh(states) && states.at == map[]
      ensures Repr == {this, trie, states}
    {
      this.trie, this.storages := trie, storages;
      states := new Nested();
      new;
      Repr := {this, trie, states};
    }

    /** What lookups would tell after a Reset of tries that were not copied. */
    ghost function SyncedLookups(): View
      requires Valid()
      reads this, Repr
      decreases Repr
    {
      View(trie.synced, map a | a in states.at :: states.at[a].SyncedLookups())
    }

    ghost predicate NoneCopied()
      requires Valid()
      reads this, Repr
      decreases Repr
    {
      !trie.copied && forall a :: a in states.at ==> states.at[a].NoneCopied()
    }

    /** `states[addr] = state`, where there is none. */
    method Nest(addr: Bytes, s: State)
      requires Valid() && s.Valid() && s.Repr !! Repr && addr !in states.at
      modifies this`Repr, states
      ensures Valid() && Repr == old(Repr) + s.Repr
      ensures trie == old(trie) && states == old(states) && states.at == old(states.at)[addr := s]
    {
      states.at := states.at[addr := s];
      Repr := Repr + s.Repr;
    }

    /** The record is stored. */
    method Enter(addr: Bytes, record: Bytes)
      requires Valid()
      modifies trie`contents
      ensures Valid()
      ensures trie.contents == if record == [] then old(trie.contents) - {addr} else old(trie.contents)[addr := record]
    {
      trie.Update(addr, record);
    }

    /** The nested states under `ks` show what `m` says. */
    ghost predicate Shows(m: map<Bytes, View>, ks: set<Bytes>)
      requires Valid()
      reads this, Repr
    {
      forall a :: a in ks ==> a in m && a in states.at && states.at[a].Lookups() == m[a]
    }

    ghost predicate ShowsSynced(m: map<Bytes, View>, ks: set<Bytes>)
      requires Valid()
      reads this, Repr
    {
      forall a :: a in ks ==> a in m && a in states.at && states.at[a].SyncedLookups() == m[a]
    }

    ghost predicate UncopiedAmong(ks: set<Bytes>)
      requires Valid()
      reads this, Repr
    {
      forall a :: a in ks ==> a in states.at && states.at[a].NoneCopied()
    }

    lemma Looks(v: View)
      requires Valid() && v.contents == trie.contents && v.nested.Keys == states.at.Keys
      requires Shows(v.nested, states.at.Keys)
      ensures Lookups() == v
    {
      assert Lookups().nested == v.nested;
    }

    lemma LooksSynced(v: View)
      requires Valid() && v.contents == trie.synced && v.nested.Keys == states.at.Keys
      requires ShowsSynced(v.nested, states.at.Keys)
      ensures SyncedLookups() == v
    {
      assert SyncedLookups().nested == v.nested;
    }

    /** All nested states first, then the trie. */
    method Sync()
      requires Valid()
      modifies Repr
      ensures Valid() && Repr == old(Repr)
      ensures Lookups() == SyncedLookups() == old(Lookups())
      ensures old(NoneCopied()) ==> NoneCopied()
      decreases Repr, 2
    {
      ghost var v := Lookups();
      ghost var uncopied := set a | a in states.at && states.at[a].NoneCopied();
      SyncNested(v.nested, uncopied);
      SyncTrie(v.nested, uncopied);
      Looks(v);
      LooksSynced(v);
    }

    method SyncTrie(ghost m: map<Bytes, View>, ghost uncopied: set<Bytes>)
      requires Valid() && Shows(m, states.at.Keys) && ShowsSynced(m, states.at.Keys) && UncopiedAmong(uncopied)
      modifies trie`synced
      ensures Valid() && trie.synced == trie.contents
      ensures Shows(m, states.at.Keys) && ShowsSynced(m, states.at.Keys) && UncopiedAmong(uncopied)
    {
      trie.Sync();
    }

    method SyncNested(ghost m: map<Bytes, View>, ghost uncopied: set<Bytes>)
      requires Valid() && Shows(m, states.at.Keys) && UncopiedAmong(uncopied)
      modifies Repr - {this, trie, states}
      ensures Valid() && unchanged(this, trie, states)
      ensures Shows(m, states.at.Keys) && ShowsSynced(m, states.at.Keys) && UncopiedAmong(uncopied)
      decreases Repr, 1
    {
      var todo := states.at.Keys;
      while todo != {}
        invariant Valid() && unchanged(this, trie, states) && todo <= states.at.Keys
        invariant Shows(m, states.at.Keys) && ShowsSynced(m, states.at.Keys - todo) && UncopiedAmong(uncopied)
        decreases todo
      {
        var a :| a in todo;
        SyncOne(a, m, states.at.Keys - todo, uncopied);
        todo := todo - {a};
      }
    }

    method SyncOne(a: Bytes, ghost m: map<Bytes, View>, ghost done: set<Bytes>, ghost uncopied: set<Bytes>)
      requires Valid() && a in states.at && Shows(m, states.at.Keys) && ShowsSynced(m, done) && UncopiedAmong(uncopied)
      modifies states.at[a].Repr
      ensures Valid() && unchanged(this, trie, states)
      ensures Shows(m, states.at.Keys) && ShowsSynced(m, done + {a}) && UncopiedAmong(uncopied)
      decreases Repr, 0
    {
      states.at[a].Sync();
    }

    /** The trie first, then all nested states; the nested states stay. */
    method Reset()
      requires Valid()
      modifies Repr
      ensures Valid() && Repr == old(Repr) && SyncedLookups() == old(SyncedLookups())
      ensures old(NoneCopied()) ==> Lookups() == old(SyncedLookups()) && NoneCopied()
      decreases Repr, 2
    {
      ghost var v := SyncedLookups();
      ghost var uncopied := set a | a in states.at && states.at[a].NoneCopied();
      ghost var noneCopied := NoneCopied();
      UndoTrie(v.nested, uncopied);
      ResetNested(v.nested, uncopied);
      if noneCopied {
        Looks(v);
      }
      LooksSynced(v);
    }

    method UndoTrie(ghost m: map<Bytes, View>, ghost uncopied: set<Bytes>)
      requires Valid() && ShowsSynced(m, states.at.Keys) && UncopiedAmong(uncopied)
      modifies trie`contents
      ensures Valid() && (trie.copied || trie.contents == trie.synced)
      ensures ShowsSynced(m, states.at.Keys) && UncopiedAmong(uncopied)
    {
      trie.Undo();
    }

    method ResetNested(ghost m: map<Bytes, View>, ghost uncopied: set<Bytes>)
      requires Valid() && ShowsSynced(m, states.at.Keys) && UncopiedAmong(uncopied)
      modifies Repr - {this, trie, states}
      ensures Valid() && unchanged(this, trie, states)
      ensures ShowsSynced(m, states.at.Keys) && UncopiedAmong(uncopied) && Shows(m, uncopied)
      decreases Repr, 1
    {
      var todo := states.at.Keys;
      while todo != {}
        invariant Valid() && unchanged(this, trie, states) && todo <= states.at.Keys
        invariant ShowsSynced(m, states.at.Keys) && UncopiedAmong(uncopied) && Shows(m, uncopied - todo)
        decreases todo
      {
        var a :| a in todo;
        ResetOne(a, m, uncopied, uncopied - todo);
        todo := todo - {a};
      }
    }

    method ResetOne(a: Bytes, ghost m: map<Bytes, View>, ghost uncopied: set<Bytes>, ghost done: set<Bytes>)
      requires Valid() && a in states.at && a !in done && Shows(m, done)
      requires ShowsSynced(m, states.at.Keys) && UncopiedAmong(uncopied)
      modifies states.at[a].Repr
      ensures Valid() && unchanged(this, trie, states) && ShowsSynced(m, states.at.Keys) && UncopiedAmong(uncopied)
      ensures Shows(m, if a in uncopied then done + {a} else done)
      decreases Repr, 0
    {
      states.at[a].Reset();
    }

    /** Copy, and Snapshot: all tries and all nested states anew. */
    method Copy() returns (c: State)
      requires Valid()
      ensures c.Valid() && fresh(c.Repr) && c.storages == storages
      ensures c.Lookups() == c.SyncedLookups() == old(Lookups())
      decreases Repr, 2
    {
      ghost var v := Lookups();
      var at, repr := CopyNested(v.nested);
      c := Assemble(at, repr, v);
    }

    /** A copy of the trie, with the copies of the nested states. */
    method Assemble(at: map<Bytes, State>, ghost repr: set<object>, ghost v: View) returns (c: State)
      requires v.contents == trie.contents && CopiedKeys(at, repr, v.nested, v.nested.Keys)
      ensures c.Valid() && fresh(c.Repr - repr) && c.storages == storages
      ensures c.Lookups() == c.SyncedLookups() == v
    {
      var t := trie.Copy();
      c := new State.With(t, storages, at, repr, v.nested);
      c.Looks(v);
      c.LooksSynced(v);
    }

    method CopyNested(ghost m: map<Bytes, View>) returns (at: map<Bytes, State>, ghost repr: set<object>)
      requires Valid() && Shows(m, states.at.Keys)
      ensures fresh(repr) && CopiedKeys(at, repr, m, states.at.Keys)
      decreases Repr, 1
    {
      at, repr := map[], {};
      var todo := states.at.Keys;
      while todo != {}
        invariant fresh(repr) && CopiedKeys(at, repr, m, states.at.Keys - todo)
        invariant todo <= states.at.Keys
        decreases todo
      {
        var a :| a in todo;
        at, repr := CopyOne(a, at, repr, m, states.at.Keys - todo);
        OneLess(states.at.Keys, todo, a);
        todo := todo - {a};
      }
    }

    method CopyOne(a: Bytes, at0: map<Bytes, State>, ghost repr0: set<object>, ghost m: map<Bytes, View>,
                   ghost done: set<Bytes>)
      returns (at: map<Bytes, State>, ghost repr: set<object>)
      requires Valid() && Shows(m, states.at.Keys) && a in states.at && a !in done && CopiedKeys(at0, repr0, m, done)
      ensures CopiedKeys(at, repr, m, done + {a}) && fresh(repr - repr0)
      decreases Repr, 0
    {
      var sub := states.at[a].Copy();
      FamilyGrows(at0, repr0, m, a, sub);
      at := at0[a := sub];
      repr := repr0 + sub.Repr;
    }

    /** A state around nested states that are there already. */
    constructor With(trie: MapTrie, storages: Storages, at: map<Bytes, State>, ghost repr: set<object>,
                     ghost m: map<Bytes, View>)
      requires Family(at, repr) && trie !in repr && FamilyShows(at, repr, m)
      ensures Valid() && this.trie == trie && this.storages == storages && states.at == at
      ensures fresh(states) && Repr == {this, trie, states} + repr
      ensures Shows(m, at.Keys) && ShowsSynced(m, at.Keys)
    {
      this.trie, this.storages := trie, storages;
      var box := new Nested();
      states := box;
      Repr := {this, trie, box} + repr;
      new;
      FillWith(at, repr, m);
    }

    method FillWith(at: map<Bytes, State>, ghost repr: set<object>, ghost m: map<Bytes, View>)
      requires Family(at, repr) && FamilyShows(at, repr, m) && Repr == {this, trie, states} + repr
      requires this !in repr && trie !in repr && states !in repr
      modifies states
      ensures Valid() && states.at == at && Shows(m, at.Keys) && ShowsSynced(m, at.Keys)
    {
      states.at := at;
    }

    /** Revert takes over the snapshot's own trie and nested states. */
    method Revert(snapshot: State)
      requires snapshot.Valid() && this !in snapshot.Repr && snapshot.storages == storages
      modifies this
      ensures Valid() && Repr == snapshot.Repr - {snapshot} + {this}
      ensures Lookups() == snapshot.Lookups() && SyncedLookups() == snapshot.SyncedLookups()
      ensures trie == snapshot.trie && states == snapshot.states
    {
      trie := snapshot.trie;
      states := snapshot.states;
      Repr := snapshot.Repr - {snapshot} + {this};
    }

    /** A new trie on the database, and nothing nested. */
    static method Open(contents: Contents, storages: Storages) returns (s: State)
      ensures s.Valid() && fresh(s.Repr) && s.storages == storages && s.NoneCopied()
      ensures s.Lookups() == s.SyncedLookups() == View(contents, map[])
    {
      var t := new MapTrie(contents);
      s := new State(t, storages);
    }

    /** GetStateObject: the record, with the nested state that is there, else a new one below the record's root. */
    method GetStateObject(addr: Bytes) returns (o: StateObject?)
      requires Valid()
      ensures o == null <==> trie.Get(addr) == []
      ensures o != null ==> fresh(o) && o.address == addr && o.record == trie.Get(addr)
      ensures o != null && addr in states.at ==> o.state == states.at[addr]
      ensures o != null && addr !in states.at ==>
        o.state != null && o.state.Valid() && fresh(o.state.Repr) && o !in o.state.Repr && o.state.NoneCopied() &&
        o.state.Lookups() == o.state.SyncedLookups() == View(storages(o.record), map[])
    {
      var data := trie.Get(addr);
      if data == [] {
        return null;
      }
      var s: State;
      if addr in states.at {
        s := states.at[addr];
      } else {
        s := Open(storages(data), storages);
      }
      o := new StateObject(addr, data, s);
    }

    /** The storage word under `key` of the account at `addr`; None without an account, where Go panics. */
    method GetStorage(addr: Bytes, key: Bytes) returns (value: Option<Bytes>)
      requires Valid()
      ensures value == StorageIn(Lookups(), storages, addr, key)
      ensures value == None <==> addr !in trie.contents || trie.contents[addr] == []
      ensures value.Some? && addr in states.at ==> value.value == states.at[addr].trie.Get(key)
      ensures value.Some? && addr !in states.at ==> value.value == ValueIn(storages(trie.contents[addr]), key)
    {
      var o := GetStateObject(addr);
      if o == null {
        return None;
      }
      value := Some(o.state.trie.Get(key));
    }

    /** UpdateStateObject: a nested state that is there already stays, whatever the object carries. */
    method UpdateStateObject(o: StateObject)
      requires Valid() && o !in Repr
      requires o.state != null && o.address !in states.at ==> o.state.Valid() && o.state.Repr !! Repr
      modifies this`Repr, states, trie`contents
      ensures Valid() && trie == old(trie) && states == old(states)
      ensures Repr == old(Repr) + if o.state != null && o.address !in old(states.at) then old(o.state.Repr) else {}
      ensures trie.contents ==
              if o.record == [] then old(trie.contents) - {o.address} else old(trie.contents)[o.address := o.record]
      ensures states.at ==
              if o.state != null && o.address !in old(states.at) then old(states.at)[o.address := o.state]
              else old(states.at)
      ensures forall a :: a in old(states.at) ==> AsBefore(states.at[a])
    {
      if o.state != null && o.address !in states.at {
        Nest(o.address, o.state);
      }
      Enter(o.address, o.record);
      forall a | a in old(states.at)
        ensures AsBefore(states.at[a])
      {
        Untouched(states.at[a]);
      }
    }
  }

  /** The fields of a state object that its record tells, and its own state. */
  class StateObject {
    const address: Bytes
    var record: Bytes
    var state: State?

    constructor (address: Bytes, record: Bytes, state: State?)
      ensures this.address == address && this.record == record && this.state == state
    {
      this.address, this.record, this.state := address, record, state;
    }
  }

  /** A state none of whose objects changed answers as it did. */
  twostate lemma Untouched(s: State)
    requires old(s.Valid()) && forall o :: o in old(s.Repr) ==> unchanged(o)
    ensures AsBefore(s)
  {}

  /** It answers as it did. */
  twostate predicate AsBefore(s: State)
    reads s, s.Repr
  {
    && old(s.Valid()) && s.Valid()
    && s.Lookups() == old(s.Lookups()) && s.SyncedLookups() == old(s.SyncedLookups())
    && s.NoneCopied() == old(s.NoneCopied())
  }

  function ValueIn(c: Contents, key: Bytes): Bytes {
    if key in c then c[key] else []
  }

  /** What a storage lookup answers, by what lookups can tell. */
  function StorageIn(v: View, storages: Storages, addr: Bytes, key: Bytes): Option<Bytes> {
    if ValueIn(v.contents, addr) == [] then None
    else if addr in v.nested then Some(ValueIn(v.nested[addr].contents, key))
    else Some(ValueIn(storages(v.contents[addr]), key))
  }

  lemma OneLess(all: set<Bytes>, todo: set<Bytes>, a: Bytes)
    requires a in todo
    ensures a in all ==> all - todo + {a} == all - (todo - {a})
  {}

  lemma FamilyGrows(at: map<Bytes, State>, repr: set<object>, m: map<Bytes, View>, a: Bytes, sub: State)
    requires Family(at, repr) && FamilyShows(at, repr, m)
    requires a !in at && a in m && sub.Valid() && sub.Repr !! repr && sub.Lookups() == sub.SyncedLookups() == m[a]
    ensures Family(at[a := sub], repr + sub.Repr) && FamilyShows(at[a := sub], repr + sub.Repr, m)
  {
    FamilyAdds(at, repr, a, sub);
  }

  lemma FamilyAdds(at: map<Bytes, State>, repr: set<object>, a: Bytes, sub: State)
    requires Family(at, repr) && a !in at && sub.Valid() && sub.Repr !! repr
    ensures Family(at[a := sub], repr + sub.Repr)
  {}
}
