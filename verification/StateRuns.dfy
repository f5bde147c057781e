/**
 Runs of operations on a state (ethchain/state.go): what every lookup answers behind them, and what a snapshot taken
 before them is good for.
 */
module StateRuns {
  import opened ByteStrings
  import opened States

  /**
   What may happen between a snapshot and its revert: UpdateStateObject of an object without a state or with one of its
   own; SetStorage on the object that is looked up, with or without an update of it; Sync; Reset; and an inner call with
   its own snapshot.
   */
  datatype Op =
    | Put(addr: Bytes, record: Bytes, own: Option<Contents>)
    | Store(addr: Bytes, key: Bytes, value: Bytes, update: Option<Bytes>)
    | Syncing
    | Resetting
    | Inner(ops: seq<Op>, fails: bool)

  /** All that lookups tell now, and would at the last Sync; `plain` when no trie is a copy. */
  datatype Known = Known(now: View, kept: View, plain: bool)

  ghost predicate Tells(s: State, k: Known)
    reads s, s.Repr
  {
    s.Valid() && s.Lookups() == k.now && s.SyncedLookups() == k.kept && (k.plain ==> s.NoneCopied())
  }

  /** The empty value deletes. */
  function Written(c: Contents, key: Bytes, value: Bytes): Contents {
    if value == [] then c - {key} else c[key := value]
  }

  /** A state without nested ones, on a trie that was opened on `kept` and now holds `now`. */
  function Opened(now: Contents, kept: Contents): Known {
    Known(View(now, map[]), View(kept, map[]), true)
  }

  function NestedIn(v: View, addr: Bytes, own: View): View {
    if addr in v.nested then v else View(v.contents, v.nested[addr := own])
  }

  /** Behind UpdateStateObject. */
  function Updated(k: Known, addr: Bytes, record: Bytes, own: Option<Known>): Known {
    var now := if own.Some? then NestedIn(k.now, addr, own.value.now) else k.now;
    var kept := if own.Some? then NestedIn(k.kept, addr, own.value.kept) else k.kept;
    Known(View(Written(now.contents, addr, record), now.nested), kept, k.plain)
  }

  /** A write into the trie. */
  function WrittenIn(k: Known, key: Bytes, value: Bytes): Known {
    k.(now := View(Written(k.now.contents, key, value), k.now.nested))
  }

  /** A write into the nested state at `addr`. */
  function NestedWrite(v: View, addr: Bytes, key: Bytes, value: Bytes): View
    requires addr in v.nested
  {
    var own := v.nested[addr];
    View(v.contents, v.nested[addr := View(Written(own.contents, key, value), own.nested)])
  }

  function Stored(k: Known, addr: Bytes, key: Bytes, value: Bytes, update: Option<Bytes>, storages: Storages): Known {
    var record := ValueIn(k.now.contents, addr);
    if record == [] then k
    else if addr in k.now.nested then
      var j := k.(now := NestedWrite(k.now, addr, key, value));
      if update.Some? then Updated(j, addr, update.value, None) else j
    else if update.Some? then
      Updated(k, addr, update.value, Some(Opened(Written(storages(record), key, value), storages(record))))
    else k
  }

  /** What is known behind an operation; None behind a Reset of tries some of which may be copies. */
  function After(k: Known, op: Op, storages: Storages): Option<Known>
    decreases op
  {
    match op
    case Put(addr, record, own) =>
      Some(Updated(k, addr, record, if own.Some? then Some(Opened(own.value, own.value)) else None))
    case Store(addr, key, value, update) => Some(Stored(k, addr, key, value, update, storages))
    case Syncing => Some(k.(kept := k.now))
    case Resetting => if k.plain then Some(k.(now := k.kept)) else None
    case Inner(ops, fails) => if fails then Some(Known(k.now, k.now, false)) else AfterAll(k, ops, storages)
  }

  function AfterAll(k: Known, ops: seq<Op>, storages: Storages): Option<Known>
    decreases ops
  {
    if ops == [] then Some(k) else
      var before := AfterAll(k, ops[..|ops| - 1], storages);
      if before.None? then None else After(before.value, ops[|ops| - 1], storages)
  }

  // ---------- Operations on the objects ----------

  lemma Telling(s: State, k: Known)
    requires s.Valid() && k.now.contents == s.trie.contents && k.kept.contents == s.trie.synced
    requires k.now.nested.Keys == k.kept.nested.Keys == s.states.at.Keys
    requires s.Shows(k.now.nested, s.states.at.Keys) && s.ShowsSynced(k.kept.nested, s.states.at.Keys)
    requires k.plain ==> !s.trie.copied && s.UncopiedAmong(s.states.at.Keys)
    ensures Tells(s, k)
  {
    s.Looks(k.now);
    s.LooksSynced(k.kept);
  }

  method UpdateBare(s: State, o: StateObject, ghost k: Known)
    requires Tells(s, k) && o !in s.Repr && (o.state != null ==> o.address in s.states.at)
    modifies s`Repr, s.states, s.trie`contents
    ensures Tells(s, Updated(k, o.address, o.record, None)) && s.Repr == old(s.Repr)
  {
    s.UpdateStateObject(o);
    ghost var j := Updated(k, o.address, o.record, None);
    Telling(s, j);
  }

  method UpdateOwning(s: State, o: StateObject, ghost k: Known, ghost own: Known)
    requires Tells(s, k) && o !in s.Repr && o.state != null && Tells(o.state, own) && o.state.Repr !! s.Repr
    requires own.plain && o.address !in s.states.at
    modifies s`Repr, s.states, s.trie`contents
    ensures Tells(s, Updated(k, o.address, o.record, Some(own))) && s.Repr == old(s.Repr + o.state.Repr)
  {
    s.UpdateStateObject(o);
    Untouched(o.state);
    ghost var j := Updated(k, o.address, o.record, Some(own));
    Telling(s, j);
  }

  method PutObject(s: State, addr: Bytes, record: Bytes, own: Option<Contents>, ghost k: Known)
    requires Tells(s, k)
    modifies s.Repr
    ensures Tells(s, After(k, Put(addr, record, own), s.storages).value) && fresh(s.Repr - old(s.Repr))
  {
    var state: State? := null;
    if own.Some? {
      state := State.Open(own.value, s.storages);
    }
    var o := new StateObject(addr, record, state);
    if own.None? || addr in s.states.at {
      UpdateBare(s, o, k);
    } else {
      UpdateOwning(s, o, k, Opened(own.value, own.value));
    }
  }

  /** SetStorage writes into the trie of the object's state. */
  method WriteIn(s: State, key: Bytes, value: Bytes, ghost k: Known)
    requires Tells(s, k)
    modifies s.trie`contents
    ensures Tells(s, WrittenIn(k, key, value))
  {
    s.trie.Update(key, value);
    forall a | a in s.states.at
      ensures AsBefore(s.states.at[a])
    {
      Untouched(s.states.at[a]);
    }
    ghost var j := WrittenIn(k, key, value);
    Telling(s, j);
  }

  /** What is known of a state. */
  ghost function Knowing(s: State): (k: Known)
    requires s.Valid()
    reads s, s.Repr
    ensures Tells(s, k)
  {
    Known(s.Lookups(), s.SyncedLookups(), s.NoneCopied())
  }

  /** And so into the nested state that it is; the others answer as they did. */
  method WriteBelow(s: State, addr: Bytes, key: Bytes, value: Bytes)
    requires s.Valid() && addr in s.states.at
    modifies s.states.at[addr].trie`contents
    ensures s.Valid() && Tells(s.states.at[addr], WrittenIn(old(Knowing(s.states.at[addr])), key, value))
    ensures forall a :: a in s.states.at && a != addr ==> AsBefore(s.states.at[a])
  {
    WriteIn(s.states.at[addr], key, value, Knowing(s.states.at[addr]));
    forall a | a in s.states.at && a != addr
      ensures AsBefore(s.states.at[a])
    {
      Untouched(s.states.at[a]);
    }
  }

  method WriteAmong(s: State, addr: Bytes, key: Bytes, value: Bytes, ghost k: Known)
    requires Tells(s, k) && addr in s.states.at
    modifies s.states.at[addr].trie`contents
    ensures s.Valid() && s.Shows(NestedWrite(k.now, addr, key, value).nested, s.states.at.Keys)
    ensures s.ShowsSynced(k.kept.nested, s.states.at.Keys) && (k.plain ==> s.UncopiedAmong(s.states.at.Keys))
  {
    WriteBelow(s, addr, key, value);
  }

  method WriteNested(s: State, addr: Bytes, key: Bytes, value: Bytes, ghost k: Known)
    requires Tells(s, k) && addr in s.states.at
    modifies s.states.at[addr].trie`contents
    ensures Tells(s, k.(now := NestedWrite(k.now, addr, key, value)))
  {
    WriteAmong(s, addr, key, value, k);
    Telling(s, k.(now := NestedWrite(k.now, addr, key, value)));
  }

  method StoreCached(s: State, o: StateObject, key: Bytes, value: Bytes, update: Option<Bytes>, ghost k: Known)
    requires Tells(s, k) && o !in s.Repr && o.address in s.states.at && o.state == s.states.at[o.address]
    requires ValueIn(k.now.contents, o.address) != []
    modifies s.Repr, o
    ensures Tells(s, Stored(k, o.address, key, value, update, s.storages)) && s.Repr == old(s.Repr)
  {
    assert s.Below(s.states.at[o.address]) && s.states.at[o.address].Valid();
    WriteNested(s, o.address, key, value, k);
    if update.Some? {
      o.record := update.value;
      UpdateBare(s, o, k.(now := NestedWrite(k.now, o.address, key, value)));
    }
  }

  method StoreOwn(s: State, o: StateObject, key: Bytes, value: Bytes, update: Option<Bytes>, ghost k: Known)
    requires Tells(s, k) && o !in s.Repr && o.address !in s.states.at
    requires o.record == ValueIn(k.now.contents, o.address) != []
    requires o.state != null && o.state.Repr !! s.Repr && o !in o.state.Repr
    requires Tells(o.state, Opened(s.storages(o.record), s.storages(o.record)))
    modifies s.Repr, o, o.state.trie
    ensures Tells(s, Stored(k, o.address, key, value, update, s.storages)) && s.Repr <= old(s.Repr + o.state.Repr)
  {
    ghost var words := s.storages(o.record);
    WriteIn(o.state, key, value, Opened(words, words));
    if update.Some? {
      o.record := update.value;
      UpdateOwning(s, o, k, Opened(Written(words, key, value), words));
    }
  }

  /** SetStorage on the object that is looked up, and its update. */
  method StoreIn(s: State, addr: Bytes, key: Bytes, value: Bytes, update: Option<Bytes>, ghost k: Known)
    requires Tells(s, k)
    modifies s.Repr
    ensures Tells(s, Stored(k, addr, key, value, update, s.storages)) && fresh(s.Repr - old(s.Repr))
  {
    var o := s.GetStateObject(addr);
    if o == null {
      return;
    }
    if addr in s.states.at {
      StoreCached(s, o, key, value, update, k);
    } else {
      StoreOwn(s, o, key, value, update, k);
    }
  }

  method Perform(s: State, op: Op, ghost k: Known)
    requires Tells(s, k)
    modifies s.Repr
    ensures s.Valid() && fresh(s.Repr - old(s.Repr))
    ensures After(k, op, s.storages).Some? ==> Tells(s, After(k, op, s.storages).value)
    decreases op
  {
    match op
    case Put(addr, record, own) => PutObject(s, addr, record, own, k);
    case Store(addr, key, value, update) => StoreIn(s, addr, key, value, update, k);
    case Syncing => s.Sync();
    case Resetting => s.Reset();
    case Inner(ops, fails) => Guarded(s, ops, fails, k);
  }

  /**
   A snapshot, any run of operations, and a revert if it fails: then every lookup answers as before. Otherwise they are
   those of the run.
   */
  method Guarded(s: State, ops: seq<Op>, fails: bool, ghost k: Known)
    requires Tells(s, k)
    modifies s.Repr
    ensures s.Valid() && fresh(s.Repr - old(s.Repr))
    ensures fails ==> s.Lookups() == s.SyncedLookups() == old(s.Lookups())
    ensures !fails && AfterAll(k, ops, s.storages).Some? ==> Tells(s, AfterAll(k, ops, s.storages).value)
    decreases ops
  {
    var snapshot := s.Copy();
    PerformAll(s, ops, snapshot, k);
    if fails {
      s.Revert(snapshot);
    }
  }

  /** Nothing that is done to a state reaches a snapshot of it, and the state answers as the operations say. */
  method PerformAll(s: State, ops: seq<Op>, snapshot: State, ghost k: Known)
    requires Tells(s, k) && snapshot.Valid() && s.Repr !! snapshot.Repr
    modifies s.Repr
    ensures s.Valid() && fresh(s.Repr - old(s.Repr)) && s.Repr !! snapshot.Repr
    ensures AsBefore(snapshot) && snapshot.Repr == old(snapshot.Repr)
    ensures AfterAll(k, ops, s.storages).Some? ==> Tells(s, AfterAll(k, ops, s.storages).value)
    decreases ops, 0
  {
    ghost var j := Some(k);
    for i := 0 to |ops|
      invariant s.Valid() && fresh(s.Repr - old(s.Repr)) && s.Repr !! snapshot.Repr
      invariant AsBefore(snapshot) && snapshot.Repr == old(snapshot.Repr)
      invariant j == AfterAll(k, ops[..i], s.storages) && (j.Some? ==> Tells(s, j.value))
    {
      Perform(s, ops[i], if j.Some? then j.value else Knowing(s));
      j := if j.Some? then After(j.value, ops[i], s.storages) else None;
      assert ops[..i + 1][..i] == ops[..i];
    }
    assert ops[..|ops|] == ops;
  }

  /** Revert shares the snapshot's trie: what is put afterwards is in the snapshot too, so a snapshot serves once. */
  method SnapshotServesOnce(s: State, addr: Bytes, record: Bytes) returns (snapshot: State)
    requires s.Valid() && record != []
    modifies s
    ensures s.Valid() && snapshot.trie == s.trie && snapshot.trie.contents == old(s.trie.contents)[addr := record]
  {
    snapshot := s.Copy();
    s.Revert(snapshot);
    var o := new StateObject(addr, record, null);
    s.UpdateStateObject(o);
  }

  /** A snapshot and its revert: the same lookups, from new tries and new nested states. */
  method SnapshotAndRevert(s: State)
    requires s.Valid()
    modifies s
    ensures s.Valid() && fresh(s.Repr - {s}) && s.Lookups() == old(s.Lookups())
  {
    var snapshot := s.Copy();
    s.Revert(snapshot);
  }

  /** An object looked up before a revert writes to the state that was left behind: no lookup sees it. */
  method StaleObject(s: State, addr: Bytes, key: Bytes, value: Bytes)
    requires s.Valid() && addr in s.states.at && s.trie.Get(addr) != []
    modifies s, s.states.at[addr].trie
    ensures s.Valid() && s.Lookups() == old(s.Lookups())
  {
    var o := s.GetStateObject(addr);
    var t := o.state.trie;
    SnapshotAndRevert(s);
    WriteApart(s, t, key, value);
  }

  method WriteApart(s: State, t: MapTrie, key: Bytes, value: Bytes)
    requires s.Valid() && t !in s.Repr
    modifies t
    ensures s.Valid() && s.Lookups() == old(s.Lookups())
  {
    t.Update(key, value);
  }

  // ---------- What the operations do to lookups ----------

  /** The record that is stored for an account. */
  function RecordIn(v: View, addr: Bytes): Bytes {
    ValueIn(v.contents, addr)
  }

  /**
   A storage write is answered from then on, and nothing else answers differently, if the account has a nested state or
   is updated; otherwise the write is lost with the object. An update stores the new record, and the empty one deletes.
   */
  lemma StoreAnswers(k: Known, addr: Bytes, key: Bytes, value: Bytes, update: Option<Bytes>, storages: Storages,
                     a: Bytes, x: Bytes)
    requires RecordIn(k.now, addr) != []
    ensures After(k, Store(addr, key, value, update), storages).Some?
    ensures var v, w := k.now, After(k, Store(addr, key, value, update), storages).value.now;
            && RecordIn(w, a) == (if a == addr && update.Some? then update.value else RecordIn(v, a))
            && (a != addr ==> StorageIn(w, storages, a, x) == StorageIn(v, storages, a, x))
            && (update == Some([]) ==> StorageIn(w, storages, addr, x) == None)
            && (update != Some([]) && (addr in v.nested || update.Some?) ==>
                  StorageIn(w, storages, addr, x) == if x == key then Some(value) else StorageIn(v, storages, addr, x))
            && (addr !in v.nested && update.None? ==> w == v)
  {}

  /** Without an account nothing is written. */
  lemma StoreNowhere(k: Known, addr: Bytes, key: Bytes, value: Bytes, update: Option<Bytes>, storages: Storages)
    requires RecordIn(k.now, addr) == []
    ensures After(k, Store(addr, key, value, update), storages) == Some(k)
  {}

  /**
   An update stores the record; the words of its account are those of the nested state that is there, else of the
   object's own, else those below the record's root.
   */
  lemma PutAnswers(k: Known, addr: Bytes, record: Bytes, own: Option<Contents>, storages: Storages, a: Bytes, x: Bytes)
    ensures After(k, Put(addr, record, own), storages).Some?
    ensures var v, w := k.now, After(k, Put(addr, record, own), storages).value.now;
            && RecordIn(w, a) == (if a == addr then record else RecordIn(v, a))
            && (a != addr ==> StorageIn(w, storages, a, x) == StorageIn(v, storages, a, x))
            && (record == [] ==> StorageIn(w, storages, addr, x) == None)
            && (record != [] ==>
                  StorageIn(w, storages, addr, x) ==
                  Some(ValueIn(if addr in v.nested then v.nested[addr].contents
                               else if own.Some? then own.value
                               else storages(record), x)))
  {}

  /** An inner call that fails and a Sync change no lookup; a Reset of what was just synced does not either. */
  lemma NothingChanges(k: Known, ops: seq<Op>, storages: Storages)
    ensures After(k, Inner(ops, true), storages).Some? && After(k, Inner(ops, true), storages).value.now == k.now
    ensures After(k, Syncing, storages).Some? && After(k, Syncing, storages).value.now == k.now
    ensures k.plain ==> AfterAll(k, [Syncing] + [Resetting], storages) == Some(k.(kept := k.now))
  {
    var s: seq<Op> := [Syncing];
    assert (s + [Resetting])[..1] == s && s[..0] == [];
    assert AfterAll(k, s[..0], storages) == Some(k);
    assert AfterAll(k, s, storages) == Some(k.(kept := k.now));
  }

  /** A run of one operation, by itself or in an inner call. */
  lemma RunOfOne(k: Known, op: Op, storages: Storages)
    ensures AfterAll(k, [op], storages) == After(k, Inner([op], false), storages) == After(k, op, storages)
  {
    var one := [op];
    assert one[..|one| - 1] == [] && AfterAll(k, one[..|one| - 1], storages) == Some(k);
  }

  /** A run in two parts. */
  lemma {:induction false} RunsCompose(k: Known, first: seq<Op>, more: seq<Op>, storages: Storages)
    ensures AfterAll(k, first + more, storages) ==
            if AfterAll(k, first, storages).None? then None
            else AfterAll(AfterAll(k, first, storages).value, more, storages)
    decreases |more|
  {
    if more == [] {
      assert first + more == first;
    } else {
      var n := |more| - 1;
      RunsCompose(k, first, more[..n], storages);
      assert (first + more)[..|first| + n] == first + more[..n];
    }
  }

  /** No operation of the run is about the account, and none is a Reset. */
  predicate LeavesAlone(op: Op, addr: Bytes)
    decreases op
  {
    match op
    case Put(a, _, _) => a != addr
    case Store(a, _, _, _) => a != addr
    case Syncing => true
    case Resetting => false
    case Inner(ops, fails) => fails || AllLeaveAlone(ops, addr)
  }

  predicate AllLeaveAlone(ops: seq<Op>, addr: Bytes)
    decreases ops
  {
    forall i :: 0 <= i < |ops| ==> LeavesAlone(ops[i], addr)
  }

  /** An account that a run is not about keeps its record and every word, whatever the run does to others. */
  lemma {:induction false} OthersAnswer(k: Known, ops: seq<Op>, storages: Storages, addr: Bytes, x: Bytes)
    requires AllLeaveAlone(ops, addr)
    ensures AfterAll(k, ops, storages).Some?
    ensures var w := AfterAll(k, ops, storages).value.now;
            && RecordIn(w, addr) == RecordIn(k.now, addr)
            && StorageIn(w, storages, addr, x) == StorageIn(k.now, storages, addr, x)
    decreases ops
  {
    if ops != [] {
      var front, op := ops[..|ops| - 1], ops[|ops| - 1];
      OthersAnswer(k, front, storages, addr, x);
      var j := AfterAll(k, front, storages).value;
      match op
      case Put(a, record, own) => PutAnswers(j, a, record, own, storages, addr, x);
      case Store(a, key, value, update) =>
        if RecordIn(j.now, a) != [] {
          StoreAnswers(j, a, key, value, update, storages, addr, x);
        }
      case Syncing =>
      case Inner(inner, fails) =>
        if !fails {
          OthersAnswer(j, inner, storages, addr, x);
        }
    }
  }

  // ---------- What a Reset brings back ----------

  /** Runs without Sync and without inner calls. */
  predicate Unsynced(ops: seq<Op>) {
    forall i :: 0 <= i < |ops| ==> ops[i].Put? || ops[i].Store? || ops[i].Resetting?
  }

  /** What is kept stays, except that more states may be nested. */
  predicate Grown(k: Known, j: Known) {
    && j.kept.contents == k.kept.contents && j.plain == k.plain
    && forall a :: a in k.kept.nested ==> a in j.kept.nested && j.kept.nested[a] == k.kept.nested[a]
  }

  lemma {:induction false} KeptGrows(k: Known, ops: seq<Op>, storages: Storages)
    requires k.plain && Unsynced(ops)
    ensures AfterAll(k, ops, storages).Some? && Grown(k, AfterAll(k, ops, storages).value)
  {
    if ops != [] {
      KeptGrows(k, ops[..|ops| - 1], storages);
    }
  }

  /** A nested state that is kept has the words below its account's record. */
  ghost predicate Matches(v: View, storages: Storages, a: Bytes) {
    && a in v.nested
    && forall x: Bytes :: ValueIn(v.nested[a].contents, x) == ValueIn(storages(RecordIn(v, a)), x)
  }

  /**
   A Reset brings back every word of an account as it was at the last Sync if and only if the account was nested then,
   or has not been since, or had no record, or what was nested has the words below that record: what is nested stays.
   */
  lemma ResetExact(k: Known, ops: seq<Op>, storages: Storages, a: Bytes)
    requires k.plain && Unsynced(ops)
    ensures var all := ops + [Resetting]; AfterAll(k, all, storages).Some?
    ensures var w := AfterAll(k, ops + [Resetting], storages).value.now;
            && RecordIn(w, a) == RecordIn(k.kept, a)
            && ((forall x: Bytes :: StorageIn(w, storages, a, x) == StorageIn(k.kept, storages, a, x)) <==>
                (a in k.kept.nested || a !in w.nested || RecordIn(k.kept, a) == [] || Matches(w, storages, a)))
  {
    var all := ops + [Resetting];
    assert all[..|all| - 1] == ops && all[|all| - 1] == Resetting;
    assert AfterAll(k, all, storages) == After(AfterAll(k, ops, storages).value, Resetting, storages) by {
      KeptGrows(k, ops, storages);
    }
    KeptGrows(k, ops, storages);
    var w := AfterAll(k, all, storages).value.now;
    ResetWords(k.kept, w, storages, a);
  }

  lemma ResetWords(v: View, w: View, storages: Storages, a: Bytes)
    requires w.contents == v.contents
    requires a in v.nested ==> a in w.nested && w.nested[a] == v.nested[a]
    ensures (forall x: Bytes :: StorageIn(w, storages, a, x) == StorageIn(v, storages, a, x)) <==>
            (a in v.nested || a !in w.nested || RecordIn(v, a) == [] || Matches(w, storages, a))
  {
    if a !in v.nested && a in w.nested && RecordIn(v, a) != [] {
      forall x: Bytes
        ensures StorageIn(w, storages, a, x) == StorageIn(v, storages, a, x) <==>
                ValueIn(w.nested[a].contents, x) == ValueIn(storages(RecordIn(w, a)), x)
      {}
    }
  }

  /** Storage writes nest nothing but states opened below the records of the last Sync. */
  ghost predicate Pristine(k: Known, j: Known, storages: Storages) {
    && Grown(k, j) && j.now.nested.Keys == j.kept.nested.Keys
    && (forall a :: a !in j.now.nested ==> RecordIn(j.now, a) == RecordIn(k.kept, a))
    && (forall a :: a in j.kept.nested && a !in k.kept.nested ==>
          j.kept.nested[a].contents == storages(RecordIn(k.kept, a)))
  }

  lemma {:induction false} StoresPristine(k: Known, ops: seq<Op>, storages: Storages)
    requires k.plain && k.now == k.kept && forall i :: 0 <= i < |ops| ==> ops[i].Store?
    ensures AfterAll(k, ops, storages).Some? && Pristine(k, AfterAll(k, ops, storages).value, storages)
  {
    if ops != [] {
      var front := ops[..|ops| - 1];
      StoresPristine(k, front, storages);
      StorePristine(k, AfterAll(k, front, storages).value, ops[|ops| - 1], storages);
    }
  }

  lemma StorePristine(k: Known, j: Known, op: Op, storages: Storages)
    requires op.Store? && Pristine(k, j, storages)
    ensures After(j, op, storages).Some? && Pristine(k, After(j, op, storages).value, storages)
  {}

  /** Behind a Sync, a Reset takes back any storage writes and their updates: no word and no record is another. */
  lemma StoresReset(k: Known, ops: seq<Op>, storages: Storages, a: Bytes, x: Bytes)
    requires k.plain && k.now == k.kept && forall i :: 0 <= i < |ops| ==> ops[i].Store?
    ensures AfterAll(k, ops + [Resetting], storages).Some?
    ensures var w := AfterAll(k, ops + [Resetting], storages).value.now;
            RecordIn(w, a) == RecordIn(k.now, a) && StorageIn(w, storages, a, x) == StorageIn(k.now, storages, a, x)
  {
    StoresPristine(k, ops, storages);
    assert (ops + [Resetting])[..|ops|] == ops;
    ResetExact(k, ops, storages, a);
  }

  /** But an update with a state of its own stays nested behind a Reset, and its words are answered. */
  lemma ResetKeepsNested(storages: Storages)
    ensures var v := View(map[[1] := [7]], map[]);
            var put := Put([1], [8], Some(map[[2] := [5]]));
            && (storages([7]) == map[] ==> StorageIn(v, storages, [1], [2]) == Some([]))
            && AfterAll(Known(v, v, true), [put] + [Resetting], storages).Some?
            && StorageIn(AfterAll(Known(v, v, true), [put] + [Resetting], storages).value.now, storages, [1], [2])
               == Some([5])
  {
    var v := View(map[[1] := [7]], map[]);
    var k := Known(v, v, true);
    var put := Put([1], [8], Some(map[[2] := [5]]));
    var one := [put];
    assert (one + [Resetting])[..1] == one && one[..0] == [];
    assert AfterAll(k, one[..0], storages) == Some(k);
    assert AfterAll(k, one, storages) == After(k, put, storages);
  }
}