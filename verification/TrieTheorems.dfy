/**
 What the tree of PatriciaTree promises over whole runs: one canonical tree per content, and independence of the
 history.
 */
module TrieTheorems {
  import opened ByteStrings
  import opened HexPrefix
  import opened Slices
  import opened PatriciaTree

  // ---------- One canonical tree per content ----------

  ghost predicate SameLookups(a: Node, b: Node)
    requires Shaped(a) && Shaped(b)
  {
    forall key :: IsTerminated(key) ==> Lookup(a, key) == Lookup(b, key)
  }

  /** Two canonical trees that answer every lookup alike are the same tree. */
  lemma {:induction false} Unique(a: Node, b: Node)
    requires Canonical(a) && Canonical(b) && Shaped(a) && Shaped(b) && SameLookups(a, b)
    ensures a == b
    decreases a, 0
  {
    if a.Empty? || b.Empty? {
      if !a.Empty? {
        HoldsAKey(a);
      } else if !b.Empty? {
        HoldsAKey(b);
      }
    } else if a.Full? && b.Full? {
      UniqueBranch(a.slots, b.slots);
    } else if a.Short? && b.Short? {
      SamePath(a, b);
      SamePath(b, a);
      UniqueBelow(a.key, a.child, b.child);
    } else if a.Full? {
      BranchIsNotShort(a.slots, b);
    } else {
      BranchIsNotShort(b.slots, a);
    }
  }

  lemma HoldsAKey(t: Node)
    requires Sub(t) && Shaped(t)
    ensures !SameLookups(t, Empty) && !SameLookups(Empty, t)
  {
    var key := SomeKey(t);
    assert Lookup(t, key) != Lookup(Empty, key);
  }

  lemma LookupSlot(s: seq<Node>, key: seq<int>)
    requires IsTerminated(key) && Shaped(Full(s))
    ensures 0 <= key[0] <= 16 && IsRest(key[1..]) && (key[1..] != [] ==> Shaped(s[key[0]]))
    ensures Lookup(Full(s), key) == Lookup(s[key[0]], key[1..])
  {
    HeadOfKey(key);
  }

  lemma Below(s: seq<Node>, i: int, rest: seq<int>) returns (key: seq<int>)
    requires Shaped(Full(s)) && 0 <= i < 16 && IsTerminated(rest)
    ensures key == [i] + rest && IsTerminated(key) && key[1..] == rest
    ensures Lookup(Full(s), key) == Lookup(s[i], rest)
  {
    key := [i] + rest;
    JoinPaths([i], rest);
    assert key[1..] == rest;
    LookupSlot(s, key);
  }

  lemma {:induction false} UniqueBranch(a: seq<Node>, b: seq<Node>)
    requires Sub(Full(a)) && Sub(Full(b)) && Shaped(Full(a)) && Shaped(Full(b)) && SameLookups(Full(a), Full(b))
    ensures a == b
    decreases a, 0
  {
    forall i | 0 <= i < 17 ensures a[i] == b[i] {
      if i == 16 {
        LookupSlot(a, [16]);
        LookupSlot(b, [16]);
        assert Lookup(Full(a), [16]) == Lookup(Full(b), [16]);
      } else {
        forall rest | IsTerminated(rest) ensures Lookup(a[i], rest) == Lookup(b[i], rest) {
          var key := Below(a, i, rest);
          var key' := Below(b, i, rest);
          assert Lookup(Full(a), key) == Lookup(Full(b), key);
        }
        Unique(a[i], b[i]);
      }
    }
  }

  lemma {:induction false} UniqueBelow(k: seq<int>, a: Node, b: Node)
    requires Sub(Short(k, a)) && Sub(Short(k, b)) && Shaped(Short(k, a)) && Shaped(Short(k, b))
    requires SameLookups(Short(k, a), Short(k, b))
    ensures a == b
    decreases a, 1
  {
    if IsTerminated(k) {
      LookupAttach(k, a, k);
      LookupAttach(k, b, k);
      assert Lookup(Short(k, a), k) == Lookup(Short(k, b), k);
    } else {
      forall rest | IsTerminated(rest) ensures Lookup(a, rest) == Lookup(b, rest) {
        var key := k + rest;
        JoinPaths(k, rest);
        assert key[|k|..] == rest;
        LookupAttach(k, a, key);
        LookupAttach(k, b, key);
        assert Lookup(Short(k, a), key) == Lookup(Short(k, b), key);
      }
      Unique(a, b);
    }
  }

  /** A branch holds two keys with different first nibbles, a two-slot node does not. */
  lemma BranchIsNotShort(s: seq<Node>, b: Node)
    requires Sub(Full(s)) && Sub(b) && b.Short? && Shaped(Full(s)) && Shaped(b)
    ensures !SameLookups(Full(s), b)
  {
    var i, j :| 0 <= i < j < 17 && Occupied(s, i) && Occupied(s, j);
    var key := SomeKeyAt(s, if i == b.key[0] then j else i);
    LookupAttach(b.key, b.child, key);
    assert Lookup(Full(s), key) != Lookup(b, key);
  }

  /** Of two two-slot nodes that answer alike, the path of one begins the path of the other. */
  lemma SamePath(a: Node, b: Node)
    requires Sub(a) && Sub(b) && a.Short? && b.Short? && Shaped(a) && Shaped(b) && SameLookups(a, b)
    ensures b.key <= a.key
  {
    var key := SomeKeyOff(a, b.key);
    LookupAttach(a.key, a.child, key);
    LookupAttach(b.key, b.child, key);
    assert Lookup(a, key) == Lookup(b, key);
  }

  /** A key of `a` that does not begin with `k`, unless the path of `a` does. */
  lemma SomeKeyOff(a: Node, k: seq<int>) returns (key: seq<int>)
    requires Sub(a) && a.Short? && IsPath(k)
    ensures IsTerminated(key) && Shaped(a) && Lookup(a, key) != []
    ensures k <= key ==> k <= a.key
  {
    SubIsShaped(a);
    if IsTerminated(a.key) {
      key := a.key;
      LookupAttach(a.key, a.child, key);
    } else {
      var s := a.child.slots;
      var i, j :| 0 <= i < j < 17 && Occupied(s, i) && Occupied(s, j);
      var n := |a.key|;
      var rest := SomeKeyAt(s, if n < |k| && k[n] == i then j else i);
      key := a.key + rest;
      JoinPaths(a.key, rest);
      assert key[n..] == rest;
      LookupAttach(a.key, a.child, key);
      assert n < |k| ==> k[n] != key[n];
      assert a.key == key[..n];
    }
  }

  // ---------- Runs of updates ----------

  /** Update: an empty value deletes the key. */
  datatype Op = Update(key: Bytes, value: Bytes)

  function Step(t: Node, op: Op): (r: Node)
    requires Shaped(t)
    ensures Shaped(r)
  {
    if op.value != [] then
      InsertShaped(t, KeyPath(op.key), op.value);
      Insert(t, KeyPath(op.key), Value(op.value))
    else
      DeleteShaped(t, KeyPath(op.key));
      Delete(t, KeyPath(op.key))
  }

  function Run(ops: seq<Op>): (t: Node)
    ensures Shaped(t)
  {
    if ops == [] then Empty else Step(Run(ops[..|ops| - 1]), ops[|ops| - 1])
  }

  function Contents(ops: seq<Op>): (m: map<Bytes, Bytes>)
    ensures forall k :: k in m ==> m[k] != []
  {
    if ops == [] then map[] else
      var m, last := Contents(ops[..|ops| - 1]), ops[|ops| - 1];
      if last.value != [] then m[last.key := last.value] else m - {last.key}
  }

  function MapGet(m: map<Bytes, Bytes>, key: Bytes): Bytes {
    if key in m then m[key] else []
  }

  /** What a map says about a path: only paths of whole keys lead anywhere. */
  function PathGet(m: map<Bytes, Bytes>, path: seq<int>): Bytes {
    if KeyPath(PathKey(path)) == path then MapGet(m, PathKey(path)) else []
  }

  /** The tree is canonical and answers every lookup as the map does. */
  ghost predicate Holds(t: Node, m: map<Bytes, Bytes>) {
    && Shaped(t) && Canonical(t)
    && forall path :: IsTerminated(path) ==> Lookup(t, path) == PathGet(m, path)
  }

  lemma PathOfKey(path: seq<int>, key: Bytes)
    ensures path == KeyPath(key) <==> KeyPath(PathKey(path)) == path && PathKey(path) == key
  {
    PathKeyInvertsKeyPath(key);
  }

  lemma PathGetUpdate(m: map<Bytes, Bytes>, key: Bytes, v: Bytes, path: seq<int>)
    ensures PathGet(m[key := v], path) == if path == KeyPath(key) then v else PathGet(m, path)
    ensures PathGet(m - {key}, path) == if path == KeyPath(key) then [] else PathGet(m, path)
  {
    var k := PathKey(path);
    PathOfKey(path, key);
    assert MapGet(m[key := v], k) == if k == key then v else MapGet(m, k);
    assert MapGet(m - {key}, k) == if k == key then [] else MapGet(m, k);
  }

  /** Changing one path in the tree and one key in the map. */
  lemma HoldsAfter(t: Node, m: map<Bytes, Bytes>, key: Bytes, v: Bytes, t': Node, m': map<Bytes, Bytes>)
    requires Holds(t, m) && Shaped(t') && Canonical(t')
    requires m' == if v != [] then m[key := v] else m - {key}
    requires forall path :: IsTerminated(path) ==>
               Lookup(t', path) == if path == KeyPath(key) then v else Lookup(t, path)
    ensures Holds(t', m')
  {
    forall path | IsTerminated(path) ensures Lookup(t', path) == PathGet(m', path) {
      PathGetUpdate(m, key, v, path);
    }
  }

  lemma InsertHolds(t: Node, m: map<Bytes, Bytes>, key: Bytes, v: Bytes)
    requires Holds(t, m) && v != []
    ensures Holds(Insert(t, KeyPath(key), Value(v)), m[key := v])
  {
    var k := KeyPath(key);
    InsertCanonical(t, k, v);
    InsertShaped(t, k, v);
    var t' := Insert(t, k, Value(v));
    forall path | IsTerminated(path) ensures Lookup(t', path) == if path == k then v else Lookup(t, path) {
      LookupInsert(t, k, v, path);
    }
    HoldsAfter(t, m, key, v, t', m[key := v]);
  }

  lemma DeleteHolds(t: Node, m: map<Bytes, Bytes>, key: Bytes)
    requires Holds(t, m)
    ensures Holds(Delete(t, KeyPath(key)), m - {key})
  {
    var k := KeyPath(key);
    DeleteCanonical(t, k);
    DeleteShaped(t, k);
    var t' := Delete(t, k);
    forall path | IsTerminated(path) ensures Lookup(t', path) == if path == k then [] else Lookup(t, path) {
      LookupDelete(t, k, path);
    }
    HoldsAfter(t, m, key, [], t', m - {key});
  }

  /** Every run refines a map: its tree is canonical and holds exactly the content of the run. */
  lemma {:induction false} RunHolds(ops: seq<Op>)
    ensures Holds(Run(ops), Contents(ops))
  {
    if ops != [] {
      var front := ops[..|ops| - 1];
      var op := ops[|ops| - 1];
      RunHolds(front);
      if op.value != [] {
        InsertHolds(Run(front), Contents(front), op.key, op.value);
      } else {
        DeleteHolds(Run(front), Contents(front), op.key);
      }
    }
  }

  /** Any two runs from the empty trie end in the same tree exactly when they leave the same content. */
  lemma HistoryIndependence(a: seq<Op>, b: seq<Op>)
    ensures Run(a) == Run(b) <==> Contents(a) == Contents(b)
  {
    RunHolds(a);
    RunHolds(b);
    if Contents(a) == Contents(b) {
      Unique(Run(a), Run(b));
    } else if Run(a) == Run(b) {
      SameContent(Run(a), Contents(a), Contents(b));
    }
  }

  lemma SameContent(t: Node, a: map<Bytes, Bytes>, b: map<Bytes, Bytes>)
    requires Holds(t, a) && Holds(t, b)
    requires (forall k :: k in a ==> a[k] != []) && (forall k :: k in b ==> b[k] != [])
    ensures a == b
  {
    forall k: Bytes ensures MapGet(a, k) == MapGet(b, k) {
      PathOfKey(KeyPath(k), k);
      assert Lookup(t, KeyPath(k)) == PathGet(a, KeyPath(k)) == PathGet(b, KeyPath(k));
    }
    assert forall k: Bytes :: k in a <==> MapGet(a, k) != [];
    assert forall k: Bytes :: k in b <==> MapGet(b, k) != [];
  }
}
