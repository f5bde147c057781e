/**
 TrieIterator.Each of ethutil/trie.go: what the callback receives, and when that is the content of the trie.
 */
module Iteration {
  import opened ByteStrings
  import opened HexPrefix
  import opened GoValues
  import opened Rlp
  import opened PatriciaTree
  import opened TrieTheorems
  import opened CodedTree
  import opened CodedRight
  import opened NodeRefs
  import opened TrieViews
  import opened TrieCache
  import opened TrieSteps
  import opened TrieObject

  /** A path and the value it leads to. */
  type PathValue = (seq<int>, Bytes)

  function Prefixed(key: seq<int>, l: seq<PathValue>): (r: seq<PathValue>)
    ensures |r| == |l| && forall i :: 0 <= i < |l| ==> r[i] == (key + l[i].0, l[i].1)
  {
    if l == [] then [] else [(key + l[0].0, l[0].1)] + Prefixed(key, l[1..])
  }

  // ---------- The content of a tree ----------

  /** All paths of a tree with their values, in the order of the slots. */
  function Listing(t: Node): seq<PathValue>
    decreases t, 0
  {
    match t
    case Empty => []
    case Value(v) => [([], v)]
    case Short(k, c) => Prefixed(k, Listing(c))
    case Full(s) => ListingFrom(s, 0)
  }

  function ListingFrom(s: seq<Node>, i: nat): seq<PathValue>
    requires i <= |s|
    decreases s, |s| - i
  {
    if i == |s| then [] else Prefixed([i], Listing(s[i])) + ListingFrom(s, i + 1)
  }

  // ---------- What iterateNode calls back ----------

  /**
   The callbacks below a node, as full paths: a child that `.Str()` shows as "" is iterated as a list, and
   for a two-slot node that happens under the key of the node above it. A hash kept as a Go string has no `.Bytes()`.
   */
  function Visited(t: Tree, key: seq<int>, inline: Node -> bool): seq<PathValue>
    decreases t, 0
  {
    match t
    case Path(k, c) =>
      if c.Word? then [(key + k, c.v)]
      else if c.Lost? then []
      else if IsNode(c) && !inline(AsNode(c, true)) then Visited(c, key + k, inline)
      else Visited(c, key, inline)
    case Branch(s) => VisitedFrom(s, key, 0, inline)
    case _ => []
  }

  function VisitedFrom(s: seq<Tree>, key: seq<int>, i: nat, inline: Node -> bool): seq<PathValue>
    requires i <= |s|
    decreases s, |s| - i
  {
    if i == |s| then [] else VisitedSlot(s[i], key + [i], i, inline) + VisitedFrom(s, key, i + 1, inline)
  }

  /** A branch passes on `.Str()`, so a hash kept as a Go string is found; a low byte that was read back has no Len. */
  function VisitedSlot(t: Tree, key: seq<int>, i: nat, inline: Node -> bool): seq<PathValue>
    decreases t, 1
  {
    match t
    case Word(v, low) => if i == 16 && !low then [(key, v)] else []
    case Lost(u) => Visited(u, key, inline)
    case _ => Visited(t, key, inline)
  }

  /**
   No extension leads to an inline node or to a hash kept as a Go string, and no branch value is a low byte read
   back.
   */
  predicate Iterable(t: Tree, inline: Node -> bool)
    decreases t, 0
  {
    match t
    case Path(_, c) => c.Word? || (!c.Lost? && !(IsNode(c) && inline(AsNode(c, true))) && Iterable(c, inline))
    case Branch(s) => forall i :: 0 <= i < |s| ==> IterableSlot(s[i], inline)
    case _ => true
  }

  predicate IterableSlot(t: Tree, inline: Node -> bool)
    decreases t, 1
  {
    match t
    case Word(_, low) => !low
    case Lost(u) => Iterable(u, inline)
    case _ => Iterable(t, inline)
  }

  lemma PrefixedTwice(a: seq<int>, b: seq<int>, l: seq<PathValue>)
    ensures Prefixed(a, Prefixed(b, l)) == Prefixed(a + b, l)
  {
    forall i | 0 <= i < |l| ensures Prefixed(a, Prefixed(b, l))[i] == Prefixed(a + b, l)[i] {
      assert a + (b + l[i].0) == a + b + l[i].0;
    }
  }

  lemma PrefixedConcat(a: seq<int>, l: seq<PathValue>, m: seq<PathValue>)
    ensures Prefixed(a, l + m) == Prefixed(a, l) + Prefixed(a, m)
  {}

  /** On an iterable tree the callbacks are the content in order. */
  lemma {:induction false} IterableIsListed(t: Tree, key: seq<int>, inline: Node -> bool)
    requires Formed(t) && NoHole(t) && !t.Lost? && Iterable(t, inline)
    ensures Visited(t, key, inline) == Prefixed(key, Listing(AsNode(t, true)))
    decreases t, 0
  {
    match t
    case Path(k, c) =>
      if c.Word? {
        assert k + [] == k;
      } else if !c.Blank? {
        IterableIsListed(c, key + k, inline);
        PrefixedTwice(key, k, Listing(AsNode(c, true)));
      }
    case Branch(s) => IterableFromIsListed(s, key, 0, inline);
    case _ =>
  }

  lemma {:induction false} IterableFromIsListed(s: seq<Tree>, key: seq<int>, i: nat, inline: Node -> bool)
    requires Formed(Branch(s)) && NoHole(Branch(s)) && Iterable(Branch(s), inline) && i <= |s|
    ensures VisitedFrom(s, key, i, inline) == Prefixed(key, ListingFrom(AsNodes(s, true), i))
    decreases s, |s| - i
  {
    if i < |s| {
      var n := AsNodes(s, true);
      IterableFromIsListed(s, key, i + 1, inline);
      PrefixedConcat(key, Prefixed([i], Listing(n[i])), ListingFrom(n, i + 1));
      PrefixedTwice(key, [i], Listing(n[i]));
      assert IterableSlot(s[i], inline);
      SlotIsListed(s[i], key + [i], i, inline);
    }
  }

  lemma {:induction false} SlotIsListed(t: Tree, key: seq<int>, i: nat, inline: Node -> bool)
    requires (if i == 16 then WordSlot(t) else Formed(t)) && NoHole(t) && IterableSlot(t, inline)
    ensures VisitedSlot(t, key, i, inline) == Prefixed(key, Listing(AsNode(t, true)))
    decreases t, 1
  {
    if t.Word? {
      assert key + [] == key;
    } else {
      IterableIsListed(if t.Lost? then t.t else t, key, inline);
    }
  }

  // ---------- The listing is the content ----------

  lemma {:induction false} InPrefixed(k: seq<int>, l: seq<PathValue>, p: seq<int>, v: Bytes)
    ensures (p, v) in Prefixed(k, l) <==> k <= p && (p[|k|..], v) in l
  {
    var r := Prefixed(k, l);
    if (p, v) in r {
      var i :| 0 <= i < |r| && r[i] == (p, v);
      assert p[|k|..] == l[i].0;
    }
    if k <= p && (p[|k|..], v) in l {
      var i :| 0 <= i < |l| && l[i] == (p[|k|..], v);
      assert r[i].0 == k + p[|k|..] == p;
    }
  }

  lemma InFirstSlot(s: seq<Node>, i: nat, p: seq<int>, v: Bytes)
    requires i < |s|
    ensures (p, v) in Prefixed([i], Listing(s[i])) <==> p != [] && p[0] == i && (p[1..], v) in Listing(s[i])
  {
    InPrefixed([i], Listing(s[i]), p, v);
    assert [i] <= p <==> p != [] && p[0] == i;
  }

  lemma {:induction false} InListingFrom(s: seq<Node>, i: nat, p: seq<int>, v: Bytes)
    requires i <= |s|
    ensures (p, v) in ListingFrom(s, i) <==> p != [] && i <= p[0] < |s| && (p[1..], v) in Listing(s[p[0]])
    decreases |s| - i
  {
    if i < |s| {
      InListingFrom(s, i + 1, p, v);
      InFirstSlot(s, i, p, v);
    }
  }

  /** The listing holds exactly the terminated paths that lead to a value, with that value. */
  lemma {:induction false} ListingIsContent(t: Node, p: seq<int>, v: Bytes)
    requires Canonical(t) && Shaped(t)
    ensures (p, v) in Listing(t) <==> IsTerminated(p) && v != [] && Lookup(t, p) == v
    decreases t, 0
  {
    match t
    case Empty =>
    case Short(k, c) =>
      InPrefixed(k, Listing(c), p, v);
      if k <= p {
        ListingBelow(k, c, p, v);
      } else if IsTerminated(p) {
        LookupAttach(k, c, p);
      }
    case Full(s) =>
      InListingFrom(s, 0, p, v);
      if p != [] && 0 <= p[0] < 17 {
        ListingInSlot(s, p, v);
      } else if IsTerminated(p) {
        HeadOfKey(p);
        assert false;
      }
  }

  lemma {:induction false} ListingBelow(k: seq<int>, c: Node, p: seq<int>, v: Bytes)
    requires Sub(Short(k, c)) && Shaped(Short(k, c)) && k <= p
    ensures (p[|k|..], v) in Listing(c) <==> IsTerminated(p) && v != [] && Lookup(Short(k, c), p) == v
    decreases c, 1
  {
    var rest := p[|k|..];
    assert p == k + rest;
    if IsTerminated(k) {
      assert Listing(c) == [([], c.v)];
      assert rest == [] ==> p == k;
      if IsTerminated(p) {
        PathInKey(k, p);
        assert p == k && rest == [] && Get(Short(k, c), p) == Get(c, []);
        assert (rest, v) in Listing(c) <==> (rest, v) == Listing(c)[0];
      }
    } else {
      ListingIsContent(c, rest, v);
      if IsTerminated(rest) {
        JoinPaths(k, rest);
      }
      if IsTerminated(p) {
        PathInKey(k, p);
      }
    }
  }

  lemma {:induction false} ListingInSlot(s: seq<Node>, p: seq<int>, v: Bytes)
    requires Sub(Full(s)) && Shaped(Full(s)) && p != [] && 0 <= p[0] < 17
    ensures (p[1..], v) in Listing(s[p[0]]) <==> IsTerminated(p) && v != [] && Lookup(Full(s), p) == v
    decreases s, 0
  {
    assert p == [p[0]] + p[1..];
    if IsTerminated(p) {
      HeadOfKey(p);
      assert Get(Full(s), p) == Get(s[p[0]], p[1..]);
    }
    if p[0] == 16 {
      if p[1..] == [] {
        assert p == [16];
      }
    } else {
      ListingIsContent(s[p[0]], p[1..], v);
      if IsTerminated(p[1..]) {
        JoinPaths([p[0]], p[1..]);
      }
    }
  }

  // ---------- Each path is listed once ----------

  ghost predicate Distinct(l: seq<PathValue>) {
    forall i, j :: 0 <= i < j < |l| ==> l[i].0 != l[j].0
  }

  lemma PrefixedDistinct(k: seq<int>, l: seq<PathValue>)
    requires Distinct(l)
    ensures Distinct(Prefixed(k, l))
  {
    var r := Prefixed(k, l);
    forall i, j | 0 <= i < j < |r| ensures r[i].0 != r[j].0 {
      assert r[i].0[|k|..] == l[i].0 && r[j].0[|k|..] == l[j].0;
    }
  }

  lemma {:induction false} ListingDistinct(t: Node)
    requires Shaped(t) || t.Value?
    ensures Distinct(Listing(t))
    decreases t, 0
  {
    match t
    case Empty =>
    case Value(_) =>
    case Short(k, c) =>
      if !c.Empty? {
        ListingDistinct(c);
      }
      PrefixedDistinct(k, Listing(c));
    case Full(s) => ListingFromDistinct(s, 0);
  }

  lemma {:induction false} ListingFromDistinct(s: seq<Node>, i: nat)
    requires Shaped(Full(s)) && i <= |s|
    ensures Distinct(ListingFrom(s, i))
    ensures forall x :: 0 <= x < |ListingFrom(s, i)| ==> ListingFrom(s, i)[x].0 != [] && ListingFrom(s, i)[x].0[0] >= i
    decreases s, |s| - i
  {
    if i < |s| {
      ListingFromDistinct(s, i + 1);
      ListingDistinct(s[i]);
      PrefixedDistinct([i], Listing(s[i]));
    }
  }

  // ---------- Exactly when Each is right ----------

  /** The length of all paths, each counted as one longer. */
  function Weight(l: seq<PathValue>): nat {
    if l == [] then 0 else |l[0].0| + 1 + Weight(l[1..])
  }

  lemma {:induction false} WeightConcat(l: seq<PathValue>, m: seq<PathValue>)
    ensures Weight(l + m) == Weight(l) + Weight(m)
  {
    if l == [] {
      assert l + m == m;
    } else {
      assert (l + m)[1..] == l[1..] + m;
      WeightConcat(l[1..], m);
    }
  }

  /** A longer prefix weighs more. */
  lemma {:induction false} WeightPrefixed(a: seq<int>, b: seq<int>, l: seq<PathValue>)
    requires |a| < |b|
    ensures Weight(Prefixed(a, l)) <= Weight(Prefixed(b, l))
    ensures l != [] ==> Weight(Prefixed(a, l)) < Weight(Prefixed(b, l))
  {
    if l != [] {
      assert Prefixed(a, l)[1..] == Prefixed(a, l[1..]) && Prefixed(b, l)[1..] == Prefixed(b, l[1..]);
      WeightPrefixed(a, b, l[1..]);
    }
  }

  function Content(t: Tree, key: seq<int>): seq<PathValue> {
    Prefixed(key, Listing(AsNode(t, true)))
  }

  /** What is listed below a canonical node is something. */
  lemma SomethingListed(n: Node)
    requires Sub(n)
    ensures Listing(n) != []
  {
    SubIsShaped(n);
    var p := SomeKey(n);
    ListingIsContent(n, p, Lookup(n, p));
  }

  lemma ContentBelow(k: seq<int>, c: Tree, key: seq<int>)
    ensures Content(Path(k, c), key) == Content(c, key + k)
  {
    PrefixedTwice(key, k, Listing(AsNode(c, true)));
  }

  /** The callbacks weigh no more than the content, and less exactly on a tree that is not iterable. */
  lemma {:induction false} VisitedWeight(t: Tree, key: seq<int>, inline: Node -> bool)
    requires Formed(t) && NoHole(t) && Canonical(AsNode(t, true)) && !t.Lost?
    ensures Weight(Visited(t, key, inline)) <= Weight(Content(t, key))
    ensures !Iterable(t, inline) ==> Weight(Visited(t, key, inline)) < Weight(Content(t, key))
    decreases t, 0
  {
    match t
    case Path(k, c) =>
      ContentBelow(k, c, key);
      if c.Word? {
        assert key + k + [] == key + k;
      } else if c.Lost? {
        SomethingListed(AsNode(c, true));
        assert Content(c, key + k) != [];
      } else if IsNode(c) {
        SomethingListed(AsNode(c, true));
        VisitedWeight(c, if inline(AsNode(c, true)) then key else key + k, inline);
        WeightPrefixed(key, key + k, Listing(AsNode(c, true)));
      }
    case Branch(s) => VisitedFromWeight(s, key, 0, inline);
    case _ =>
  }

  function ContentFrom(s: seq<Tree>, key: seq<int>, i: nat): seq<PathValue>
    requires i <= |s|
  {
    Prefixed(key, ListingFrom(AsNodes(s, true), i))
  }

  lemma ContentStep(s: seq<Tree>, key: seq<int>, i: nat)
    requires i < |s|
    ensures Weight(ContentFrom(s, key, i)) == Weight(Content(s[i], key + [i])) + Weight(ContentFrom(s, key, i + 1))
  {
    var n := AsNodes(s, true);
    PrefixedConcat(key, Prefixed([i], Listing(n[i])), ListingFrom(n, i + 1));
    PrefixedTwice(key, [i], Listing(n[i]));
    WeightConcat(Content(s[i], key + [i]), ContentFrom(s, key, i + 1));
  }

  predicate AllIterable(s: seq<Tree>, i: nat, inline: Node -> bool) {
    forall j :: i <= j < |s| ==> IterableSlot(s[j], inline)
  }

  lemma {:induction false} VisitedFromWeight(s: seq<Tree>, key: seq<int>, i: nat, inline: Node -> bool)
    requires Formed(Branch(s)) && NoHole(Branch(s)) && SlotsCanonical(AsNodes(s, true)) && i <= |s|
    ensures Weight(VisitedFrom(s, key, i, inline)) <= Weight(ContentFrom(s, key, i))
    ensures !AllIterable(s, i, inline) ==> Weight(VisitedFrom(s, key, i, inline)) < Weight(ContentFrom(s, key, i))
    decreases s, |s| - i
  {
    if i < |s| {
      VisitedFromWeight(s, key, i + 1, inline);
      ContentStep(s, key, i);
      WeightConcat(VisitedSlot(s[i], key + [i], i, inline), VisitedFrom(s, key, i + 1, inline));
      assert i < 16 ==> AsNodes(s, true)[i].Empty? || Sub(AsNodes(s, true)[i]);
      VisitedSlotWeight(s[i], key + [i], i, inline);
    }
  }

  lemma {:induction false} VisitedSlotWeight(t: Tree, key: seq<int>, i: nat, inline: Node -> bool)
    requires if i == 16 then WordSlot(t) else Formed(t) && Canonical(AsNode(t, true))
    requires NoHole(t)
    ensures Weight(VisitedSlot(t, key, i, inline)) <= Weight(Content(t, key))
    ensures !IterableSlot(t, inline) ==> Weight(VisitedSlot(t, key, i, inline)) < Weight(Content(t, key))
    decreases t, 1
  {
    if t.Word? {
      assert key + [] == key;
    } else {
      VisitedWeight(if t.Lost? then t.t else t, key, inline);
    }
  }

  /** Each is right on a canonical tree exactly when it is iterable. */
  lemma VisitedExact(t: Tree, inline: Node -> bool)
    requires Formed(t) && NoHole(t) && Canonical(AsNode(t, true)) && !t.Lost?
    ensures Visited(t, [], inline) == Listing(AsNode(t, true)) <==> Iterable(t, inline)
  {
    assert forall l: seq<PathValue>, i :: 0 <= i < |l| ==> [] + l[i].0 == l[i].0;
    assert Content(t, []) == Listing(AsNode(t, true));
    if Iterable(t, inline) {
      IterableIsListed(t, [], inline);
    } else {
      VisitedWeight(t, [], inline);
    }
  }

  /**
   What is called where it is not right. Everything below an inline child of an extension is called under the path of
   the extension alone, without its nibbles; nothing is below a child whose hash became a Go string.
   */
  lemma BelowExtension(k: seq<int>, c: Tree, key: seq<int>, inline: Node -> bool)
    requires Formed(c) && NoHole(c) && IsNode(c) && Iterable(c, inline)
    ensures Visited(Path(k, c), key, inline) ==
            Prefixed(if inline(AsNode(c, true)) then key else key + k, Listing(AsNode(c, true)))
    ensures Visited(Path(k, Lost(c)), key, inline) == []
  {
    IterableIsListed(c, if inline(AsNode(c, true)) then key else key + k, inline);
  }

  /** A branch's value that is a low byte read back is the one call that is missing. */
  lemma {:induction false} LowValueSkipped(s: seq<Tree>, key: seq<int>, v: Bytes, inline: Node -> bool)
    requires |s| == 17
    ensures Visited(Branch(s[16 := Word(v, false)]), key, inline) ==
            Visited(Branch(s[16 := Word(v, true)]), key, inline) + [(key + [16], v)]
  {
    LowSkippedFrom(s, key, 0, v, inline);
  }

  lemma {:induction false} LowSkippedFrom(s: seq<Tree>, key: seq<int>, i: nat, v: Bytes, inline: Node -> bool)
    requires |s| == 17 && i <= 16
    ensures VisitedFrom(s[16 := Word(v, false)], key, i, inline) ==
            VisitedFrom(s[16 := Word(v, true)], key, i, inline) + [(key + [16], v)]
    decreases 16 - i
  {
    var a, b := s[16 := Word(v, false)], s[16 := Word(v, true)];
    if i < 16 {
      LowSkippedFrom(s, key, i + 1, v, inline);
      assert a[i] == b[i];
    } else {
      assert VisitedFrom(a, key, 17, inline) == VisitedFrom(b, key, 17, inline) == [];
    }
  }

  /** The first nibble in which two paths differ is the smaller one in `p`. */
  predicate Before(p: seq<int>, q: seq<int>) {
    p != [] && q != [] && (p[0] < q[0] || (p[0] == q[0] && Before(p[1..], q[1..])))
  }

  ghost predicate InOrder(l: seq<PathValue>) {
    forall i, j :: 0 <= i < j < |l| ==> Before(l[i].0, l[j].0)
  }

  lemma {:induction false} BeforePrefixed(k: seq<int>, p: seq<int>, q: seq<int>)
    requires Before(p, q)
    ensures Before(k + p, k + q)
  {
    if k == [] {
      assert k + p == p && k + q == q;
    } else {
      BeforePrefixed(k[1..], p, q);
      assert (k + p)[1..] == k[1..] + p && (k + q)[1..] == k[1..] + q;
    }
  }

  lemma PrefixedInOrder(k: seq<int>, l: seq<PathValue>)
    requires InOrder(l)
    ensures InOrder(Prefixed(k, l))
  {
    forall i, j | 0 <= i < j < |l|
      ensures Before(Prefixed(k, l)[i].0, Prefixed(k, l)[j].0)
    {
      BeforePrefixed(k, l[i].0, l[j].0);
    }
  }

  /** The entries of a tree are listed in the order of their paths. */
  lemma {:induction false} ListingInOrder(t: Node)
    ensures InOrder(Listing(t))
    decreases t, 0
  {
    match t
    case Short(k, c) =>
      ListingInOrder(c);
      PrefixedInOrder(k, Listing(c));
    case Full(s) => SlotsInOrder(s, 0);
    case _ =>
  }

  lemma {:induction false} SlotsInOrder(s: seq<Node>, i: nat)
    requires i <= |s|
    ensures InOrder(ListingFrom(s, i))
    ensures forall n :: 0 <= n < |ListingFrom(s, i)| ==> ListingFrom(s, i)[n].0 != [] && ListingFrom(s, i)[n].0[0] >= i
    decreases s, |s| - i
  {
    if i < |s| {
      ListingInOrder(s[i]);
      PrefixedInOrder([i], Listing(s[i]));
      SlotsInOrder(s, i + 1);
    }
  }

  // ---------- Callbacks carry keys, not paths ----------

  type Call = (Bytes, Bytes)

  function Calls(l: seq<PathValue>): (c: seq<Call>)
    ensures |c| == |l|
  {
    if l == [] then [] else [(PathKey(l[0].0), l[0].1)] + Calls(l[1..])
  }

  lemma {:induction false} CallsAt(l: seq<PathValue>, i: nat)
    requires i < |l|
    ensures Calls(l)[i] == (PathKey(l[i].0), l[i].1)
  {
    if i > 0 {
      CallsAt(l[1..], i - 1);
    }
  }

  lemma CallsConcat(before: seq<Call>, l: seq<PathValue>, m: seq<PathValue>)
    ensures before + Calls(l + m) == before + Calls(l) + Calls(m)
  {
    CallsOfConcat(l, m);
    assert before + (Calls(l) + Calls(m)) == before + Calls(l) + Calls(m);
  }

  lemma CallsOfConcat(l: seq<PathValue>, m: seq<PathValue>)
    ensures Calls(l + m) == Calls(l) + Calls(m)
  {
    forall i | 0 <= i < |l + m| ensures Calls(l + m)[i] == (Calls(l) + Calls(m))[i] {
      CallsAt(l + m, i);
      if i < |l| {
        CallsAt(l, i);
      } else {
        CallsAt(m, i - |l|);
      }
    }
  }

  predicate EndsTerminated(q: seq<int>) {
    q != [] && q[|q| - 1] == TERMINATOR
  }

  lemma {:induction false} VisitedTerminated(t: Tree, key: seq<int>, inline: Node -> bool)
    requires Formed(t)
    ensures forall p :: p in Visited(t, key, inline) ==> EndsTerminated(p.0)
    decreases t, 0
  {
    match t
    case Path(k, c) =>
      if c.Word? {
        assert (key + k)[|key + k| - 1] == k[|k| - 1];
      } else if IsNode(c) {
        VisitedTerminated(c, if inline(AsNode(c, true)) then key else key + k, inline);
      }
    case Branch(s) => VisitedFromTerminated(s, key, 0, inline);
    case _ =>
  }

  lemma {:induction false} VisitedFromTerminated(s: seq<Tree>, key: seq<int>, i: nat, inline: Node -> bool)
    requires Formed(Branch(s)) && i <= |s|
    ensures forall p :: p in VisitedFrom(s, key, i, inline) ==> EndsTerminated(p.0)
    decreases s, |s| - i
  {
    if i < |s| {
      VisitedFromTerminated(s, key, i + 1, inline);
      match s[i]
      case Word(_, _) =>
      case Lost(u) => VisitedTerminated(u, key + [i], inline);
      case _ => VisitedTerminated(s[i], key + [i], inline);
    }
  }

  /** What the keys of the calls come to. */
  function CallWeight(c: seq<Call>): nat {
    if c == [] then 0 else 2 * |c[0].0| + 2 + CallWeight(c[1..])
  }

  lemma KeyLength(q: seq<int>)
    requires EndsTerminated(q)
    ensures 2 * |PathKey(q)| + 2 <= |q| + 1
  {
    assert |Digits(q)| <= |q| - 1;
    PackedLength(Digits(q));
  }

  lemma {:induction false} PackedLength(d: seq<int>)
    ensures 2 * |PackPairs(d)| <= |d|
    decreases |d|
  {
    if |d| >= 2 {
      PackedLength(d[2..]);
    }
  }

  /** Calls weigh no more than the paths they are made of. */
  lemma {:induction false} CallsWeight(l: seq<PathValue>)
    requires forall p :: p in l ==> EndsTerminated(p.0)
    ensures CallWeight(Calls(l)) <= Weight(l)
  {
    if l != [] {
      CallsWeight(l[1..]);
      assert l[0] in l;
      KeyLength(l[0].0);
    }
  }

  /** And as much when the paths are those of whole keys. */
  lemma {:induction false} WholeKeysWeight(l: seq<PathValue>)
    requires forall p :: p in l ==> KeyPath(PathKey(p.0)) == p.0
    ensures CallWeight(Calls(l)) == Weight(l)
  {
    if l != [] {
      WholeKeysWeight(l[1..]);
      assert l[0] in l;
    }
  }

  lemma ListedCall(t: Node, m: map<Bytes, Bytes>, i: nat)
    requires Holds(t, m) && i < |Listing(t)|
    ensures var c := Calls(Listing(t))[i];
            Listing(t)[i].0 == KeyPath(c.0) && c.0 in m && m[c.0] == c.1
  {
    var p := Listing(t)[i];
    CallsAt(Listing(t), i);
    assert p == (p.0, p.1) && p in Listing(t);
    ListingIsContent(t, p.0, p.1);
    assert Lookup(t, p.0) == PathGet(m, p.0);
  }

  lemma EntryIsListed(t: Node, m: map<Bytes, Bytes>, k: Bytes)
    requires Holds(t, m) && k in m && m[k] != []
    ensures (k, m[k]) in Calls(Listing(t))
  {
    var l := Listing(t);
    PathOfKey(KeyPath(k), k);
    assert Lookup(t, KeyPath(k)) == PathGet(m, KeyPath(k)) == m[k];
    ListingIsContent(t, KeyPath(k), m[k]);
    var i :| 0 <= i < |l| && l[i] == (KeyPath(k), m[k]);
    CallsAt(l, i);
    assert Calls(l)[i] == (k, m[k]);
  }

  /** The listing of a trie that holds a map has one call for every entry of the map and no other. */
  lemma ListedCalls(t: Node, m: map<Bytes, Bytes>)
    requires Holds(t, m) && forall k :: k in m ==> m[k] != []
    ensures forall i, j :: 0 <= i < j < |Listing(t)| ==> Calls(Listing(t))[i].0 != Calls(Listing(t))[j].0
    ensures forall k, v :: (k, v) in Calls(Listing(t)) <==> k in m && m[k] == v
  {
    var l, c := Listing(t), Calls(Listing(t));
    ListingDistinct(t);
    forall i, j | 0 <= i < j < |l| ensures c[i].0 != c[j].0 {
      ListedCall(t, m, i);
      ListedCall(t, m, j);
    }
    forall k, v ensures (k, v) in c <==> k in m && m[k] == v {
      if (k, v) in c {
        var i :| 0 <= i < |c| && c[i] == (k, v);
        ListedCall(t, m, i);
      }
      if k in m && m[k] == v {
        EntryIsListed(t, m, k);
      }
    }
  }

  /** What is listed are whole keys, so that the calls for them weigh as much as the listing. */
  lemma ListedWeight(n: Node, m: map<Bytes, Bytes>)
    requires Holds(n, m)
    ensures CallWeight(Calls(Listing(n))) == Weight(Listing(n))
  {
    var l := Listing(n);
    forall p | p in l ensures KeyPath(PathKey(p.0)) == p.0 {
      var i :| 0 <= i < |l| && l[i] == p;
      ListedCall(n, m, i);
      PathKeyInvertsKeyPath(Calls(l)[i].0);
    }
    WholeKeysWeight(l);
  }

  lemma VisitedCallsWeight(t: Tree, inline: Node -> bool)
    requires Formed(t) && NoHole(t) && Canonical(AsNode(t, true)) && !t.Lost? && !Iterable(t, inline)
    ensures CallWeight(Calls(Visited(t, [], inline))) < Weight(Listing(AsNode(t, true)))
  {
    var l := Listing(AsNode(t, true));
    assert forall i :: 0 <= i < |l| ==> [] + l[i].0 == l[i].0;
    assert Content(t, []) == l;
    VisitedWeight(t, [], inline);
    VisitedTerminated(t, [], inline);
    CallsWeight(Visited(t, [], inline));
  }

  /** On a trie that holds a map, iterating calls back with the content of the map exactly when the tree is iterable. */
  lemma CallsExact(t: Tree, m: map<Bytes, Bytes>, inline: Node -> bool)
    requires Formed(t) && NoHole(t) && !t.Lost? && Holds(AsNode(t, true), m)
    ensures Calls(Visited(t, [], inline)) == Calls(Listing(AsNode(t, true))) <==> Iterable(t, inline)
  {
    VisitedExact(t, inline);
    if !Iterable(t, inline) {
      VisitedCallsWeight(t, inline);
      ListedWeight(AsNode(t, true), m);
    }
  }

  // ---------- The iterator object ----------

  /** Whether a node is behind its reference or in it. */
  lemma InlineKind(v: View, g: GoValue, t: Tree, known: set<Item>, h: Hash)
    requires Fits(v, known, h) && Shows(v, g, t, known, h) && IsNode(t) && Formed(t)
    ensures if Inline(AsNode(t, true), h) then g.GoList? && StrOf(g) == [] && Behind(v, g) == g
            else g.GoBytes? && g.b != [] && IsStored(g.b, v, known, h) && Behind(v, g) == v[g.b]
  {
    NodeKinds(v, g, t, known, h);
    OpenNode(v, g, AsNode(t, true), known, h);
  }

  class TrieIterator {
    const trie: Trie
    /** What the callback has received. */
    var calls: seq<Call>

    constructor (trie: Trie)
      ensures this.trie == trie && calls == []
    {
      this.trie := trie;
      calls := [];
    }

    ghost predicate Ready(v: View)
      reads trie, trie.cache, trie.cache.db
    {
      trie.Ready(v)
    }

    /** Nothing is called back for a root that is not a hash: the cache is asked for the empty key. */
    method Each()
      requires trie.Readable() && !trie.tree.Lost?
      modifies this`calls, trie.cache`nodes
      ensures trie.Readable()
      ensures calls == old(calls) +
                if !IsNode(trie.tree) || Inline(AsNode(trie.tree, true), trie.cache.hash) then []
                else Calls(Visited(trie.tree, [], InlineTest(trie.cache.hash)))
    {
      ghost var v, t := trie.cache.Seen(), trie.tree;
      ViewFits(trie.cache.nodes, trie.cache.db.data, trie.cache.known, trie.cache.hash);
      FetchRoot(BytesOf(trie.root), trie.root, v, t);
      ShowsExtends(v, trie.cache.Seen(), trie.root, t, trie.cache.known, trie.cache.hash);
    }

    method FetchRoot(bytes: Bytes, ghost root: GoValue, ghost v: View, ghost t: Tree)
      requires Ready(v) && Formed(t) && !t.Lost? && bytes == BytesOf(root)
      requires Shows(v, root, t, trie.cache.known, trie.cache.hash)
      modifies this`calls, trie.cache`nodes
      ensures Ready(v)
      ensures calls == old(calls) +
                if !IsNode(t) || Inline(AsNode(t, true), trie.cache.hash) then []
                else Calls(Visited(t, [], InlineTest(trie.cache.hash)))
    {
      RefSlots(v, root, t, trie.cache.known, trie.cache.hash);
      if bytes == [] {
        FetchNothing(bytes, v);
      } else {
        FetchNode([], bytes, v, t);
      }
    }

    /** fetchNode where nothing is: the cache answers nil, and nothing is called back. */
    method FetchNothing(node: Bytes, ghost v: View)
      requires Ready(v) && |node| <= 1
      modifies trie.cache`nodes
      ensures Ready(v)
    {
      ShortKeysMiss(trie.cache.nodes, trie.cache.db.data, node, trie.cache.known, trie.cache.hash);
      var nothing := trie.cache.Get(node);
      assert Len(nothing) == 0;
    }

    method FetchNode(key: seq<int>, node: Bytes, ghost v: View, ghost t: Tree)
      requires Ready(v) && Formed(t) && IsNode(t) && IsStored(node, v, trie.cache.known, trie.cache.hash)
      requires SlotsShown(v, v[node], t, trie.cache.known, trie.cache.hash)
      modifies this`calls, trie.cache`nodes
      ensures Ready(v) && calls == old(calls) + Calls(Visited(t, key, InlineTest(trie.cache.hash)))
      decreases t, 2
    {
      var currentNode := trie.cache.Get(node);
      IterateNode(key, currentNode, v, t);
    }

    method IterateNode(key: seq<int>, currentNode: GoValue, ghost v: View, ghost t: Tree)
      requires Ready(v) && Formed(t) && !t.Lost?
      requires SlotsShown(v, currentNode, t, trie.cache.known, trie.cache.hash)
      modifies this`calls, trie.cache`nodes
      ensures Ready(v) && calls == old(calls) + Calls(Visited(t, key, InlineTest(trie.cache.hash)))
      decreases t, 1
    {
      if Len(currentNode) == 2 {
        IterateShort(key, currentNode, v, t.key, t.child);
      } else if Len(currentNode) != 0 {
        IterateFull(key, currentNode, v, t.slots);
      }
    }

    /** The loop at lines 545-559; over an empty string it does nothing. */
    method IterateFull(key: seq<int>, currentNode: GoValue, ghost v: View, ghost s: seq<Tree>)
      requires Ready(v) && Formed(Branch(s)) && AllShown(v, currentNode, s, trie.cache.known, trie.cache.hash)
      modifies this`calls, trie.cache`nodes
      ensures Ready(v) && calls == old(calls) + Calls(Visited(Branch(s), key, InlineTest(trie.cache.hash)))
      decreases s, 0
    {
      ghost var inline := InlineTest(trie.cache.hash);
      ghost var all := old(calls) + Calls(VisitedFrom(s, key, 0, inline));
      for i := 0 to Len(currentNode)
        invariant Ready(v) && i <= 17
        invariant calls + Calls(VisitedFrom(s, key, i, inline)) == all
      {
        CallsConcat(calls, VisitedSlot(s[i], key + [i], i, inline), VisitedFrom(s, key, i + 1, inline));
        IterateSlot(key + [i], ItemAt(currentNode, i), i, v, s[i]);
      }
    }

    /** `cb(DecodeCompact(pk), value)`. */
    method CallBack(pk: seq<int>, value: Bytes)
      modifies this`calls
      ensures calls == old(calls) + Calls([(pk, value)])
    {
      var key := DecodeCompact(pk);
      calls := calls + [(key, value)];
    }

    /** One slot of a branch, lines 546-558. */
    method IterateSlot(pk: seq<int>, slot: GoValue, i: nat, ghost v: View, ghost t: Tree)
      requires Ready(v) && (if i == 16 then WordSlot(t) else Formed(t))
      requires Shows(v, slot, t, trie.cache.known, trie.cache.hash)
      modifies this`calls, trie.cache`nodes
      ensures Ready(v) && calls == old(calls) + Calls(VisitedSlot(t, pk, i, InlineTest(trie.cache.hash)))
      decreases t, 4
    {
      if i == 16 {
        IterateValue(pk, slot, v, t);
      } else {
        IterateRef(pk, slot, v, t);
      }
    }

    /** The slot behind the terminator. */
    method IterateValue(pk: seq<int>, slot: GoValue, ghost v: View, ghost t: Tree)
      requires Ready(v) && WordSlot(t) && Shows(v, slot, t, trie.cache.known, trie.cache.hash)
      modifies this`calls, trie.cache`nodes
      ensures Ready(v) && calls == old(calls) + Calls(VisitedSlot(t, pk, 16, InlineTest(trie.cache.hash)))
    {
      ValueLength(v, slot, t, trie.cache.known, trie.cache.hash);
      if Len(slot) != 0 {
        CallBack(pk, StrOf(slot));
      } else if StrOf(slot) != [] {
        FetchNothing(StrOf(slot), v);
      }
    }

    /** A slot for a node. */
    method IterateRef(pk: seq<int>, slot: GoValue, ghost v: View, ghost t: Tree)
      requires Ready(v) && Formed(t) && Shows(v, slot, t, trie.cache.known, trie.cache.hash)
      modifies this`calls, trie.cache`nodes
      ensures Ready(v) && calls == old(calls) + Calls(VisitedSlot(t, pk, 0, InlineTest(trie.cache.hash)))
      decreases t, 3
    {
      RefSlots(v, slot, t, trie.cache.known, trie.cache.hash);
      if StrOf(slot) == [] {
        IterateNode(pk, slot, v, t);
      } else {
        FetchNode(pk, StrOf(slot), v, if t.Lost? then t.t else t);
      }
    }

    /** The two-slot case, lines 530-543. */
    method IterateShort(key: seq<int>, currentNode: GoValue, ghost v: View, ghost k0: seq<int>, ghost c: Tree)
      requires Ready(v) && Formed(Path(k0, c))
      requires SlotsShown(v, currentNode, Path(k0, c), trie.cache.known, trie.cache.hash)
      modifies this`calls, trie.cache`nodes
      ensures Ready(v) && calls == old(calls) + Calls(Visited(Path(k0, c), key, InlineTest(trie.cache.hash)))
      decreases c, 4
    {
      ExpandInvertsCompact(k0);
      var k := CompactDecode(StrOf(ItemAt(currentNode, 0)));
      var child := ItemAt(currentNode, 1);
      if k[|k| - 1] == 16 {
        ChildWord(v, child, c, trie.cache.known, trie.cache.hash);
        if StrOf(child) != [] {
          CallBack(key + k, StrOf(child));
        }
      } else {
        IterateChild(key, key + k, child, v, k, c);
      }
    }

    /** The child of an extension: iterated in place under the key above it, or fetched under the longer one. */
    method IterateChild(key: seq<int>, pk: seq<int>, child: GoValue, ghost v: View, ghost k: seq<int>, ghost c: Tree)
      requires Ready(v) && Formed(Path(k, c)) && !IsTerminated(k) && pk == key + k
      requires Shows(v, child, c, trie.cache.known, trie.cache.hash)
      modifies this`calls, trie.cache`nodes
      ensures Ready(v) && calls == old(calls) + Calls(Visited(Path(k, c), key, InlineTest(trie.cache.hash)))
      decreases c, 3
    {
      RefSlots(v, child, c, trie.cache.known, trie.cache.hash);
      if StrOf(child) == [] {
        IterateNode(key, child, v, c);
      } else if BytesOf(child) == [] {
        FetchNothing(BytesOf(child), v);
      } else {
        FetchNode(pk, BytesOf(child), v, c);
      }
    }
  }

  lemma ValueLength(v: View, g: GoValue, t: Tree, known: set<Item>, h: Hash)
    requires WordSlot(t) && Shows(v, g, t, known, h)
    ensures t.Blank? ==> StrOf(g) == [] && Len(g) == 0
    ensures t.Word? ==> StrOf(g) == t.v && (Len(g) == 0 <==> t.low) && (t.low ==> |t.v| == 1)
  {
    match t
    case Blank(b) => ShownBlank(v, g, b, known, h);
    case Word(w, low) => ShownWord(v, g, w, low, known, h);
  }

  lemma ChildWord(v: View, g: GoValue, t: Tree, known: set<Item>, h: Hash)
    requires WordSlot(t) && Shows(v, g, t, known, h)
    ensures if t.Word? then StrOf(g) == t.v != [] else StrOf(g) == []
  {
    ValueLength(v, g, t, known, h);
  }

  /** What iterateNode finds out about a slot for a node. */
  lemma RefSlots(v: View, g: GoValue, t: Tree, known: set<Item>, h: Hash)
    requires Fits(v, known, h) && Formed(t) && Shows(v, g, t, known, h)
    ensures StrOf(g) == [] <==> !t.Lost? && !(IsNode(t) && !Inline(AsNode(t, true), h))
    ensures StrOf(g) == [] ==> SlotsShown(v, g, t, known, h)
    ensures StrOf(g) != [] ==>
              IsStored(StrOf(g), v, known, h) && SlotsShown(v, v[StrOf(g)], if t.Lost? then t.t else t, known, h)
    ensures BytesOf(g) == [] <==> !(IsNode(t) && !Inline(AsNode(t, true), h))
    ensures BytesOf(g) != [] ==> BytesOf(g) == StrOf(g)
  {
    match t
    case Blank(b) => ShownBlank(v, g, b, known, h);
    case Hole => ShownHole(v, g, known, h);
    case Lost(u) =>
      LostIsStored(v, g, u, known, h);
      NodeKinds(v, GoBytes(StrOf(g)), u, known, h);
      ShownSlots(v, GoBytes(StrOf(g)), u, known, h);
    case _ =>
      InlineKind(v, g, t, known, h);
      ShownSlots(v, g, t, known, h);
  }
}
