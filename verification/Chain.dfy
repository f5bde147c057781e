/**
 Catching up: the range of blocks a peer serves (GetChainFromHash of ethchain/block_chain.go, MsgGetChainTy of
 peer.go) and what the receiver makes of it (MsgBlockTy of peer.go, Process and CalculateTD of
 ethchain/state_manager.go).

 A block is its hash and the fields these read. Whether its transactions, root, time and nonce check out is any
 function of the current block, its parent and itself.
 */
module Chain {
  import opened ByteStrings

  datatype Block = Block(hash: Bytes, prevHash: Bytes, number: nat, difficulty: nat, uncles: seq<nat>)

  type Blocks = map<Bytes, Block>

  /** Every block is stored under its own hash. */
  predicate ByHash(db: Blocks) {
    forall h :: h in db ==> db[h].hash == h
  }

  const WRAP: nat := 0x1_0000_0000_0000_0000

  /** Whether a block checks out, by the current block, its parent and the block. */
  type Checks = (Block, Block, Block) -> bool

  /** Arithmetic on uint64 wraps around. */
  function Uint64(n: int): nat {
    n % WRAP
  }

  lemma Uint64Exact(n: int)
    ensures Uint64(n) <= 0xffff_ffff_ffff_ffff && Uint64(n + 0x1_0000_0000_0000_0000) == Uint64(n)
    ensures 0 <= n <= 0xffff_ffff_ffff_ffff ==> Uint64(n) == n
  {
    assert (n + WRAP) / WRAP == n / WRAP + 1;
  }

  // ---------- Walking back ----------

  /** The hash `n` parents before `h`; None where GetBlock finds nothing and Go panics. */
  function Walk(db: Blocks, h: Bytes, n: nat): Option<Bytes>
    decreases n
  {
    if n == 0 then Some(h)
    else if h !in db then None
    else Walk(db, db[h].prevHash, n - 1)
  }

  /** `h` is `n` parents before `from`, and not fewer. */
  ghost predicate Behind(db: Blocks, from: Bytes, h: Bytes, n: nat) {
    Walk(db, from, n) == Some(h) && forall k | 0 <= k < n :: Walk(db, from, k) != Some(h)
  }

  lemma {:induction false} WalkOn(db: Blocks, h: Bytes, m: nat, n: nat)
    requires Walk(db, h, m).Some?
    ensures Walk(db, h, m + n) == Walk(db, Walk(db, h, m).value, n)
    decreases m
  {
    if m > 0 {
      WalkOn(db, db[h].prevHash, m - 1, n);
    }
  }

  lemma {:induction false} WalkPart(db: Blocks, h: Bytes, m: nat, n: nat)
    requires Walk(db, h, n).Some? && m <= n
    ensures Walk(db, h, m).Some?
    decreases m
  {
    if m > 0 {
      WalkPart(db, db[h].prevHash, m - 1, n - 1);
    }
  }

  lemma WalkLonger(db: Blocks, h: Bytes, m: nat, n: nat)
    requires Walk(db, h, m).None? && m <= n
    ensures Walk(db, h, n).None?
  {
    if Walk(db, h, n).Some? {
      WalkPart(db, h, m, n);
    }
  }

  /** Stopping `m` steps on the way, the rest is still ahead. */
  lemma BehindRest(db: Blocks, from: Bytes, h: Bytes, n: nat, m: nat)
    requires Behind(db, from, h, n) && m <= n
    ensures Walk(db, from, m).Some? && Behind(db, Walk(db, from, m).value, h, n - m)
  {
    WalkPart(db, from, m, n);
    WalkOn(db, from, m, n - m);
    forall k | 0 <= k < n - m
      ensures Walk(db, Walk(db, from, m).value, k) != Some(h)
    {
      WalkOn(db, from, m, k);
    }
  }

  // ---------- GetChainFromHash (block_chain.go:226-253) ----------

  /** The blocks from `h` back, newest first: at most `n`, and none from `stop` on. */
  function Gather(db: Blocks, h: Bytes, stop: Bytes, n: nat): Option<seq<Block>>
    decreases n
  {
    if n == 0 || h == stop then Some([])
    else if h !in db then None
    else Onto([db[h]], Gather(db, db[h].prevHash, stop, n - 1))
  }

  function Onto(front: seq<Block>, rest: Option<seq<Block>>): Option<seq<Block>> {
    if rest.None? then None else Some(front + rest.value)
  }

  function Min(a: nat, b: nat): nat {
    if a <= b then a else b
  }

  /** How many blocks are asked for, by the numbers of both ends. */
  function Count(last: nat, parent: nat, max: nat): nat {
    Min(Uint64(last - parent), max)
  }

  /** How many blocks are passed over first. */
  function Skip(last: nat, parent: nat, max: nat): nat {
    var start := Uint64(parent + Count(last, parent, max));
    if last > start then last - start else 0
  }

  function Served(db: Blocks, current: Block, hash: Bytes, max: nat): Option<seq<Block>> {
    if hash !in db then None
    else
      var last, parent := Uint64(current.number), Uint64(db[hash].number);
      var skip := Skip(last, parent, max);
      var h := Walk(db, current.hash, skip);
      if h.None? then None
      else if last - skip < parent then Some([])
      else Gather(db, h.value, hash, Count(last, parent, max))
  }

  /** Each block the child of the next. */
  ghost predicate Connected(chain: seq<Block>) {
    forall i :: 0 <= i < |chain| - 1 ==> chain[i].prevHash == chain[i + 1].hash
  }

  /** `chain` is the `n` blocks from `h` back. */
  ghost predicate Line(db: Blocks, h: Bytes, chain: seq<Block>) {
    forall i :: 0 <= i < |chain| ==>
      Walk(db, h, i).Some? && Walk(db, h, i).value in db && chain[i] == db[Walk(db, h, i).value]
  }

  lemma LineCons(db: Blocks, h: Bytes, rest: seq<Block>)
    requires h in db && Line(db, db[h].prevHash, rest)
    ensures Line(db, h, [db[h]] + rest)
  {
    forall i | 0 <= i < |rest| + 1
      ensures Walk(db, h, i).Some? && Walk(db, h, i).value in db && ([db[h]] + rest)[i] == db[Walk(db, h, i).value]
    {
      if i > 0 {
        assert Walk(db, h, i) == Walk(db, db[h].prevHash, i - 1);
      }
    }
  }

  lemma ConnectedCons(b: Block, rest: seq<Block>)
    requires Connected(rest) && (rest != [] ==> b.prevHash == rest[0].hash)
    ensures Connected([b] + rest)
  {
    var chain := [b] + rest;
    forall i | 0 <= i < |chain| - 1
      ensures chain[i].prevHash == chain[i + 1].hash
    {
      if i > 0 {
        assert chain[i] == rest[i - 1] && chain[i + 1] == rest[i];
      }
    }
  }

  /** What a walk towards a block `e` steps behind gathers. */
  ghost predicate GatheredTo(db: Blocks, h: Bytes, e: nat, n: nat, r: Option<seq<Block>>) {
    && r.Some? && |r.value| == Min(n, e) && Line(db, h, r.value) && Connected(r.value)
    && (r.value != [] ==> r.value[0].hash == h && Walk(db, h, |r.value|) == Some(r.value[|r.value| - 1].prevHash))
  }

  lemma {:induction false} Gathers(db: Blocks, h: Bytes, stop: Bytes, e: nat, n: nat)
    requires ByHash(db) && Behind(db, h, stop, e)
    ensures GatheredTo(db, h, e, n, Gather(db, h, stop, n))
    decreases n
  {
    assert e > 0 ==> Walk(db, h, 0) != Some(stop);
    if n > 0 && e > 0 {
      BehindRest(db, h, stop, e, 1);
      var up := db[h].prevHash;
      assert Walk(db, h, 1) == Walk(db, up, 0);
      Gathers(db, up, stop, e - 1, n - 1);
      var rest := Gather(db, up, stop, n - 1).value;
      LineCons(db, h, rest);
      ConnectedCons(db[h], rest);
      assert Walk(db, h, |rest| + 1) == Walk(db, up, |rest|);
    }
  }

  /** Whatever it stops at, a walk gathers blocks in a row. */
  lemma {:induction false} GatherLine(db: Blocks, h: Bytes, stop: Bytes, n: nat)
    requires ByHash(db)
    ensures var r := Gather(db, h, stop, n);
            && (r.None? ==> Walk(db, h, n).None?)
            && (r.Some? ==>
                  && |r.value| <= n && Line(db, h, r.value) && Connected(r.value)
                  && (|r.value| < n ==> Walk(db, h, |r.value|) == Some(stop))
                  && (r.value != [] ==> r.value[0].hash == h))
    decreases n
  {
    if n > 0 && h != stop && h in db {
      GatherLine(db, db[h].prevHash, stop, n - 1);
    }
    if Gather(db, h, stop, n).Some? && n > 0 && h != stop {
      var rest := Gather(db, db[h].prevHash, stop, n - 1).value;
      LineCons(db, h, rest);
      ConnectedCons(db[h], rest);
    }
  }

  /** The blocks passed over when the numbers of both ends are `gap` apart. */
  function Passed(gap: nat, max: nat): nat {
    gap - Min(gap, max)
  }

  /**
   The range served for a hash `d` blocks behind the current one, when their numbers are `gap` apart: it reaches down
   to the hash if and only if there are no more blocks between than the numbers say, and it is as long as the numbers
   say if and only if there are no fewer.
   */
  ghost predicate ServedAbove(db: Blocks, current: Block, hash: Bytes, max: nat, d: nat, gap: nat) {
    var r := Served(db, current, hash, max);
    && r.Some? && (r.value != [] ==> (r.value[|r.value| - 1].prevHash == hash <==> d <= gap))
    && (|r.value| == Min(gap, max) <==> gap <= d)
  }

  /**
   What is served for any hash on the current chain: blocks in a row, newest first, from where the passing over stops;
   those above the hash unless more are passed over than there are, and then blocks below it, or a panic where the
   chain ends; it is shorter than the numbers say only where it comes upon the hash. There is nothing at all when the
   current block has the lower number.
   */
  lemma ServedRange(db: Blocks, current: Block, hash: Bytes, max: nat, d: nat)
    requires ByHash(db) && hash in db && Behind(db, current.hash, hash, d)
    ensures var r, gap := Served(db, current, hash, max), Uint64(current.number) - Uint64(db[hash].number);
            if gap < 0 then
              r in {None, Some([])} && (Uint64(db[hash].number) + max < WRAP ==> r == Some([]))
            else (
              && (Passed(gap, max) <= d ==> ServedAbove(db, current, hash, max, d, gap))
              && (r.None? ==> Walk(db, current.hash, Passed(gap, max) + Min(gap, max)).None?)
              && (r.Some? ==>
                    var h := Walk(db, current.hash, Passed(gap, max));
                    && h.Some? && Line(db, h.value, r.value) && Connected(r.value) && |r.value| <= Min(gap, max)
                    && (|r.value| < Min(gap, max) ==> Walk(db, h.value, |r.value|) == Some(hash)))
            )
  {
    var last, parent := Uint64(current.number), Uint64(db[hash].number);
    if last >= parent {
      var skip := Passed(last - parent, max);
      assert Count(last, parent, max) == Min(last - parent, max);
      assert Skip(last, parent, max) == skip;
      var h := Walk(db, current.hash, skip);
      if h.None? {
        WalkLonger(db, current.hash, skip, skip + Min(last - parent, max));
      } else {
        WalkOn(db, current.hash, skip, Min(last - parent, max));
        GatherLine(db, h.value, hash, Min(last - parent, max));
      }
      if skip <= d {
        BehindRest(db, current.hash, hash, d, skip);
        Gathers(db, h.value, hash, d - skip, Min(last - parent, max));
      }
    }
  }

  /** Every stored block is numbered one above its parent. */
  ghost predicate WellNumbered(db: Blocks) {
    forall h :: h in db && db[h].prevHash in db ==> db[h].number == db[db[h].prevHash].number + 1
  }

  lemma {:induction false} NumbersCount(db: Blocks, from: Bytes, h: Bytes, d: nat)
    requires WellNumbered(db) && h in db && Walk(db, from, d) == Some(h)
    ensures from in db && db[from].number == db[h].number + d
    decreases d
  {
    if d > 0 {
      NumbersCount(db, db[from].prevHash, h, d - 1);
    }
  }

  lemma SmallNumber(n: nat)
    requires n < WRAP
    ensures Uint64(n) == n
  {}

  /** On a well-numbered chain: exactly the oldest `Min(d, max)` blocks above the hash, down to its child. */
  lemma ServesAbove(db: Blocks, current: Block, hash: Bytes, max: nat, d: nat)
    requires ByHash(db) && WellNumbered(db) && hash in db && current.hash in db && db[current.hash] == current
    requires Behind(db, current.hash, hash, d) && current.number < WRAP
    ensures var r := Served(db, current, hash, max);
            && r.Some? && |r.value| == (if d <= max then d else max) && Connected(r.value)
            && Walk(db, current.hash, d - Min(d, max)).Some?
            && Line(db, Walk(db, current.hash, d - Min(d, max)).value, r.value)
            && (r.value != [] ==> r.value[|r.value| - 1].prevHash == hash)
  {
    NumbersCount(db, current.hash, hash, d);
    SmallNumber(current.number);
    SmallNumber(db[hash].number);
    ServedRange(db, current, hash, max, d);
  }

  // ---------- GetChain (block_chain.go:255-271) ----------

  /** At most `n` blocks ending at `h`, oldest first, from the genesis block on at the earliest. */
  function Ending(db: Blocks, genesis: Bytes, h: Bytes, n: nat): seq<Block>
    decreases n
  {
    if n == 0 || h !in db then []
    else (if db[h].hash == genesis then [] else Ending(db, genesis, db[h].prevHash, n - 1)) + [db[h]]
  }

  /**
   They follow one another up to the block of the hash, and stop short of `n` only at the genesis block or where a
   parent is missing. They are blocks of the chain, and none is behind the genesis block.
   */
  lemma {:induction false} EndingFollows(db: Blocks, genesis: Bytes, h: Bytes, n: nat)
    requires ByHash(db)
    ensures var r := Ending(db, genesis, h, n);
            && |r| <= n && (r == [] <==> n == 0 || h !in db) && (r != [] ==> r[|r| - 1].hash == h)
            && (forall i :: 0 <= i < |r| - 1 ==> r[i + 1].prevHash == r[i].hash)
            && (0 < |r| < n ==> r[0].hash == genesis || r[0].prevHash !in db)
            && (forall i :: 0 <= i < |r| ==> r[i].hash in db && r[i] == db[r[i].hash])
            && (forall i :: 0 < i < |r| ==> r[i].hash != genesis)
    decreases n
  {
    if n > 0 && h in db && h != genesis {
      EndingFollows(db, genesis, db[h].prevHash, n - 1);
    }
  }

  // ---------- Taking blocks in ----------

  function Sum(xs: seq<nat>): nat {
    if xs == [] then 0 else Sum(xs[..|xs| - 1]) + xs[|xs| - 1]
  }

  /** What a block adds to the total difficulty. */
  function Weight(b: Block): nat {
    Sum(b.uncles) + b.difficulty
  }

  /** Without uncles it is the block's own difficulty; every uncle adds its own. */
  lemma {:induction false} WeightExact(b: Block, more: seq<nat>, d: nat)
    ensures Weight(b.(uncles := [])) == b.difficulty
    ensures Weight(b.(uncles := more + [d])) == Weight(b.(uncles := more)) + d
  {
    assert (more + [d])[..|more|] == more;
  }

  datatype Tip = Tip(db: Blocks, current: Block, td: int)

  /** A block without an error: a known one or one without weight changes nothing, and neither is reported. */
  function Accepted(t: Tip, b: Block): Tip {
    if b.hash in t.db || Weight(b) == 0 then t else Tip(t.db[b.hash := b], b, t.td + Weight(b))
  }

  /** The last block first. */
  function AcceptedAll(t: Tip, blocks: seq<Block>): Tip {
    if blocks == [] then t else Accepted(AcceptedAll(t, blocks[1..]), blocks[0])
  }

  /**
   A receiver that holds the parent of the last of connected blocks meets an unknown parent exactly when the block
   it took in just before was new and without weight, and so was silently not added.
   */
  lemma UnknownParent(t: Tip, chain: seq<Block>, left: nat)
    requires Connected(chain) && 0 < left <= |chain| && chain[|chain| - 1].prevHash in t.db
    ensures chain[left - 1].prevHash !in AcceptedAll(t, chain[left..]).db <==>
      left < |chain| && Weight(chain[left]) == 0 && chain[left].hash !in AcceptedAll(t, chain[left + 1..]).db
  {
    if left < |chain| {
      assert chain[left..][1..] == chain[left + 1..];
      assert chain[left - 1].prevHash == chain[left].hash;
    }
  }

  /** Blocks that are all known change nothing: a receiver that already holds the range asks for the same one again. */
  lemma {:induction false} KnownRangeRepeats(t: Tip, blocks: seq<Block>)
    requires forall b :: b in blocks ==> b.hash in t.db
    ensures AcceptedAll(t, blocks) == t
  {
    if blocks != [] {
      KnownRangeRepeats(t, blocks[1..]);
      assert blocks[0] in blocks;
    }
  }

  function Weights(blocks: seq<Block>): nat {
    if blocks == [] then 0 else Weights(blocks[1..]) + Weight(blocks[0])
  }

  ghost predicate HasHash(blocks: seq<Block>, h: Bytes) {
    exists i :: 0 <= i < |blocks| && blocks[i].hash == h
  }

  /** New blocks with weight and different hashes. */
  ghost predicate AllNew(db: Blocks, blocks: seq<Block>) {
    && (forall b :: b in blocks ==> b.hash !in db && Weight(b) > 0)
    && (forall i, j :: 0 <= i < j < |blocks| ==> blocks[i].hash != blocks[j].hash)
  }

  /** They are all added, the first of them is the new current block, and the total grows by all their weights. */
  lemma {:induction false} AllAdded(t: Tip, blocks: seq<Block>)
    requires AllNew(t.db, blocks)
    ensures var u := AcceptedAll(t, blocks);
            && u.td == t.td + Weights(blocks) && u.current == (if blocks == [] then t.current else blocks[0])
            && (forall h :: h in u.db <==> h in t.db || HasHash(blocks, h))
  {
    if blocks != [] {
      AllAdded(t, blocks[1..]);
      assert forall i :: 0 <= i < |blocks[1..]| ==> blocks[1..][i] == blocks[i + 1];
      HashesOf(blocks);
    }
  }

  lemma HashesOf(blocks: seq<Block>)
    requires blocks != []
    ensures forall h :: HasHash(blocks, h) <==> HasHash(blocks[1..], h) || h == blocks[0].hash
  {
    forall h ensures HasHash(blocks, h) <==> HasHash(blocks[1..], h) || h == blocks[0].hash {
      if HasHash(blocks[1..], h) {
        var i :| 0 <= i < |blocks[1..]| && blocks[1..][i].hash == h;
        assert blocks[i + 1].hash == h;
      }
      if HasHash(blocks, h) && h != blocks[0].hash {
        var i :| 0 <= i < |blocks| && blocks[i].hash == h;
        assert blocks[1..][i - 1].hash == h;
      }
    }
  }

  // ---------- The chain as an object ----------

  datatype ProcessError = ParentErr | Rejected

  /** Process has no error: the parent is known, and the block is known or checks out. */
  predicate Passes(checks: Checks, t: Tip, b: Block) {
    && b.prevHash in t.db
    && (b.hash in t.db || checks(t.current, t.db[b.prevHash], b))
  }

  /** The blocks from `left` on pass, each behind those that come after it. */
  ghost predicate AllPass(checks: Checks, t: Tip, blocks: seq<Block>, left: nat) {
    left <= |blocks| && forall i :: left <= i < |blocks| ==> PassesAt(checks, t, blocks, i)
  }

  ghost predicate PassesAt(checks: Checks, t: Tip, blocks: seq<Block>, i: nat)
    requires i < |blocks|
  {
    Passes(checks, AcceptedAll(t, blocks[i + 1..]), blocks[i])
  }

  /** The last block that does not pass behind those that came after it; `left` is 0 if there is none. */
  ghost predicate StopsAt(checks: Checks, t: Tip, blocks: seq<Block>, left: nat) {
    && AllPass(checks, t, blocks, left)
    && (left > 0 ==> !PassesAt(checks, t, blocks, left - 1))
  }

  ghost predicate AllKnown(db: Blocks, blocks: seq<Block>) {
    forall b :: b in blocks ==> b.hash in db && b.prevHash in db
  }

  /** Known blocks whose parents are known all pass, and change nothing. */
  lemma KnownPass(checks: Checks, t: Tip, blocks: seq<Block>, left: nat)
    requires AllKnown(t.db, blocks) && StopsAt(checks, t, blocks, left)
    ensures left == 0 && AcceptedAll(t, blocks[left..]) == t
  {
    assert left > 0 ==> blocks[left - 1] in blocks;
    KnownRangeRepeats(t, blocks[left..]);
  }

  class BlockChain {
    const checks: Checks
    var db: Blocks
    var current: Block
    var td: int

    ghost predicate Valid()
      reads this
    {
      ByHash(db) && current.hash in db && db[current.hash] == current
    }

    constructor (genesis: Block, td: int, checks: Checks)
      ensures Valid() && db == map[genesis.hash := genesis] && current == genesis && this.td == td
      ensures this.checks == checks
    {
      db, current, this.td, this.checks := map[genesis.hash := genesis], genesis, td, checks;
    }

    predicate HasBlock(hash: Bytes)
      reads this
    {
      hash in db
    }

    method GetBlock(hash: Bytes) returns (b: Option<Block>)
      ensures b == if hash in db then Some(db[hash]) else None
    {
      b := if hash in db then Some(db[hash]) else None;
    }

    method Add(block: Block)
      requires Valid()
      modifies this
      ensures Valid() && db == old(db)[block.hash := block] && current == block && td == old(td)
    {
      current := block;
      db := db[block.hash := block];
    }

    function State(): Tip
      reads this
    {
      Tip(db, current, td)
    }

    /** CalculateTD: the difficulties of a block and its uncles have to raise the total. */
    method CalculateTD(block: Block) returns (ok: bool)
      modifies this`td
      ensures ok <==> Weight(block) > 0
      ensures td == old(td) + Weight(block)
    {
      var uncleDiff := 0;
      for i := 0 to |block.uncles|
        invariant uncleDiff == Sum(block.uncles[..i])
      {
        assert block.uncles[..i + 1][..i] == block.uncles[..i];
        uncleDiff := uncleDiff + block.uncles[i];
      }
      assert block.uncles[..|block.uncles|] == block.uncles;
      var total := td + uncleDiff + block.difficulty;
      ok := total > td;
      if ok {
        td := total;
      }
    }

    /**
     Process and ProcessBlock: a known block is passed over; one that checks out is added with its weight, unless it has
     none.
     */
    method Process(block: Block) returns (err: Option<ProcessError>)
      requires Valid()
      modifies this
      ensures Valid()
      ensures err == Some(ParentErr) <==> block.prevHash !in old(db)
      ensures err == Some(Rejected) <==>
        block.prevHash in old(db) && block.hash !in old(db) && !checks(old(current), old(db)[block.prevHash], block)
      ensures err.None? <==> Passes(checks, old(State()), block)
      ensures err.Some? || block.hash in old(db) ==> unchanged(this)
      ensures State() == if err.None? then Accepted(old(State()), block) else old(State())
    {
      if !HasBlock(block.prevHash) {
        return Some(ParentErr);
      }
      var parent := GetBlock(block.prevHash);
      if HasBlock(block.hash) {
        return None;
      }
      if !checks(current, parent.value, block) {  // transactions, uncles, time, nonce, root
        return Some(Rejected);
      }
      var ok := CalculateTD(block);
      if ok {
        Add(block);
      }
      err := None;
    }

    /**
     The loop of MsgBlockTy: from the last block to the first, until one fails. `left` blocks have not gone through.
     */
    method Receive(blocks: seq<Block>) returns (err: Option<ProcessError>, left: nat)
      requires Valid()
      modifies this
      ensures Valid() && left <= |blocks| && (err.None? <==> left == 0)
      ensures State() == AcceptedAll(old(State()), blocks[left..])
      ensures err == Some(ParentErr) <==> left > 0 && blocks[left - 1].prevHash !in db
      ensures StopsAt(checks, old(State()), blocks, left)
    {
      left := |blocks|;
      err := None;
      while left > 0
        invariant Valid() && left <= |blocks| && err.None?
        invariant State() == AcceptedAll(old(State()), blocks[left..])
        invariant AllPass(checks, old(State()), blocks, left)
      {
        err := Process(blocks[left - 1]);
        if err.Some? {
          return;
        }
        assert blocks[left - 1..][1..] == blocks[left..];
        left := left - 1;
      }
    }

    /** None: Go panics on a block that is not there. */
    method GetChainFromHash(hash: Bytes, max: nat) returns (chain: Option<seq<Block>>)
      requires Valid()
      ensures chain == Served(db, current, hash, max)
    {
      var parent := GetBlock(hash);
      if parent.None? {
        return None;
      }
      var lastNumber: int := Uint64(current.number);
      var parentNumber: int := Uint64(parent.value.number);
      var count := Min(Uint64(lastNumber - parentNumber), max);
      var startNumber := Uint64(parentNumber + count);
      var num, h := PassOver(lastNumber, startNumber);
      if h.None? {
        return None;
      }
      chain := Collect(h.value, hash, num, parentNumber, count);
    }

    /** GetChain: parents are put in front one by one. */
    method GetChain(genesis: Bytes, hash: Bytes, amount: nat) returns (blocks: seq<Block>)
      requires Valid()
      ensures blocks == Ending(db, genesis, hash, amount)
    {
      blocks := [];
      var block := GetBlock(hash);
      var h := hash;
      var i := 0;
      while i < amount && block.Some?
        invariant i <= amount && block == (if h in db then Some(db[h]) else None)
        invariant Ending(db, genesis, hash, amount) == Ending(db, genesis, h, amount - i) + blocks
        decreases amount - i
      {
        InFront(Ending(db, genesis, block.value.prevHash, amount - i - 1), block.value, blocks);
        blocks := [block.value] + blocks;
        if genesis == block.value.hash {
          return;
        }
        i := i + 1;
        h := block.value.prevHash;
        block := GetBlock(h);
      }
      assert [] + blocks == blocks;
    }

    /** The first loop: back from the current block to the number where the range starts. */
    method PassOver(lastNumber: nat, startNumber: nat) returns (num: nat, currentHash: Option<Bytes>)
      ensures currentHash == Walk(db, current.hash, if lastNumber > startNumber then lastNumber - startNumber else 0)
      ensures currentHash.Some? ==> num == if lastNumber > startNumber then startNumber else lastNumber
    {
      num := lastNumber;
      var h := current.hash;
      ghost var all := if lastNumber > startNumber then lastNumber - startNumber else 0;
      while num > startNumber
        invariant num <= lastNumber && (num < lastNumber ==> num >= startNumber)
        invariant lastNumber - num <= all
        invariant Walk(db, current.hash, all) == Walk(db, h, all - (lastNumber - num))
      {
        var b := GetBlock(h);
        if b.None? {
          return num, None;
        }
        h := b.value.prevHash;
        num := num - 1;
      }
      currentHash := Some(h);
    }

    /** The second loop: `count` blocks, unless the hash comes first. */
    method Collect(start: Bytes, hash: Bytes, num0: nat, parentNumber: nat,
                   count: nat) returns (chain: Option<seq<Block>>)
      requires num0 >= parentNumber ==> num0 >= parentNumber + count
      ensures chain == if num0 < parentNumber then Some([]) else Gather(db, start, hash, count)
    {
      var num: int := num0;
      var currentHash := start;
      var blocks: seq<Block> := [];
      var i := 0;
      OntoNothing(Gather(db, start, hash, count));
      while currentHash != hash && num >= parentNumber && i < count
        invariant i <= count && num == num0 - i
        invariant num0 < parentNumber ==> i == 0 && blocks == []
        invariant num0 >= parentNumber ==>
                    Gather(db, start, hash, count) == Onto(blocks, Gather(db, currentHash, hash, count - i))
        decreases count - i
      {
        var b := GetBlock(currentHash);
        if b.None? {
          return None;
        }
        ghost var rest := Gather(db, b.value.prevHash, hash, count - i - 1);
        OntoOnto(blocks, [b.value], rest);
        currentHash := b.value.prevHash;
        blocks := blocks + [b.value];
        num := num - 1;
        i := i + 1;
      }
      chain := Some(blocks);
      assert blocks + [] == blocks;
    }
  }

  lemma InFront(a: seq<Block>, b: Block, c: seq<Block>)
    ensures (a + [b]) + c == a + ([b] + c) && ([] + [b]) + c == [b] + c
  {}

  lemma OntoNothing(r: Option<seq<Block>>)
    ensures Onto([], r) == r
  {
    if r.Some? {
      assert [] + r.value == r.value;
    }
  }

  lemma OntoOnto(a: seq<Block>, b: seq<Block>, rest: Option<seq<Block>>)
    ensures Onto(a, Onto(b, rest)) == Onto(a + b, rest)
  {
    if rest.Some? {
      assert a + (b + rest.value) == (a + b) + rest.value;
    }
  }

  // ---------- The two peers (peer.go:331-417, 452-494, 694-706) ----------

  datatype Reply = Blocks(blocks: seq<Block>) | NotInChain(hash: Bytes) | Nothing

  const ASKED: nat := 100

  class Peer {
    const chain: BlockChain
    var catchingUp: bool

    constructor (chain: BlockChain)
      ensures this.chain == chain && !catchingUp
    {
      this.chain, catchingUp := chain, false;
    }

    /** A request, if none is under way: the hash to start from. */
    method CatchupWithPeer(hash: Bytes) returns (request: Option<Bytes>)
      modifies this
      ensures catchingUp && request == if old(catchingUp) then None else Some(hash)
    {
      request := None;
      if !catchingUp {
        catchingUp := true;
        request := Some(hash);
      }
    }

    /** MsgGetChainTy, without the count at the end of the message; None when Go panics. */
    method HandleGetChain(hashes: seq<Bytes>) returns (reply: Option<Reply>)
      requires chain.Valid()
      ensures hashes == [] ==> reply == Some(Nothing)
      ensures hashes != [] && (forall i :: 0 <= i < |hashes| ==> hashes[i] !in chain.db) ==>
                reply == Some(NotInChain(hashes[|hashes| - 1]))
      ensures forall i :: 0 <= i < |hashes| && hashes[i] in chain.db &&
                          (forall j :: 0 <= j < i ==> hashes[j] !in chain.db) ==>
        reply == AsReply(Served(chain.db, chain.current, hashes[i], 100))
    {
      for i := 0 to |hashes|
        invariant forall j :: 0 <= j < i ==> hashes[j] !in chain.db
      {
        if chain.HasBlock(hashes[i]) {
          var blocks := chain.GetChainFromHash(hashes[i], ASKED);
          return AsReply(blocks);
        }
      }
      reply := Some(if hashes == [] then Nothing else NotInChain(hashes[|hashes| - 1]));
    }

    /** MsgBlockTy of a peer that has not diverted: what it takes in, and its next request. */
    method HandleBlocks(blocks: seq<Block>) returns (request: Option<Bytes>, err: Option<ProcessError>, ghost left: nat)
      requires chain.Valid()
      modifies this, chain
      ensures chain.Valid() && left <= |blocks| && (err.None? <==> left == 0)
      ensures chain.State() == AcceptedAll(old(chain.State()), blocks[left..])
      ensures err == Some(ParentErr) <==> left > 0 && blocks[left - 1].prevHash !in chain.db
      ensures StopsAt(chain.checks, old(chain.State()), blocks, left)
      ensures AllKnown(old(chain.db), blocks) ==>
        && err.None? && chain.State() == old(chain.State())
        && request == if old(catchingUp) && |blocks| > 1 then Some(old(chain.current).hash) else None
      ensures err.None? ==> request == if old(catchingUp) && |blocks| > 1 then Some(chain.current.hash) else None
      ensures err.None? ==> catchingUp == (old(catchingUp) && blocks != [])
      ensures err == Some(ParentErr) ==> request == Some(chain.current.hash) && catchingUp
      ensures err == Some(Rejected) ==> request == None && (catchingUp ==> old(catchingUp))
    {
      request := None;
      var l;
      ghost var before := chain.State();
      err, l := chain.Receive(blocks);
      left := l;
      if AllKnown(before.db, blocks) {
        KnownPass(chain.checks, before, blocks, left);
      }
      if |blocks| == 0 {
        catchingUp := false;
      }
      if err.Some? {
        if err == Some(ParentErr) {
          catchingUp := false;
          request := CatchupWithPeer(chain.current.hash);
        } else {
          var validation: bool := *;             // a validation error, or a wrong root
          if validation {
            catchingUp := false;
          }
        }
      } else if catchingUp && |blocks| > 1 {
        catchingUp := false;
        request := CatchupWithPeer(chain.current.hash);
      }
    }
  }

  function AsReply(r: Option<seq<Block>>): Option<Reply> {
    if r.None? then None else Some(Blocks(r.value))
  }

  /** A server's chain: numbered, with weight on every block. */
  ghost predicate Good(db: Blocks) {
    ByHash(db) && WellNumbered(db) && forall h :: h in db ==> Weight(db[h]) > 0 && db[h].number < WRAP
  }

  /** None of the `d` newest blocks is known. */
  ghost predicate Unknown(db: Blocks, from: Bytes, d: nat, known: Blocks) {
    forall k :: 0 <= k < d && Walk(db, from, k).Some? ==> Walk(db, from, k).value !in known
  }

  /** On a numbered chain no hash comes twice. */
  lemma WalksDiffer(db: Blocks, from: Bytes, i: nat, j: nat)
    requires WellNumbered(db) && i < j && Walk(db, from, j).Some? && Walk(db, from, j).value in db
    ensures Walk(db, from, i) != Walk(db, from, j)
  {
    if Walk(db, from, i) == Walk(db, from, j) {
      NumbersCount(db, from, Walk(db, from, j).value, i);
      NumbersCount(db, from, Walk(db, from, j).value, j);
    }
  }

  lemma StoredBehind(db: Blocks, from: Bytes, h: Bytes, d: nat)
    requires WellNumbered(db) && h in db && Walk(db, from, d) == Some(h)
    ensures Behind(db, from, h, d)
  {
    forall k | 0 <= k < d
      ensures Walk(db, from, k) != Some(h)
    {
      WalksDiffer(db, from, k, d);
    }
  }

  /** `b` is the block `n` steps back. */
  ghost predicate IsAt(db: Blocks, from: Bytes, n: nat, b: Block) {
    Walk(db, from, n) == Some(b.hash) && b.hash in db && db[b.hash] == b
  }

  /** `r` is the blocks from `base` to `base + |r|` steps back. */
  ghost predicate Stretch(db: Blocks, from: Bytes, base: nat, r: seq<Block>) {
    forall i :: 0 <= i < |r| ==> IsAt(db, from, base + i, r[i])
  }

  lemma LineIsStretch(db: Blocks, from: Bytes, base: nat, r: seq<Block>)
    requires ByHash(db) && Walk(db, from, base).Some? && Line(db, Walk(db, from, base).value, r)
    ensures Stretch(db, from, base, r)
  {
    forall i | 0 <= i < |r|
      ensures IsAt(db, from, base + i, r[i])
    {
      WalkOn(db, from, base, i);
    }
  }

  lemma StretchNew(db: Blocks, from: Bytes, base: nat, r: seq<Block>, known: Blocks)
    requires Good(db) && Stretch(db, from, base, r) && Unknown(db, from, base + |r|, known)
    ensures AllNew(known, r)
  {
    forall i, j | 0 <= i < j < |r|
      ensures r[i].hash != r[j].hash
    {
      assert IsAt(db, from, base + i, r[i]) && IsAt(db, from, base + j, r[j]);
      WalksDiffer(db, from, base + i, base + j);
    }
    forall b | b in r
      ensures b.hash !in known && Weight(b) > 0
    {
      var i :| 0 <= i < |r| && r[i] == b;
      assert IsAt(db, from, base + i, r[i]);
    }
  }

  lemma StillUnknown(db: Blocks, from: Bytes, base: nat, r: seq<Block>, known: Blocks, now: Blocks)
    requires Good(db) && Stretch(db, from, base, r) && Unknown(db, from, base + |r|, known)
    requires forall h :: h in now <==> h in known || HasHash(r, h)
    ensures Unknown(db, from, base, now)
  {
    forall k | 0 <= k < base && Walk(db, from, k).Some?
      ensures Walk(db, from, k).value !in now
    {
      var h := Walk(db, from, k).value;
      forall i | 0 <= i < |r|
        ensures r[i].hash != h
      {
        assert IsAt(db, from, base + i, r[i]);
        WalksDiffer(db, from, k, base + i);
      }
    }
  }

  /** The receiver is `d` blocks behind, on the server's chain, and knows none of them. */
  ghost predicate BehindBy(server: Tip, t: Tip, d: nat) {
    && Good(server.db) && server.current.hash in server.db && server.db[server.current.hash] == server.current
    && t.current.hash in t.db && t.current.hash in server.db && t.db[t.current.hash] == t.current
    && server.db[t.current.hash] == t.current
    && Behind(server.db, server.current.hash, t.current.hash, d)
    && Unknown(server.db, server.current.hash, d, t.db)
  }

  /** The reply to a receiver that is `d` blocks behind: connected onto what it holds, and all new to it. */
  lemma RoundServes(server: Tip, t: Tip, d: nat)
    requires BehindBy(server, t, d)
    ensures var r := Served(server.db, server.current, t.current.hash, ASKED);
            && r.Some? && |r.value| == Min(d, ASKED) && Connected(r.value) && AllNew(t.db, r.value)
            && (r.value != [] ==> r.value[|r.value| - 1].prevHash in t.db)
            && Stretch(server.db, server.current.hash, d - Min(d, ASKED), r.value)
  {
    ServesAbove(server.db, server.current, t.current.hash, ASKED, d);
    ReplyIsNew(server, t, d, Served(server.db, server.current, t.current.hash, ASKED).value);
  }

  lemma ReplyIsNew(server: Tip, t: Tip, d: nat, r: seq<Block>)
    requires BehindBy(server, t, d) && |r| <= d && Walk(server.db, server.current.hash, d - |r|).Some?
    requires Line(server.db, Walk(server.db, server.current.hash, d - |r|).value, r)
    ensures AllNew(t.db, r) && Stretch(server.db, server.current.hash, d - |r|, r)
  {
    LineIsStretch(server.db, server.current.hash, d - |r|, r);
    StretchNew(server.db, server.current.hash, d - |r|, r, t.db);
  }

  /** Taken in whole, it brings the receiver that much closer. */
  lemma RoundCloser(server: Tip, t: Tip, d: nat, r: seq<Block>)
    requires BehindBy(server, t, d) && |r| <= d && AllNew(t.db, r)
    requires Stretch(server.db, server.current.hash, d - |r|, r)
    ensures BehindBy(server, AcceptedAll(t, r), d - |r|)
  {
    AllAdded(t, r);
    StillUnknown(server.db, server.current.hash, d - |r|, r, t.db, AcceptedAll(t, r).db);
    TipStored(t, r);
    if r != [] {
      assert IsAt(server.db, server.current.hash, d - |r| + 0, r[0]);
      StoredBehind(server.db, server.current.hash, r[0].hash, d - |r|);
    }
  }

  lemma {:induction false} TipStored(t: Tip, blocks: seq<Block>)
    requires t.current.hash in t.db && t.db[t.current.hash] == t.current
    ensures var u := AcceptedAll(t, blocks); u.current.hash in u.db && u.db[u.current.hash] == u.current
  {
    if blocks != [] {
      TipStored(t, blocks[1..]);
    }
  }

  /** Blocks that are all new never meet an unknown parent, however many of them have gone through. */
  lemma NoUnknownParent(t: Tip, chain: seq<Block>, left: nat)
    requires Connected(chain) && 0 < left <= |chain| && chain[|chain| - 1].prevHash in t.db && AllNew(t.db, chain)
    ensures chain[left - 1].prevHash in AcceptedAll(t, chain[left..]).db
  {
    UnknownParent(t, chain, left);
  }

  /** The block `k` steps back checks out on top of its parent. */
  ghost predicate ChecksAt(checks: Checks, db: Blocks, from: Bytes, k: nat) {
    var h := Walk(db, from, k);
    && h.Some? && h.value in db && db[h.value].prevHash in db
    && checks(db[db[h.value].prevHash], db[db[h.value].prevHash], db[h.value])
  }

  /** And so do all from `low` to `high` steps back. */
  ghost predicate AllCheck(checks: Checks, db: Blocks, from: Bytes, low: nat, high: nat) {
    forall k :: low <= k < high ==> ChecksAt(checks, db, from, k)
  }

  /** The block below the one at `i` in a reply: the next, or the current one of the receiver. */
  function Below(t: Tip, r: seq<Block>, i: nat): Block
    requires i < |r|
  {
    if i == |r| - 1 then t.current else r[i + 1]
  }

  /** Behind new blocks, the newest is the current one, and stored. */
  lemma OnTop(t: Tip, r: seq<Block>, i: nat)
    requires i < |r| && AllNew(t.db, r) && t.current.hash in t.db && t.db[t.current.hash] == t.current
    ensures var u := AcceptedAll(t, r[i + 1..]);
            && u.current == Below(t, r, i) && u.current.hash in u.db && u.db[u.current.hash] == u.current
            && r[i].hash !in u.db
  {
    var rest := r[i + 1..];
    assert forall k :: 0 <= k < |rest| ==> rest[k] == r[i + 1 + k];
    AllAdded(t, rest);
    TipStored(t, rest);
    assert r[i] in r;
  }

  /** A block of a reply passes if and only if it checks out where it stands on the server's chain. */
  lemma PassesThere(checks: Checks, server: Tip, t: Tip, d: nat, r: seq<Block>, i: nat)
    requires BehindBy(server, t, d) && |r| <= d && i < |r| && AllNew(t.db, r)
    requires Stretch(server.db, server.current.hash, d - |r|, r)
    ensures PassesAt(checks, t, r, i) <==>
            ChecksAt(checks, server.db, server.current.hash, d - |r| + i)
  {
    var from, n := server.current.hash, d - |r| + i;
    OnTop(t, r, i);
    ParentAt(server, t, d, r, i);
    assert IsAt(server.db, from, n, r[i]);
  }

  /** The blocks of a reply stand on one another, and the last on the receiver's current one. */
  lemma ParentAt(server: Tip, t: Tip, d: nat, r: seq<Block>, i: nat)
    requires BehindBy(server, t, d) && |r| <= d && i < |r|
    requires Stretch(server.db, server.current.hash, d - |r|, r)
    ensures r[i].prevHash in server.db && server.db[r[i].prevHash] == Below(t, r, i)
    ensures Below(t, r, i).hash == r[i].prevHash
  {
    var from, n := server.current.hash, d - |r| + i;
    assert IsAt(server.db, from, n, r[i]);
    WalkOn(server.db, from, n, 1);
    assert Walk(server.db, r[i].hash, 1) == Walk(server.db, r[i].prevHash, 0);
    if i < |r| - 1 {
      assert IsAt(server.db, from, d - |r| + (i + 1), r[i + 1]);
    }
  }

  /** A reply goes through if and only if all its blocks check out. */
  lemma GoesThrough(checks: Checks, server: Tip, t: Tip, d: nat, r: seq<Block>, left: nat)
    requires BehindBy(server, t, d) && |r| <= d && AllNew(t.db, r) && StopsAt(checks, t, r, left)
    requires Stretch(server.db, server.current.hash, d - |r|, r)
    ensures left == 0 <==> AllCheck(checks, server.db, server.current.hash, d - |r|, d)
  {
    forall k | d - |r| <= k < d && left == 0
      ensures ChecksAt(checks, server.db, server.current.hash, k)
    {
      PassesThere(checks, server, t, d, r, k - (d - |r|));
    }
    if left > 0 {
      PassesThere(checks, server, t, d, r, left - 1);
    }
  }

  /**
   However far a receiver gets with the reply, it holds the parent of the next block; at the end it is that much
   closer.
   */
  lemma RoundEnds(checks: Checks, server: Tip, t: Tip, d: nat, blocks: seq<Block>, left: nat)
    requires BehindBy(server, t, d) && left <= |blocks| && StopsAt(checks, t, blocks, left)
    requires Served(server.db, server.current, t.current.hash, ASKED) == Some(blocks)
    ensures |blocks| == Min(d, ASKED)
    ensures left > 0 ==> blocks[left - 1].prevHash in AcceptedAll(t, blocks[left..]).db
    ensures left == 0 ==> BehindBy(server, AcceptedAll(t, blocks[left..]), d - |blocks|)
    ensures left == 0 <==> AllCheck(checks, server.db, server.current.hash, d - |blocks|, d)
  {
    RoundServes(server, t, d);
    GoesThrough(checks, server, t, d, blocks, left);
    if left > 0 {
      NoUnknownParent(t, blocks, left);
    } else {
      assert blocks[0..] == blocks;
      RoundCloser(server, t, d, blocks);
    }
  }

  /** The reply to a single hash on the server's chain. */
  method ServeOne(server: Peer, ask: Bytes) returns (blocks: seq<Block>)
    requires server.chain.Valid() && ask in server.chain.db
    requires Served(server.chain.db, server.chain.current, ask, ASKED).Some?
    ensures Served(server.chain.db, server.chain.current, ask, ASKED) == Some(blocks)
  {
    var reply := server.HandleGetChain([ask]);
    blocks := reply.value.blocks;
  }

  /** What the receiver does with it. */
  method Take(receiver: Peer, blocks: seq<Block>, ghost server: Tip, ghost d: nat)
    returns (request: Option<Bytes>, err: Option<ProcessError>)
    requires receiver.chain.Valid() && receiver.catchingUp && BehindBy(server, receiver.chain.State(), d)
    requires Served(server.db, server.current, receiver.chain.current.hash, ASKED) == Some(blocks)
    modifies receiver, receiver.chain
    ensures receiver.chain.Valid() && err != Some(ParentErr)
    ensures err.None? <==> AllCheck(receiver.chain.checks, server.db, server.current.hash, d - Min(d, ASKED), d)
    ensures err.None? ==> BehindBy(server, receiver.chain.State(), d - Min(d, ASKED))
    ensures err.None? ==> (request.None? ==> d <= 1) && (request.Some? ==> d > 0)
    ensures err.None? && request.Some? ==> request.value == receiver.chain.current.hash && receiver.catchingUp
  {
    ghost var before := receiver.chain.State();
    ghost var left;
    request, err, left := receiver.HandleBlocks(blocks);
    RoundEnds(receiver.chain.checks, server, before, d, blocks, left);
  }

  /** One request, its reply, and what the receiver does with it. */
  method Round(server: Peer, receiver: Peer, ask: Bytes, ghost d: nat)
    returns (request: Option<Bytes>, err: Option<ProcessError>)
    requires server.chain != receiver.chain && server.chain.Valid() && receiver.chain.Valid() && receiver.catchingUp
    requires BehindBy(server.chain.State(), receiver.chain.State(), d) && ask == receiver.chain.current.hash
    modifies receiver, receiver.chain
    ensures receiver.chain.Valid() && err != Some(ParentErr)
    ensures err.None? <==>
            AllCheck(receiver.chain.checks, server.chain.db, server.chain.current.hash, d - Min(d, ASKED), d)
    ensures err.None? ==> BehindBy(server.chain.State(), receiver.chain.State(), d - Min(d, ASKED))
    ensures err.None? ==> (request.None? ==> d <= 1) && (request.Some? ==> d > 0)
    ensures err.None? && request.Some? ==> request.value == receiver.chain.current.hash && receiver.catchingUp
  {
    ghost var tip := server.chain.State();
    RoundServes(tip, receiver.chain.State(), d);
    var blocks := ServeOne(server, ask);
    request, err := Take(receiver, blocks, tip, d);
  }

  /**
   The whole exchange. A receiver that is `d` blocks behind on the server's chain never meets an unknown parent: it
   ends at the server's current block if each of these blocks checks out on top of its parent, and with an error
   otherwise.
   */
  method CatchUp(server: Peer, receiver: Peer, ghost d: nat) returns (err: Option<ProcessError>)
    requires server.chain != receiver.chain && server.chain.Valid() && receiver.chain.Valid() && !receiver.catchingUp
    requires BehindBy(server.chain.State(), receiver.chain.State(), d)
    modifies receiver, receiver.chain
    ensures receiver.chain.Valid() && err != Some(ParentErr)
    ensures err.None? <==> AllCheck(receiver.chain.checks, server.chain.db, server.chain.current.hash, 0, d)
    ensures err.None? ==> receiver.chain.current == server.chain.current
  {
    ghost var ahead: nat := d;
    err := None;
    var request := receiver.CatchupWithPeer(receiver.chain.current.hash);
    while request.Some?
      invariant receiver.chain.Valid() && err.None? && ahead <= d
      invariant BehindBy(server.chain.State(), receiver.chain.State(), ahead)
      invariant request.Some? ==> request.value == receiver.chain.current.hash && receiver.catchingUp
      invariant request.None? ==> ahead == 0
      invariant AllCheck(receiver.chain.checks, server.chain.db, server.chain.current.hash, ahead, d)
      decreases ahead, request.Some?
    {
      request, err := Round(server, receiver, request.value, ahead);
      ahead := ahead - Min(ahead, ASKED);
      if err.Some? {
        return;
      }
    }
    assert Walk(server.chain.db, server.chain.current.hash, 0) == Some(server.chain.current.hash);
  }
}
