/**
 The gas machine of ethchain/vm.go and ethchain/closure.go as it runs: a step loop with nested CALL and CREATE frames,
 which hand gas to and fro. A ghost ledger keeps the books, and every frame writes down its run (GasTraces).

 `limit` is how many turns of the loop are followed, in all frames together: what is promised of a run that is left
 unfinished holds after that many turns.
 */
module GasMachine {
  import opened ByteStrings
  import opened GasTraces

  // ---------- The stack (stack.go) ----------

  class Stack {
    var data: seq<int>

    constructor ()
      ensures data == []
    {
      data := [];
    }

    method Pop() returns (d: int)
      requires data != []
      modifies this
      ensures old(data) == data + [d]
    {
      d := data[|data| - 1];
      data := data[..|data| - 1];
    }

    /** The lower of the two words first. */
    method Popn() returns (a: int, b: int)
      requires |data| >= 2
      modifies this
      ensures old(data) == data + [a, b]
    {
      a, b := data[|data| - 2], data[|data| - 1];
      data := data[..|data| - 2];
    }

    /** The two words at the bottom of the stack. */
    method Peekn() returns (a: int, b: int)
      requires |data| >= 2
      ensures a == data[0] && b == data[1]
    {
      a, b := data[0], data[1];
    }

    method Push(d: int)
      modifies this
      ensures data == old(data) + [d]
    {
      data := data + [d];
    }
  }

  // ---------- Closures (closure.go) ----------

  /** The sender's state object, which the outermost frame returns its gas to. */
  class Account {
    var amount: int

    constructor (amount: int)
      ensures this.amount == amount
    {
      this.amount := amount;
    }

    /** StateObject.ReturnGas. */
    method ReturnGas(gas: int, price: int)
      modifies this
      ensures amount == old(amount) + gas * price
    {
      amount := amount + gas * price;
    }

    /** StateObject.ConvertGas. */
    method ConvertGas(gas: int, price: int) returns (ok: bool)
      modifies this
      ensures ok <==> gas * price <= old(amount)
      ensures amount == if ok then old(amount) - gas * price else old(amount)
    {
      var total := gas * price;
      if total > amount {
        return false;
      }
      amount := amount - total;
      return true;
    }
  }

  datatype Callee = ToAccount(account: Account) | ToClosure(closure: Closure)

  class Closure {
    const callee: Callee
    const script: Bytes
    const price: int
    /** The gas the frame was given. */
    ghost const start: int
    var gas: int
    var usedGas: int

    constructor (callee: Callee, script: Bytes, gas: int, price: int)
      ensures this.callee == callee && this.script == script && this.price == price
      ensures this.gas == start == gas && usedGas == 0
    {
      this.callee, this.script, this.price := callee, script, price;
      this.gas, start, usedGas := gas, gas, 0;
    }

    method UseGas(amount: int) returns (ok: bool)
      modifies this
      ensures ok <==> old(gas) >= amount
      ensures gas == if ok then old(gas) - amount else old(gas)
      ensures usedGas == if ok then old(usedGas) + amount else old(usedGas)
    {
      if gas < amount {
        return false;
      }
      gas := gas - amount;
      usedGas := usedGas + amount;
      return true;
    }

    method ReturnGas(amount: int)
      modifies this
      ensures gas == old(gas) + amount && usedGas == old(usedGas) - amount
    {
      gas := gas + amount;
      usedGas := usedGas - amount;
    }
  }

  // ---------- The books ----------

  ghost function Sum(g: seq<int>): int {
    if g == [] then 0 else Sum(g[..|g| - 1]) + g[|g| - 1]
  }

  /** `g` with `r` more for the frame at `k`; an index of -1 stands for the account, which is no frame. */
  ghost function Credited(g: seq<int>, k: int, r: int): (h: seq<int>)
    ensures |h| == |g|
  {
    if 0 <= k < |g| then g[k := g[k] + r] else g
  }

  lemma {:induction false} SumCredited(g: seq<int>, k: int, r: int)
    ensures Sum(Credited(g, k, r)) == Sum(g) + if 0 <= k < |g| then r else 0
  {
    var h := Credited(g, k, r);
    if g != [] {
      var n := |g| - 1;
      SumCredited(g[..n], k, r);
      assert h[..n] == Credited(g[..n], k, r);
    }
  }

  lemma SumPush(g: seq<int>, x: int)
    ensures Sum(g + [x]) == Sum(g) + x
  {
    assert (g + [x])[..|g|] == g;
  }

  lemma CreditedTwice(g: seq<int>, k: int, r: int, q: int)
    ensures Credited(Credited(g, k, r), k, q) == Credited(g, k, r + q)
  {}

  lemma Distribute(a: int, b: int, p: int)
    ensures (a + b) * p == a * p + b * p
  {}

  ghost predicate DistinctFrames(fs: seq<Closure>) {
    forall i, j :: 0 <= i < j < |fs| ==> fs[i] != fs[j]
  }

  /** The live frames and the gas each holds, outermost first, and the totals charged for steps and refunded. */
  class Ledger {
    ghost const start: int
    ghost const price: int
    const account: Account
    /** The account's amount when the run started. */
    ghost const opening: int
    ghost var live: seq<Closure>
    ghost var gas: seq<int>
    ghost var charged: int
    ghost var refunded: int

    /** Every live frame keeps Gas + UsedGas equal to the gas it was given. */
    ghost predicate FramesKeep()
      reads `live, `gas, live
    {
      && DistinctFrames(live) && |gas| == |live|
      && forall i :: 0 <= i < |live| ==>
           live[i].gas == gas[i] && live[i].gas + live[i].usedGas == live[i].start && live[i].price == price
    }

    ghost predicate SumsKeep()
      reads `gas, `charged, `refunded, account
    {
      && Sum(gas) + charged + refunded == start
      && account.amount == opening + refunded * price
    }

    ghost predicate Balanced()
      reads this, live, account
    {
      FramesKeep() && SumsKeep()
    }

    ghost predicate Running(f: Closure)
      reads this, live, account
    {
      Balanced() && live != [] && live[|live| - 1] == f
    }

    /** `k` is where the running frame's gas goes back to. */
    ghost predicate ReturnsTo(f: Closure, k: int)
      reads `live
    {
      if k == -1 then f.callee == ToAccount(account) else 0 <= k < |live| - 1 && f.callee == ToClosure(live[k])
    }

    ghost constructor (frame: Closure, account: Account)
      requires frame.usedGas == 0 && frame.start == frame.gas
      ensures Running(frame) && live == [frame] && start == frame.gas && charged == 0 && refunded == 0
      ensures this.account == account && opening == account.amount && price == frame.price
    {
      start, live, gas, charged, refunded := frame.gas, [frame], [frame.gas], 0, 0;
      this.account, opening, price := account, account.amount, frame.price;
      new;
      SumPush([], frame.gas);
      assert [] + [frame.gas] == [frame.gas];
    }
  }

  // ---------- Frames ----------

  /**
   What a frame started from: the live frames with it on top, the gas they held, the charge so far, and where its
   gas goes back to (-1: the account). Since then: `c` charged by it and its children, `a` handed past it.
   */
  datatype Tally = Tally(live: seq<Closure>, gas: seq<int>, charged: int, k: int, c: int, a: int)

  /** `t` with more charged and handed past. */
  function More(t: Tally, c: int, a: int): Tally {
    t.(c := t.c + c, a := t.a + a)
  }

  /**
   The frame's gas is what it started with, less both; the frame or account it returns to got what was handed past
   it.
   */
  ghost predicate Moved(t: Tally, gas: seq<int>) {
    var n := |t.gas| - 1;
    |gas| == |t.gas| > 0 && gas[..n] == Credited(t.gas[..n], t.k, t.a) && gas[n] == t.gas[n] - t.c - t.a
  }

  /** All its gas but the charge went to where its gas goes back to, and nowhere else. */
  ghost predicate Gone(t: Tally, gas: seq<int>) {
    var n := |t.gas| - 1;
    n >= 0 && gas == Credited(t.gas[..n], t.k, t.gas[n] - t.c)
  }

  /** The frame still runs, among the same live frames, and the books balance. */
  ghost predicate Going(ledger: Ledger, f: Closure, t: Tally)
    reads ledger, ledger.live, ledger.account
  {
    && ledger.Running(f) && ledger.live == t.live && ledger.ReturnsTo(f, t.k)
    && Moved(t, ledger.gas) && f.start == t.gas[|t.gas| - 1] && f.gas == f.start - t.c - t.a
    && ledger.charged == t.charged + t.c
  }

  /** The frame has returned: it is gone from the live frames, its gas with it, and the books balance. */
  ghost predicate Ended(ledger: Ledger, f: Closure, t: Tally)
    reads ledger, ledger.live, ledger.account, f
  {
    && ledger.Balanced() && t.live != [] && ledger.live == t.live[..|t.live| - 1]
    && Gone(t, ledger.gas) && ledger.charged == t.charged + t.c && f.usedGas == t.c + t.a
  }

  /** The running frame pays. */
  method Pay(f: Closure, amount: int, ghost ledger: Ledger)
    requires ledger.Running(f) && amount <= f.gas
    modifies f, ledger`charged, ledger`gas
    ensures ledger.Running(f) && f.gas == old(f.gas) - amount
    ensures ledger.charged == old(ledger.charged) + amount
    ensures ledger.gas == Credited(old(ledger.gas), |old(ledger.gas)| - 1, -amount)
  {
    var ok := f.UseGas(amount);
    ghost var n := |ledger.live| - 1;
    SumCredited(ledger.gas, n, -amount);
    ledger.gas := Credited(ledger.gas, n, -amount);
    ledger.charged := ledger.charged + amount;
  }

  lemma PayMoves(t: Tally, gas: seq<int>, amount: int)
    requires Moved(t, gas)
    ensures Moved(More(t, amount, 0), Credited(gas, |gas| - 1, -amount))
  {
    assert Credited(gas, |gas| - 1, -amount)[..|gas| - 1] == gas[..|gas| - 1];
  }

  /** The running frame pays for a step, or cannot. */
  method Charge(f: Closure, amount: int, ghost ledger: Ledger, ghost t: Tally) returns (ok: bool, ghost u: Tally)
    requires Going(ledger, f, t)
    modifies f, ledger`charged, ledger`gas
    ensures Going(ledger, f, u) && u == if ok then More(t, amount, 0) else t
    ensures ok <==> old(f.gas) >= amount
  {
    u := t;
    ok := f.gas >= amount;
    if ok {
      PayMoves(t, ledger.gas, amount);
      Pay(f, amount, ledger);
      u := More(t, amount, 0);
    }
  }

  /** The running frame hands `gas` to a new frame, which becomes the running one. */
  method Open(f: Closure, callee: Callee, script: Bytes, gas: int, ghost ledger: Ledger) returns (child: Closure)
    requires ledger.Running(f) && gas <= f.gas
    modifies f, ledger`live, ledger`gas
    ensures ledger.Running(child) && fresh(child)
    ensures ledger.live == old(ledger.live) + [child]
    ensures child.callee == callee && child.gas == child.start == gas && child.usedGas == 0 && child.script == script
    ensures ledger.gas == Credited(old(ledger.gas), |old(ledger.gas)| - 1, -gas) + [gas]
  {
    var paid := f.UseGas(gas);
    child := new Closure(callee, script, gas, f.price);
    ghost var n := |ledger.live| - 1;
    SumCredited(ledger.gas, n, -gas);
    ledger.gas := Credited(ledger.gas, n, -gas);
    SumPush(ledger.gas, gas);
    ledger.gas := ledger.gas + [gas];
    ledger.live := ledger.live + [child];
  }

  /** Closure.Return: what is left goes to the callee, and the frame is no longer live. */
  method Return(f: Closure, ghost ledger: Ledger, ghost t: Tally)
    requires Going(ledger, f, t)
    modifies ledger`live, ledger`gas, ledger`refunded, ledger.account, ledger.live
    ensures Ended(ledger, f, t)
  {
    match f.callee {
      case ToAccount(account) => ReturnToAccount(f, account, ledger);
      case ToClosure(c) => ReturnToFrame(f, c, ledger, t.k);
    }
    CreditedTwice(t.gas[..|t.gas| - 1], t.k, t.a, t.gas[|t.gas| - 1] - t.c - t.a);
  }

  method ReturnToAccount(f: Closure, account: Account, ghost ledger: Ledger)
    requires ledger.Running(f) && account == ledger.account
    modifies ledger`live, ledger`gas, ledger`refunded, ledger.account
    ensures ledger.Balanced() && ledger.live == old(ledger.live[..|ledger.live| - 1])
    ensures ledger.gas == old(ledger.gas[..|ledger.gas| - 1])
  {
    account.ReturnGas(f.gas, f.price);
    Distribute(ledger.refunded, f.gas, f.price);
    ledger.refunded := ledger.refunded + f.gas;
    ledger.live, ledger.gas := ledger.live[..|ledger.live| - 1], ledger.gas[..|ledger.live| - 1];
  }

  method ReturnToFrame(f: Closure, c: Closure, ghost ledger: Ledger, ghost k: int)
    requires ledger.Running(f) && 0 <= k < |ledger.live| - 1 && c == ledger.live[k]
    modifies ledger`live, ledger`gas, c
    ensures ledger.Balanced() && ledger.live == old(ledger.live[..|ledger.live| - 1])
    ensures ledger.gas == Credited(old(ledger.gas[..|ledger.gas| - 1]), k, old(f.gas))
    ensures f.gas == old(f.gas) && f.usedGas == old(f.usedGas)
  {
    c.ReturnGas(f.gas);
    ledger.live, ledger.gas := ledger.live[..|ledger.live| - 1], ledger.gas[..|ledger.live| - 1];
    SumCredited(ledger.gas, k, f.gas);
    ledger.gas := Credited(ledger.gas, k, f.gas);
  }

  /** A child that returns to its creator costs the creator what the child was charged. */
  lemma ChildOfCall(t: Tally, g0: seq<int>, g1: seq<int>, g2: seq<int>, gas: int, child: Tally)
    requires Moved(t, g0) && g1 == Credited(g0, |g0| - 1, -gas) + [gas]
    requires child.gas == g1 && child.k == |g0| - 1 && Gone(child, g2)
    ensures Moved(More(t, child.c, 0), g2)
  {
    assert g1[..|g0|] == Credited(g0, |g0| - 1, -gas);
  }

  /** A child that returns to its creator's callee costs the creator all its gas. */
  lemma ChildOfCreate(t: Tally, g0: seq<int>, g1: seq<int>, g2: seq<int>, gas: int, child: Tally)
    requires Moved(t, g0) && -1 <= t.k < |g0| - 1
    requires g1 == Credited(g0, |g0| - 1, -gas) + [gas]
    requires child.gas == g1 && child.k == t.k && Gone(child, g2)
    ensures Moved(More(t, child.c, gas - child.c), g2)
  {
    assert g1[..|g0|] == Credited(g0, |g0| - 1, -gas);
    CreditedTwice(t.gas[..|g0| - 1], t.k, t.a, gas - child.c);
  }

  // ---------- The ordinary opcodes (vm.go:157-424) ----------

  /** The price of a step; None when looking at the stack panics. */
  method StepPrice(op: nat, stack: Stack) returns (price: Option<int>)
    ensures price == None ==> Unpriced(op, stack.data)
    ensures price.Some? ==> PriceFits(op, stack.data, price.value)
    ensures op == CREATE ==> (price == None <==> |stack.data| < 3)
  {
    if op == SSTORE {
      if |stack.data| < 2 {
        // Peekn slices up to the capacity: an earlier word, or a panic.
        var stale: bool := *;
        if !stale {
          return None;
        }
        var y: int := *;
        var empty: bool := *;
        return Some(StorePrice(empty, y));
      }
      var y, x := stack.Peekn();
      var empty: bool := *;
      return Some(StorePrice(empty, y));
    }
    if op == CREATE {
      var n := |stack.data|;
      if n < 3 {
        return None;
      }
      return Some(CalculateTxGas(stack.data[n - 2] + stack.data[n - 3]));
    }
    return Some(FlatPrice(op));
  }

  /** Closure.Gets for a push: None when it panics. */
  method PushData(f: Closure, pc: int, n: nat) returns (data: Option<Bytes>)
    ensures PushBytes(f.script, pc, n).Some? ==> data == PushBytes(f.script, pc, n)
  {
    var x := Int64(pc);
    if x >= |f.script| || n >= |f.script| {
      return Some([]);
    }
    if x < 0 {
      return None;
    }
    if x + n <= |f.script| {
      return Some(f.script[x..x + n]);
    }
    // Beyond the script: bytes from its spare capacity, or a panic.
    data := *;
  }

  /** The words an ordinary opcode pushes; None when it panics. */
  method Results(op: nat, f: Closure, pc: int, args: seq<int>) returns (words: Option<seq<int>>)
    requires Ordinary(op) && |args| == Pops(op)
    ensures words.Some? ==> WordsFit(f.script, op, pc, args, None, words.value)
    ensures words.Some? ==> !(Divides(op) && args[1] == 0)
    ensures words.None? ==>
              || Touches(op) || (Divides(op) && args[1] == 0)
              || (Pushing(op) && PushBytes(f.script, pc + 1, op - PUSH1 + 1).None?)
  {
    if Touches(op) {
      var fails: bool := *;
      if fails {
        return None;
      }
    }
    if Divides(op) && args[1] == 0 {
      return None;
    }
    if Pushing(op) {
      var data := PushData(f, pc + 1, op - PUSH1 + 1);
      return if data.None? then None else Some([FromBigEndian(data.value)]);
    }
    words := Some(Others(op, pc, args));
    if words == Some([]) && Pushes(op) == 1 {
      var word: int := *;
      words := Some([word]);
    }
  }

  /** What is pushed by the opcodes that need nothing but the stack and the position; [] where it is left open. */
  function Others(op: nat, pc: int, args: seq<int>): seq<int>
    requires |args| == Pops(op)
  {
    if op == DUP then [args[0], args[0]]
    else if op == SWAP then [args[1], args[0]]
    else if op == PC then [pc]
    else if Computed(op, args).Some? then [Computed(op, args).value]
    else []
  }

  /** An ordinary opcode: its stack effect and where it goes on; a panic (None) when a requirement is not met. */
  method Ordinarily(op: nat, f: Closure, pc: int, stack: Stack, ghost price: int) returns (next: Option<int>)
    requires Ordinary(op)
    modifies stack
    ensures |old(stack.data)| < Pops(op) ==> next == None
    ensures next.Some? ==> GoesOn(f.script, Line(pc, op, price, old(stack.data), None), next.value, stack.data)
    ensures next.None? ==> MayPanic(f.script, Line(pc, op, price, old(stack.data), None))
  {
    var n := |stack.data|;
    if n < Pops(op) {
      return None;
    }
    var args := Args(op, stack.data);
    var words := Results(op, f, pc, args);
    if words.None? {
      return None;
    }
    next := Some(Target(op, pc, stack.data));
    stack.data := stack.data[..n - Pops(op)] + words.value;
  }

  // ---------- Child frames ----------

  /** A run of this frame that is written down in full, and what it took of the books. */
  ghost predicate Written(run: Run, script: Bytes, gas: int, exit: Exit, limit: nat, left: nat) {
    && WellRun(run) && run.script == script && run.gas == gas && run.exit == exit
    && left <= limit && Turns(run) == limit - left && (exit.Unfinished? ==> left == 0)
  }

  /** The tally is that of the run. */
  ghost predicate Tallied(t: Tally, run: Run) {
    t.c == Cost(run) && t.a == Ahead(run)
  }

  /** The creator of a child frame: where it stands and where its own gas goes back to. */
  ghost predicate Parent(account: Account, f: Closure, t: Tally, g0: seq<int>) {
    && Moved(t, g0) && t.live != [] && f == t.live[|t.live| - 1] && |t.live| == |g0|
    && -1 <= t.k < |t.live| - 1 && f.callee == (if t.k == -1 then ToAccount(account) else ToClosure(t.live[t.k]))
    && f.start == t.gas[|t.gas| - 1]
  }

  /** What a child frame is opened with, and where its gas goes. */
  ghost predicate Opened(v: Tally, live: seq<Closure>, held: seq<int>, charged: int, child: Closure, gas: int, k: int) {
    && v.live == live + [child] && v.gas == Credited(held, |held| - 1, -gas) + [gas] && v.charged == charged
    && v.k == k
  }

  /** A child frame that has ended. */
  ghost predicate Bred(ledger: Ledger, f: Closure, child: Closure, t: Tally, g0: seq<int>, gas: int, v: Tally)
    reads ledger, ledger.live, ledger.account, child
  {
    && Parent(ledger.account, f, t, g0) && Ended(ledger, child, v)
    && Opened(v, t.live, g0, t.charged + t.c, child, gas, v.k)
  }

  lemma GoingParent(ledger: Ledger, f: Closure, t: Tally)
    requires Going(ledger, f, t)
    ensures Parent(ledger.account, f, t, ledger.gas)
  {}

  /** When a child has ended, its creator goes on. */
  lemma Resumes(ledger: Ledger, f: Closure, child: Closure, t: Tally, g0: seq<int>, gas: int, v: Tally, a: int)
    requires Bred(ledger, f, child, t, g0, gas, v) && Moved(More(t, v.c, a), ledger.gas)
    ensures Going(ledger, f, More(t, v.c, a))
  {
    assert ledger.live == t.live;
    assert f.gas == ledger.gas[|t.live| - 1];
  }

  lemma CallResumes(ledger: Ledger, f: Closure, child: Closure, t: Tally, g0: seq<int>, gas: int, v: Tally)
    requires Bred(ledger, f, child, t, g0, gas, v) && v.k == |g0| - 1
    ensures Going(ledger, f, More(t, v.c, 0))
  {
    ChildOfCall(t, g0, v.gas, ledger.gas, gas, v);
    Resumes(ledger, f, child, t, g0, gas, v, 0);
  }

  lemma CreateResumes(ledger: Ledger, f: Closure, child: Closure, t: Tally, g0: seq<int>, gas: int, v: Tally)
    requires Bred(ledger, f, child, t, g0, gas, v) && v.k == t.k
    ensures Going(ledger, f, More(t, v.c, gas - v.c))
  {
    ChildOfCreate(t, g0, v.gas, ledger.gas, gas, v);
    Resumes(ledger, f, child, t, g0, gas, v, gas - v.c);
  }

  /** The tally of its creator, by what was written down. */
  ghost function AfterCreate(t: Tally, run: Run): Tally {
    More(t, Cost(run), run.gas - Cost(run))
  }

  ghost function AfterCall(t: Tally, run: Run): Tally {
    More(t, Cost(run), 0)
  }

  lemma CreateGoes(ledger: Ledger, f: Closure, child: Closure, t: Tally, g0: seq<int>, v: Tally, run: Run)
    requires Parent(ledger.account, f, t, g0) && Ended(ledger, child, v) && Tallied(v, run)
    requires Opened(v, t.live, g0, t.charged + t.c, child, run.gas, t.k)
    ensures Going(ledger, f, AfterCreate(t, run))
  {
    CreateResumes(ledger, f, child, t, g0, run.gas, v);
  }

  lemma CallGoes(ledger: Ledger, f: Closure, child: Closure, t: Tally, g0: seq<int>, v: Tally, run: Run)
    requires Parent(ledger.account, f, t, g0) && Ended(ledger, child, v) && Tallied(v, run)
    requires Opened(v, t.live, g0, t.charged + t.c, child, run.gas, |g0| - 1)
    ensures Going(ledger, f, AfterCall(t, run))
  {
    CallResumes(ledger, f, child, t, g0, run.gas, v);
  }

  /** NewClosure for a child, which knows where its gas goes back to. */
  method OpenChild(f: Closure, callee: Callee, script: Bytes, gas: int, ghost ledger: Ledger,
                   ghost k: int) returns (child: Closure)
    requires ledger.Running(f) && gas <= f.gas
    requires -1 <= k < |ledger.live|
    requires callee == (if k == -1 then ToAccount(ledger.account) else ToClosure(ledger.live[k]))
    modifies f, ledger`live, ledger`gas
    ensures ledger.Running(child) && ledger.ReturnsTo(child, k) && fresh(child)
    ensures child.gas == child.start == gas && child.usedGas == 0 && child.script == script
    ensures ledger.live == old(ledger.live) + [child]
    ensures ledger.gas == Credited(old(ledger.gas), |old(ledger.gas)| - 1, -gas) + [gas]
  {
    child := Open(f, callee, script, gas, ledger);
  }

  /** A child frame, from NewClosure to its return. */
  method RunChild(f: Closure, callee: Callee, script: Bytes, gas: int, ghost ledger: Ledger, ghost k: int, limit: nat)
    returns (exit: Exit, left: nat, ghost child: Closure, ghost v: Tally, ghost run: Run)
    requires ledger.Running(f) && gas <= f.gas
    requires -1 <= k < |ledger.live|
    requires callee == (if k == -1 then ToAccount(ledger.account) else ToClosure(ledger.live[k]))
    modifies ledger`live, ledger`gas, ledger`charged, ledger`refunded, ledger.account, ledger.live
    ensures Written(run, script, gas, exit, limit, left) && ledger.Balanced()
    ensures Opened(v, old(ledger.live), old(ledger.gas), old(ledger.charged), child, gas, k)
    ensures !exit.Unfinished? ==> Ended(ledger, child, v) && Tallied(v, run)
    decreases limit, 2
  {
    var c := OpenChild(f, callee, script, gas, ledger, k);
    child := c;
    exit, left, v, run := RunClosure(c, ledger, k, limit);
  }

  /** The child of a CREATE, for which the frame that it returns to is its creator's. */
  method RunCreated(f: Closure, initScript: Bytes, ghost ledger: Ledger, ghost t: Tally, limit: nat)
    returns (exit: Exit, left: nat, ghost child: Closure, ghost v: Tally, ghost run: Run)
    requires Going(ledger, f, t)
    modifies ledger`live, ledger`gas, ledger`charged, ledger`refunded, ledger.account, ledger.live
    ensures Written(run, initScript, old(f.gas), exit, limit, left) && ledger.Balanced()
    ensures Opened(v, t.live, old(ledger.gas), t.charged + t.c, child, old(f.gas), t.k)
    ensures !exit.Unfinished? ==> Ended(ledger, child, v) && Tallied(v, run)
    decreases limit, 3
  {
    exit, left, child, v, run := RunChild(f, f.callee, initScript, f.gas, ledger, t.k, limit);
  }

  /** The new frame of a CREATE gets all remaining gas; its callee is the creator's callee. */
  method CreateFrame(f: Closure, initScript: Bytes, ghost ledger: Ledger, ghost t: Tally, limit: nat)
    returns (exit: Exit, left: nat, ghost u: Tally, ghost run: Run)
    requires Going(ledger, f, t)
    modifies ledger`live, ledger`gas, ledger`charged, ledger`refunded, ledger.account, ledger.live
    ensures Written(run, initScript, old(f.gas), exit, limit, left) && ledger.Balanced()
    ensures !exit.Unfinished? ==> Going(ledger, f, u) && u == AfterCreate(t, run)
    decreases limit, 4
  {
    ghost var g0 := ledger.gas;
    GoingParent(ledger, f, t);
    ghost var child: Closure, v: Tally;
    exit, left, child, v, run := RunCreated(f, initScript, ledger, t, limit);
    u := t;
    if !exit.Unfinished? {
      CreateGoes(ledger, f, child, t, g0, v, run);
      u := AfterCreate(t, run);
    }
  }

  /** The new frame of a CALL gets the gas asked for; its callee is the caller. */
  method CallFrame(f: Closure, script: Bytes, gas: int, ghost ledger: Ledger, ghost t: Tally, limit: nat)
    returns (exit: Exit, left: nat, ghost u: Tally, ghost run: Run)
    requires Going(ledger, f, t) && gas <= f.gas
    modifies ledger`live, ledger`gas, ledger`charged, ledger`refunded, ledger.account, ledger.live
    ensures Written(run, script, gas, exit, limit, left) && ledger.Balanced()
    ensures !exit.Unfinished? ==> Going(ledger, f, u) && u == AfterCall(t, run)
    decreases limit, 3
  {
    ghost var g0 := ledger.gas;
    GoingParent(ledger, f, t);
    ghost var child: Closure, v: Tally;
    exit, left, child, v, run := RunChild(f, ToClosure(f), script, gas, ledger, |g0| - 1, limit);
    u := t;
    if !exit.Unfinished? {
      CallGoes(ledger, f, child, t, g0, v, run);
      u := AfterCall(t, run);
    }
  }

  // ---------- CREATE and CALL (vm.go:426-522) ----------

  /** What a step leads to: the next position, a frame already returned, a panic, or nothing before the limit. */
  datatype StepResult = Next(pc: int) | Left(exit: Exit) | Panic | Cut

  /** What is true of the line of a step, by what it leads to. */
  ghost predicate Leads(script: Bytes, gas: int, l: Line, r: StepResult, data: seq<int>) {
    && ChildRuns(l)
    && match r
       case Next(pc) => Paid(script, l, gas) && GoesOn(script, l, pc, data)
       case Left(exit) => !exit.Unfinished? && !exit.Recovered? && EndsAs(script, gas, l, exit)
       case Panic => EndsAs(script, gas, l, Recovered)
       case Cut => EndsAs(script, gas, l, Unfinished)
  }

  /** And of the frame and the books. */
  ghost predicate Stands(ledger: Ledger, f: Closure, r: StepResult, u: Tally)
    reads ledger, ledger.live, ledger.account, f
  {
    && ledger.Balanced()
    && match r
       case Left(_) => Ended(ledger, f, u)
       case Cut => true
       case _ => Going(ledger, f, u)
  }

  /** The turns that its child took. */
  ghost predicate Counted(l: Line, r: StepResult, limit: nat, left: nat) {
    left <= limit && LineTurns(l) == 1 + limit - left && (r == Cut ==> left == 0 && l.child.Some?)
  }

  /** What CREATE and CALL make of their line after their charge. */
  ghost predicate Spawned(script: Bytes, gas: int, l0: Line, l: Line, r: StepResult, data: seq<int>) {
    && l == l0.(child := l.child) && ChildFits(l, gas) && ChildRuns(l) && !r.Left?
    && (r.Next? ==> GoesOn(script, l, r.pc, data)) && (r == Panic ==> MayPanic(script, l))
    && (r == Cut ==> !Finished(l))
  }

  /** And of the books. */
  ghost predicate Took(ledger: Ledger, f: Closure, t: Tally, l: Line, r: StepResult, u: Tally)
    reads ledger, ledger.live, ledger.account, f
  {
    Stands(ledger, f, r, u) && (r != Cut ==> u == AfterLine(t, l))
  }

  /** What a child frame leaves on its creator's stack. */
  method Answer(stack: Stack, word: int, f: Closure, ghost ledger: Ledger, ghost t: Tally)
    requires Going(ledger, f, t)
    modifies stack
    ensures Going(ledger, f, t) && stack.data == old(stack.data) + [word]
  {
    stack.Push(word);
  }

  /** The three words of a CREATE. */
  method PopCreate(stack: Stack, f: Closure, ghost ledger: Ledger, ghost t: Tally)
    requires |stack.data| >= 3 && Going(ledger, f, t)
    modifies stack
    ensures Going(ledger, f, t) && stack.data == old(stack.data[..|stack.data| - 3])
  {
    var value := stack.Pop();
    var size, offset := stack.Popn();
  }

  /** The line of a step whose child has run. */
  ghost predicate Lined(l0: Line, l: Line, exit: Exit, gas: int, limit: nat, left: nat) {
    && l == l0.(child := l.child) && l.child.Some? && l.child.value.exit == exit && ChildFits(l, gas) && ChildRuns(l)
    && left <= limit && LineTurns(l) == 1 + limit - left && (exit.Unfinished? ==> left == 0)
  }

  /** The tally of its creator, by the line. */
  ghost function AfterLine(t: Tally, l: Line): Tally {
    More(t, LineCost(l) - l.price, LineAhead(l))
  }

  lemma ChildLined(t: Tally, l0: Line, run: Run, exit: Exit, gas: int, limit: nat, left: nat)
    requires l0.child.None? && (l0.op == CREATE || l0.op == CALL)
    requires Written(run, run.script, run.gas, exit, limit, left)
    requires ChildFits(l0.(child := Some(run)), gas)
    ensures var l := l0.(child := Some(run));
            && Lined(l0, l, exit, gas, limit, left)
            && AfterLine(t, l) == if l.op == CREATE then AfterCreate(t, run) else AfterCall(t, run)
  {}

  /** The frame of a CREATE, in its line. */
  method CreateLine(f: Closure, initScript: Bytes, ghost ledger: Ledger, ghost t: Tally, limit: nat, ghost l0: Line)
    returns (exit: Exit, left: nat, ghost u: Tally, ghost l: Line)
    requires Going(ledger, f, t) && l0.op == CREATE && l0.child.None? && |l0.data| >= 3
    modifies ledger`live, ledger`gas, ledger`charged, ledger`refunded, ledger.account, ledger.live
    ensures Lined(l0, l, exit, old(f.gas), limit, left) && ledger.Balanced()
    ensures !exit.Unfinished? ==> Going(ledger, f, u) && u == AfterLine(t, l)
    decreases limit, 5
  {
    ghost var run;
    exit, left, u, run := CreateFrame(f, initScript, ledger, t, limit);
    l := l0.(child := Some(run));
    ChildLined(t, l0, run, exit, old(f.gas), limit, left);
  }

  /** The frame of a CALL, in its line. */
  method CallLine(f: Closure, script: Bytes, gas: int, ghost ledger: Ledger, ghost t: Tally, limit: nat, ghost l0: Line)
    returns (exit: Exit, left: nat, ghost u: Tally, ghost l: Line)
    requires Going(ledger, f, t) && l0.op == CALL && l0.child.None? && |l0.data| >= 7
    requires Asked(l0.data) <= f.gas && gas == if Asked(l0.data) == 0 then f.gas else Asked(l0.data)
    modifies ledger`live, ledger`gas, ledger`charged, ledger`refunded, ledger.account, ledger.live
    ensures Lined(l0, l, exit, old(f.gas), limit, left) && ledger.Balanced()
    ensures !exit.Unfinished? ==> Going(ledger, f, u) && u == AfterLine(t, l)
    decreases limit, 5
  {
    ghost var run;
    exit, left, u, run := CallFrame(f, script, gas, ledger, t, limit);
    l := l0.(child := Some(run));
    ChildLined(t, l0, run, exit, old(f.gas), limit, left);
  }

  /** The word for the creator, once its child has ended; what follows may panic. */
  method Answered(f: Closure, pc: int, stack: Stack, word: int, ghost ledger: Ledger, ghost u: Tally, ghost l: Line)
    returns (r: StepResult)
    requires Going(ledger, f, u) && l.pc == pc && (l.op == CREATE || l.op == CALL) && Finished(l)
    requires |l.data| >= Pops(l.op) && stack.data == l.data[..|l.data| - Pops(l.op)]
    requires WordsFit(f.script, l.op, pc, Args(l.op, l.data), l.child, [word])
    modifies stack
    ensures Going(ledger, f, u) && (r.Next? || r.Panic?)
    ensures r.Next? ==> GoesOn(f.script, l, r.pc, stack.data)
    ensures r.Panic? ==> MayPanic(f.script, l)
  {
    Answer(stack, word, f, ledger, u);
    var ok: bool := *;                           // UpdateStateObject, mem.Set
    r := if ok then Next(pc + 1) else Panic;
  }

  /** The word of a CREATE: the new address, or 0 for an init script that failed. */
  method Address(exit: Exit) returns (word: int)
    ensures !Fine(exit) ==> word == 0
  {
    word := 0;
    if Fine(exit) {
      word := *;
    }
  }

  /** The frame of a CREATE, and its answer. */
  method Created(f: Closure, pc: int, stack: Stack, initScript: Bytes, ghost ledger: Ledger, ghost t: Tally,
                 limit: nat, ghost l0: Line)
    returns (r: StepResult, left: nat, ghost u: Tally, ghost l: Line)
    requires Going(ledger, f, t) && l0 == Line(pc, CREATE, l0.price, l0.data, None) && |l0.data| >= 3
    requires stack.data == l0.data[..|l0.data| - 3]
    modifies stack, ledger`live, ledger`gas, ledger`charged, ledger`refunded, ledger.account, ledger.live
    ensures Spawned(f.script, old(f.gas), l0, l, r, stack.data)
    ensures Took(ledger, f, t, l, r, u) && Counted(l, r, limit, left)
    decreases limit, 6
  {
    var exit: Exit;
    exit, left, u, l := CreateLine(f, initScript, ledger, t, limit, l0);
    r := Cut;
    if !exit.Unfinished? {
      var word := Address(exit);
      r := Answered(f, pc, stack, word, ledger, u, l);
    }
  }

  /** CREATE, after its charge. */
  method Create(f: Closure, pc: int, stack: Stack, ghost ledger: Ledger, ghost t: Tally, limit: nat, ghost l0: Line)
    returns (r: StepResult, left: nat, ghost u: Tally, ghost l: Line)
    requires Going(ledger, f, t) && l0 == Line(pc, CREATE, l0.price, stack.data, None) && |stack.data| >= 3
    modifies stack, ledger`live, ledger`gas, ledger`charged, ledger`refunded, ledger.account, ledger.live
    ensures Spawned(f.script, old(f.gas), l0, l, r, stack.data)
    ensures Took(ledger, f, t, l, r, u) && Counted(l, r, limit, left)
    decreases limit, 7
  {
    PopCreate(stack, f, ledger, t);
    var ok: bool := *;                           // mem.Get
    if !ok {
      return Panic, limit, t, l0;
    }
    var initScript: Bytes := *;
    r, left, u, l := Created(f, pc, stack, initScript, ledger, t, limit, l0);
  }

  /** The seven words of a CALL. */
  method PopCall(stack: Stack, f: Closure, ghost ledger: Ledger, ghost t: Tally) returns (gas: int)
    requires |stack.data| >= 7 && Going(ledger, f, t)
    modifies stack
    ensures Going(ledger, f, t)
    ensures stack.data == old(stack.data[..|stack.data| - 7]) && gas == Asked(old(stack.data))
  {
    var addr := stack.Pop();
    var value: int;
    gas, value := stack.Popn();
    var inSize, inOffset := stack.Popn();
    var retSize, retOffset := stack.Popn();
  }

  /** The frame of a CALL, and its answer. */
  method Called(f: Closure, pc: int, stack: Stack, script: Bytes, gas: int, ghost ledger: Ledger, ghost t: Tally,
                limit: nat, ghost l0: Line)
    returns (r: StepResult, left: nat, ghost u: Tally, ghost l: Line)
    requires Going(ledger, f, t) && l0 == Line(pc, CALL, l0.price, l0.data, None) && |l0.data| >= 7
    requires stack.data == l0.data[..|l0.data| - 7]
    requires Asked(l0.data) <= f.gas && gas == if Asked(l0.data) == 0 then f.gas else Asked(l0.data)
    modifies stack, ledger`live, ledger`gas, ledger`charged, ledger`refunded, ledger.account, ledger.live
    ensures Spawned(f.script, old(f.gas), l0, l, r, stack.data)
    ensures Took(ledger, f, t, l, r, u) && Counted(l, r, limit, left)
    decreases limit, 6
  {
    var exit: Exit;
    exit, left, u, l := CallLine(f, script, gas, ledger, t, limit, l0);
    r := Cut;
    if !exit.Unfinished? {
      r := Answered(f, pc, stack, if Fine(exit) then 1 else 0, ledger, u, l);
    }
  }

  /** CALL with enough gas for what it asks: a frame runs if the account is found. */
  method CallFound(f: Closure, pc: int, stack: Stack, gas: int, ghost ledger: Ledger, ghost t: Tally, limit: nat,
                   ghost l0: Line)
    returns (r: StepResult, left: nat, ghost u: Tally, ghost l: Line)
    requires Going(ledger, f, t) && l0 == Line(pc, CALL, l0.price, l0.data, None) && |l0.data| >= 7
    requires stack.data == l0.data[..|l0.data| - 7] && gas == Asked(l0.data) <= f.gas
    modifies stack, ledger`live, ledger`gas, ledger`charged, ledger`refunded, ledger.account, ledger.live
    ensures Spawned(f.script, old(f.gas), l0, l, r, stack.data)
    ensures Took(ledger, f, t, l, r, u) && Counted(l, r, limit, left)
    decreases limit, 7
  {
    var ok: bool := *;                           // mem.Get
    if !ok {
      return Panic, limit, t, l0;
    }
    var found: bool := *;                        // GetStateObject
    if !found {
      Answer(stack, 0, f, ledger, t);
      return Next(pc + 1), limit, t, l0;
    }
    var script: Bytes := *;
    r, left, u, l := Called(f, pc, stack, script, if gas == 0 then f.gas else gas, ledger, t, limit, l0);
  }

  /** CALL, after its charge. With less gas than is asked for, no frame runs and 0 is pushed. */
  method Call(f: Closure, pc: int, stack: Stack, ghost ledger: Ledger, ghost t: Tally, limit: nat, ghost l0: Line)
    returns (r: StepResult, left: nat, ghost u: Tally, ghost l: Line)
    requires Going(ledger, f, t) && l0 == Line(pc, CALL, l0.price, stack.data, None) && |stack.data| >= 7
    modifies stack, ledger`live, ledger`gas, ledger`charged, ledger`refunded, ledger.account, ledger.live
    ensures Spawned(f.script, old(f.gas), l0, l, r, stack.data)
    ensures Took(ledger, f, t, l, r, u) && Counted(l, r, limit, left)
    ensures Asked(old(stack.data)) > old(f.gas) ==> r == Next(pc + 1) && l == l0
    decreases limit, 8
  {
    var gas := PopCall(stack, f, ledger, t);
    if f.gas < gas {
      Answer(stack, 0, f, ledger, t);
      return Next(pc + 1), limit, t, l0;
    }
    r, left, u, l := CallFound(f, pc, stack, gas, ledger, t, limit, l0);
  }

  // ---------- One step (vm.go:91-555) ----------

  /** The offset and size of a RETURN, or the receiver of a SUICIDE. */
  method PopEnding(op: nat, stack: Stack, f: Closure, ghost ledger: Ledger, ghost t: Tally)
    requires Going(ledger, f, t) && (op == RETURN || op == SUICIDE) && |stack.data| >= Pops(op)
    modifies stack
    ensures Going(ledger, f, t)
  {
    if op == RETURN {
      var size, offset := stack.Popn();
    } else {
      var receiver := stack.Pop();
    }
  }

  /** STOP, RETURN, SUICIDE and invalid opcodes. */
  method Ending(op: nat, f: Closure, stack: Stack, ghost ledger: Ledger, ghost t: Tally, ghost l: Line)
    returns (r: StepResult)
    requires Going(ledger, f, t) && !Ordinary(op) && op != CREATE && op != CALL
    requires l.op == op && l.data == stack.data && l.child.None?
    modifies stack, ledger`live, ledger`gas, ledger`refunded, ledger.account, ledger.live
    ensures r == Panic || r.Left?
    ensures r == Panic ==> Going(ledger, f, t) && MayPanic(f.script, l)
    ensures r.Left? ==> Ended(ledger, f, t) && Leaves(l, r.exit)
  {
    if op == RETURN || op == SUICIDE {
      var fails: bool := *;                      // mem.Get, Purge
      if fails || |stack.data| < Pops(op) {
        return Panic;
      }
      PopEnding(op, stack, f, ledger, t);
    }
    Return(f, ledger, t);
    r := Left(if op == RETURN then Returned else if op == STOP || op == SUICIDE then Stopped else Invalid(op));
  }

  /** CREATE and CALL, with what they require of the stack. */
  method Spawn(op: nat, f: Closure, pc: int, stack: Stack, ghost ledger: Ledger, ghost t: Tally, limit: nat,
               ghost l0: Line)
    returns (r: StepResult, left: nat, ghost u: Tally, ghost l: Line)
    requires Going(ledger, f, t) && l0 == Line(pc, op, l0.price, stack.data, None) && (op == CREATE || op == CALL)
    modifies stack, ledger`live, ledger`gas, ledger`charged, ledger`refunded, ledger.account, ledger.live
    ensures Spawned(f.script, old(f.gas), l0, l, r, stack.data)
    ensures Took(ledger, f, t, l, r, u) && Counted(l, r, limit, left)
    decreases limit, 9
  {
    if |stack.data| < Pops(op) {
      return Panic, limit, t, l0;
    }
    if op == CREATE {
      r, left, u, l := Create(f, pc, stack, ledger, t, limit, l0);
    } else {
      r, left, u, l := Call(f, pc, stack, ledger, t, limit, l0);
    }
  }

  /** What the switch makes of the line of an opcode that was paid for. */
  ghost predicate Switched(script: Bytes, gas: int, l0: Line, l: Line, r: StepResult, data: seq<int>) {
    && l == l0.(child := l.child) && ChildFits(l, gas) && ChildRuns(l)
    && match r
       case Next(pc) => GoesOn(script, l, pc, data)
       case Left(exit) => Leaves(l, exit)
       case Panic => MayPanic(script, l)
       case Cut => !Finished(l)
  }

  /** The switch after the charge (vm.go:157-546). */
  method Execute(op: nat, f: Closure, pc: int, stack: Stack, ghost ledger: Ledger, ghost t: Tally, limit: nat,
                 ghost l0: Line)
    returns (r: StepResult, left: nat, ghost u: Tally, ghost l: Line)
    requires Going(ledger, f, t) && l0 == Line(pc, op, l0.price, stack.data, None)
    modifies stack, ledger`live, ledger`gas, ledger`charged, ledger`refunded, ledger.account, ledger.live
    ensures Switched(f.script, old(f.gas), l0, l, r, stack.data)
    ensures Took(ledger, f, t, l, r, u) && Counted(l, r, limit, left)
    decreases limit, 10
  {
    u, l, left := t, l0, limit;
    if op == CREATE || op == CALL {
      r, left, u, l := Spawn(op, f, pc, stack, ledger, t, limit, l0);
    } else if Ordinary(op) {
      var next := Ordinarily(op, f, pc, stack, l0.price);
      r := if next.Some? then Next(next.value) else Panic;
    } else {
      r := Ending(op, f, stack, ledger, t, l0);
    }
  }

  /** The tally behind a step: a price that could not be paid is not charged. */
  ghost predicate Stepped(t: Tally, l: Line, r: StepResult, u: Tally) {
    if r == Left(Insufficient) then u == t else r != Cut ==> u == More(t, LineCost(l), LineAhead(l))
  }

  /** A step that was paid for leads where the switch did. */
  lemma SwitchedLeads(script: Bytes, gas: int, l0: Line, l: Line, r: StepResult, data: seq<int>)
    requires l0.child.None? && OpAt(script, l0.pc) == Some(l0.op) && PriceFits(l0.op, l0.data, l0.price)
    requires l0.price <= gas && Switched(script, gas - l0.price, l0, l, r, data)
    ensures Leads(script, gas, l, r, data)
  {}

  /** What the child took, behind the charge. */
  lemma TookMore(ledger: Ledger, f: Closure, t: Tally, l: Line, r: StepResult, u: Tally)
    requires Took(ledger, f, More(t, l.price, 0), l, r, u) && r != Left(Insufficient)
    ensures Stands(ledger, f, r, u) && Stepped(t, l, r, u)
  {}

  /** A step whose price is known. */
  method Charged(op: nat, price: int, f: Closure, pc: int, stack: Stack, ghost ledger: Ledger, ghost t: Tally,
                 limit: nat)
    returns (r: StepResult, left: nat, ghost u: Tally, ghost l: Line)
    requires Going(ledger, f, t) && OpAt(f.script, pc) == Some(op) && PriceFits(op, stack.data, price)
    modifies stack, ledger`live, ledger`gas, ledger`charged, ledger`refunded, ledger.account, ledger.live
    ensures l.pc == pc && l.data == old(stack.data) && Leads(f.script, old(f.gas), l, r, stack.data)
    ensures Stands(ledger, f, r, u) && Stepped(t, l, r, u) && Counted(l, r, limit, left)
    decreases limit, 11
  {
    l, left := Line(pc, op, price, stack.data, None), limit;
    var ok;
    ok, u := Charge(f, price, ledger, t);
    if ok {
      ghost var l0 := l;
      r, left, u, l := Execute(op, f, pc, stack, ledger, u, limit, l0);
      SwitchedLeads(f.script, old(f.gas), l0, l, r, stack.data);
      TookMore(ledger, f, t, l, r, u);
    } else {
      Return(f, ledger, u);
      r := Left(Insufficient);
    }
  }

  /** One turn of the loop. */
  method Step(f: Closure, pc: int, stack: Stack, ghost ledger: Ledger, ghost t: Tally, limit: nat)
    returns (r: StepResult, left: nat, ghost u: Tally, ghost l: Line)
    requires Going(ledger, f, t)
    modifies stack, ledger`live, ledger`gas, ledger`charged, ledger`refunded, ledger.account, ledger.live
    ensures l.pc == pc && l.data == old(stack.data) && Leads(f.script, old(f.gas), l, r, stack.data)
    ensures Stands(ledger, f, r, u) && Stepped(t, l, r, u) && Counted(l, r, limit, left)
    decreases limit, 12
  {
    r, left, u := Panic, limit, t;
    var op := OpAt(f.script, pc);
    l := Line(pc, if op.Some? then op.value else STOP, 0, stack.data, None);
    if op.None? {
      return;
    }
    var price := StepPrice(op.value, stack);
    if price.None? {
      return;
    }
    r, left, u, l := Charged(op.value, price.value, f, pc, stack, ledger, t, limit);
  }

  // ---------- The loop ----------

  /** Where the loop stands: the lines lead there, and the tally is theirs. */
  ghost predicate Looping(f: Closure, t: Tally, u: Tally, lines: seq<Line>, pc: int, data: seq<int>) {
    && Follows(f.script, f.start, lines, pc, data)
    && u == More(t, LinesCost(lines), LinesAhead(lines))
  }

  lemma LineAdded(f: Closure, t: Tally, u: Tally, lines: seq<Line>, l: Line, pc: int, data: seq<int>)
    requires Looping(f, t, u, lines, l.pc, l.data) && ChildRuns(l)
    requires Paid(f.script, l, GasAfter(f.start, lines)) && GoesOn(f.script, l, pc, data)
    ensures Looping(f, t, More(u, LineCost(l), LineAhead(l)), lines + [l], pc, data)
    ensures LinesTurns(lines + [l]) == LinesTurns(lines) + LineTurns(l)
  {
    FollowsOn(f.script, f.start, lines, l, pc, data);
  }

  /** The run as it is written down when it ends. */
  ghost function RunOf(f: Closure, lines: seq<Line>, last: Line, exit: Exit): Run {
    Run(f.script, f.start, lines, last, exit)
  }

  /** The exit of a run that ends in this step. */
  function ExitOf(r: StepResult): Exit
    requires !r.Next?
  {
    match r
    case Left(exit) => exit
    case Panic => Recovered
    case Cut => Unfinished
  }

  /** The step in which the run ends. */
  lemma RunEnds(f: Closure, t: Tally, before: Tally, u: Tally, lines: seq<Line>, l: Line, r: StepResult, data: seq<int>,
                limit: nat, mid: nat, left: nat)
    requires Looping(f, t, before, lines, l.pc, l.data) && Leads(f.script, GasAfter(f.start, lines), l, r, data)
    requires Stepped(before, l, r, u) && Counted(l, r, mid, left) && LinesTurns(lines) == limit - mid - 1 && !r.Next?
    ensures var run := RunOf(f, lines, l, ExitOf(r));
            && Written(run, f.script, f.start, ExitOf(r), limit, left)
            && (r != Cut ==> u == More(t, Cost(run), Ahead(run)))
  {}

  /** The limit is reached between two steps. */
  lemma RunPauses(f: Closure, t: Tally, u: Tally, lines: seq<Line>, pc: int, data: seq<int>, limit: nat)
    requires Looping(f, t, u, lines, pc, data) && LinesTurns(lines) == limit
    ensures Written(RunOf(f, lines, Line(pc, STOP, 0, data, None), Unfinished), f.script, f.start, Unfinished, limit, 0)
  {}

  /**
   The loop: it ends with the frame returned, with a panic for the deferred handler, or at the limit. Every step that
   goes on is written down.
   */
  method Loop(f: Closure, ghost ledger: Ledger, ghost t: Tally, limit: nat)
    returns (exit: Exit, left: nat, ghost u: Tally, ghost run: Run)
    requires Going(ledger, f, t) && t.c == t.a == 0
    modifies ledger`live, ledger`gas, ledger`charged, ledger`refunded, ledger.account, ledger.live
    ensures Written(run, f.script, f.start, exit, limit, left) && ledger.Balanced()
    ensures !exit.Unfinished? ==> u == More(t, Cost(run), Ahead(run))
    ensures exit.Recovered? ==> Going(ledger, f, u)
    ensures !exit.Recovered? && !exit.Unfinished? ==> Ended(ledger, f, u)
    decreases limit, 0
  {
    var stack := new Stack();
    var pc := 0;
    ghost var lines: seq<Line> := [];
    u, left := t, limit;
    while left > 0
      invariant Going(ledger, f, u) && Looping(f, t, u, lines, pc, stack.data)
      invariant left <= limit && LinesTurns(lines) == limit - left
      decreases left
    {
      var r: StepResult;
      ghost var before, mid := u, left - 1;
      assert f.gas == GasAfter(f.start, lines);
      ghost var l;
      r, left, u, l := Step(f, pc, stack, ledger, u, left - 1);
      if !r.Next? {
        RunEnds(f, t, before, u, lines, l, r, stack.data, limit, mid, left);
        return ExitOf(r), left, u, RunOf(f, lines, l, ExitOf(r));
      }
      LineAdded(f, t, before, lines, l, r.pc, stack.data);
      lines, pc := lines + [l], r.pc;
    }
    RunPauses(f, t, u, lines, pc, stack.data, limit);
    exit, run := Unfinished, RunOf(f, lines, Line(pc, STOP, 0, stack.data, None), Unfinished);
  }

  /**
   RunClosure: the loop and its deferred handler. What is written down is a run of the frame's script. Whatever way the
   frame ends, all its gas but the cost of that run goes once to its callee, every other frame keeps what it had, and
   the frame reports the cost plus what its CREATEs handed past it as used. The books balance after any number of steps
   of the whole call tree.
   */
  method RunClosure(f: Closure, ghost ledger: Ledger, ghost k: int, limit: nat)
    returns (exit: Exit, left: nat, ghost t: Tally, ghost run: Run)
    requires ledger.Running(f) && ledger.ReturnsTo(f, k) && f.usedGas == 0 && f.gas == f.start
    modifies ledger`live, ledger`gas, ledger`charged, ledger`refunded, ledger.account, ledger.live
    ensures Written(run, f.script, f.start, exit, limit, left) && ledger.Balanced()
    ensures t.live == old(ledger.live) && t.gas == old(ledger.gas) && t.charged == old(ledger.charged) && t.k == k
    ensures !exit.Unfinished? ==> Ended(ledger, f, t) && Tallied(t, run)
    decreases limit, 1
  {
    t := Tally(ledger.live, ledger.gas, ledger.charged, k, 0, 0);
    ghost var u;
    exit, left, u, run := Loop(f, ledger, t, limit);
    t := if exit.Unfinished? then t else u;
    if exit.Recovered? {
      Return(f, ledger, t);
    }
  }

  /**
   EvalScript: the sender's account buys the gas, the script runs, and what is left is sold back. The account ends
   lower by exactly the price of what the run costs, and the gas reported is that cost and what CREATEs handed past the
   outermost frame. With too low an amount nothing runs, nothing changes and no gas is reported (nil).
   */
  method EvalScript(account: Account, script: Bytes, gas: nat, price: int, limit: nat)
    returns (ran: bool, used: Option<int>, exit: Exit, ghost run: Run)
    modifies account
    ensures ran <==> gas * price <= old(account.amount)
    ensures !ran ==> account.amount == old(account.amount) && used == None
    ensures ran ==> WellRun(run) && run.script == script && run.gas == gas && run.exit == exit
    ensures ran ==> Turns(run) <= limit && (exit.Unfinished? ==> Turns(run) == limit)
    ensures ran && !exit.Unfinished? ==>
              account.amount == old(account.amount) - Cost(run) * price && used == Some(Cost(run) + Ahead(run))
    ensures ran && Tame(run) ==> Bounded(run) && (limit > 2 * gas + 1 ==> !exit.Unfinished?)
  {
    exit, used, run := Recovered, None, Run(script, 0, [], Line(0, STOP, 0, [], None), Recovered);
    ran := account.ConvertGas(gas, price);
    if ran {
      var f := new Closure(ToAccount(account), script, gas, price);
      ghost var ledger := new Ledger(f, account);
      ghost var t: Tally;
      var left: nat;
      exit, left, t, run := RunClosure(f, ledger, -1, limit);
      used := if exit.Unfinished? then None else Some(f.usedGas);
      Settled(gas, price, Cost(run));
      if Tame(run) {
        RunBounded(run);
      }
    }
  }

  lemma Settled(gas: int, price: int, charged: int)
    ensures (gas - charged) * price == gas * price - charged * price
  {}
}
