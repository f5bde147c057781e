/**
 What a run of a script does from one step to the next, opcode by opcode; and two scripts with their runs.
 */
module GasLaws {
  import opened ByteStrings
  import opened GasTraces

  // ---------- From one step to the next ----------

  /** The step at `i`: one that went on, or the last. */
  function StepAt(run: Run, i: nat): Line
    requires i <= |run.lines|
  {
    if i < |run.lines| then run.lines[i] else run.last
  }

  lemma {:induction false} FollowsTo(script: Bytes, gas: int, lines: seq<Line>, pc: int, data: seq<int>, i: nat)
    requires Follows(script, gas, lines, pc, data) && i < |lines|
    ensures Follows(script, gas, lines[..i], lines[i].pc, lines[i].data)
    ensures Paid(script, lines[i], GasAfter(gas, lines[..i])) && ChildRuns(lines[i])
    ensures i + 1 < |lines| ==> GoesOn(script, lines[i], lines[i + 1].pc, lines[i + 1].data)
    ensures i + 1 == |lines| ==> GoesOn(script, lines[i], pc, data)
    decreases |lines|
  {
    var n := |lines| - 1;
    if i < n {
      var front := lines[..n];
      FollowsTo(script, gas, front, lines[n].pc, lines[n].data, i);
      assert front[..i] == lines[..i];
    }
  }

  /** A step that went on, and the one behind it. */
  ghost predicate Leads(run: Run, i: nat, l: Line, m: Line) {
    WellRun(run) && i < |run.lines| && l == run.lines[i] && m == StepAt(run, i + 1)
  }

  lemma LeadsOn(run: Run, i: nat, l: Line, m: Line)
    requires Leads(run, i, l, m)
    ensures Paid(run.script, l, GasAfter(run.gas, run.lines[..i])) && ChildRuns(l)
    ensures GoesOn(run.script, l, m.pc, m.data)
  {
    FollowsTo(run.script, run.gas, run.lines, run.last.pc, run.last.data, i);
  }

  /** A run begins at the first byte, with nothing on its stack. */
  lemma BeginsEmpty(run: Run)
    requires WellRun(run)
    ensures StepAt(run, 0).pc == 0 && StepAt(run, 0).data == []
  {
    if run.lines != [] {
      FollowsTo(run.script, run.gas, run.lines, run.last.pc, run.last.data, 0);
      assert run.lines[..0] == [];
    }
  }

  /** The opcode of a step that goes on is the byte at its position. */
  lemma OpcodeExact(run: Run, i: nat, l: Line, m: Line)
    requires Leads(run, i, l, m) && -0x8000_0000_0000_0000 <= l.pc < 0x8000_0000_0000_0000
    ensures 0 <= l.pc < |run.script| && |run.script| > 1 && l.op == run.script[l.pc]
  {
    LeadsOn(run, i, l, m);
  }

  /**
   JUMP goes to the word on top; JUMPI does if the word below it is 1, and to the next position otherwise; a push passes
   over its bytes; everything else goes to the next position.
   */
  lemma JumpsExactly(run: Run, i: nat, l: Line, m: Line)
    requires Leads(run, i, l, m)
    ensures l.op == 0x59 ==> l.data != [] && m.pc == l.data[|l.data| - 1]
    ensures l.op == 0x5a ==>
              |l.data| >= 2 && m.pc == if l.data[|l.data| - 2] == 1 then l.data[|l.data| - 1] else l.pc + 1
    ensures 0x60 <= l.op <= 0x7f ==> m.pc == l.pc + 1 + (l.op - 0x5f)
    ensures l.op != 0x59 && l.op != 0x5a && !(0x60 <= l.op <= 0x7f) ==> m.pc == l.pc + 1
  {
    LeadsOn(run, i, l, m);
  }

  /** How many words an opcode takes and leaves. */
  function Takes(op: nat): nat {
    if op in {0x09, 0x0d, 0x35, 0x51, 0x52, 0x54, 0x57, 0x59, 0xff} then 1
    else if op in {0x01, 0x02, 0x03, 0x04, 0x05, 0x06, 0x07, 0x08, 0x0a, 0x0b, 0x0c} then 2
    else if op in {0x10, 0x11, 0x12, 0x13, 0x20, 0x53, 0x55, 0x56, 0x58, 0x5a, 0xf2} then 2
    else if op == 0xf0 then 3
    else if op == 0xf1 then 7
    else 0
  }

  function Puts(op: nat): nat {
    if op in {0x00, 0x51, 0x55, 0x56, 0x58, 0x59, 0x5a, 0xf2, 0xfe, 0xff} then 0
    else if op in {0x52, 0x53} then 2
    else 1
  }

  /** What it finds below the words it takes is still there, below the words it leaves. */
  lemma StackExact(run: Run, i: nat, l: Line, m: Line)
    requires Leads(run, i, l, m)
    ensures |l.data| >= Takes(l.op) && |m.data| == |l.data| - Takes(l.op) + Puts(l.op)
    ensures m.data[..|l.data| - Takes(l.op)] == l.data[..|l.data| - Takes(l.op)]
  {
    LeadsOn(run, i, l, m);
    assert Known(l.op);
    HeightsOf(l.op);
  }

  lemma HeightsOf(op: nat)
    requires Known(op)
    ensures Pops(op) == Takes(op) && Pushes(op) == Puts(op)
  {}

  /** The word on top of a stack, and the one below it. */
  function Top(data: seq<int>): int
    requires data != []
  {
    data[|data| - 1]
  }

  function Second(data: seq<int>): int
    requires |data| >= 2
  {
    data[|data| - 2]
  }

  /** Arithmetic, of the second word and the one on top. */
  lemma ArithmeticExact(run: Run, i: nat, l: Line, m: Line)
    requires Leads(run, i, l, m)
    ensures l.op in {1, 2, 3, 4, 6} ==> |l.data| >= 2 && m.data != []
    ensures l.op == 1 ==> Top(m.data) == Second(l.data) + Top(l.data)
    ensures l.op == 2 ==> Top(m.data) == Second(l.data) * Top(l.data)
    ensures l.op == 3 ==> Top(m.data) == Second(l.data) - Top(l.data)
    ensures l.op == 4 ==> Top(l.data) != 0 && Top(m.data) == Second(l.data) / Top(l.data)
    ensures l.op == 6 ==> Top(l.data) != 0 && Top(m.data) == Second(l.data) % Top(l.data)
    ensures l.op == 9 ==> l.data != [] && m.data != [] && Top(m.data) + Top(l.data) == Two256()
  {
    LeadsOn(run, i, l, m);
  }

  /** 2^256. */
  function Two256(): nat {
    0x1_0000_0000_0000_0000_0000_0000_0000_0000_0000_0000_0000_0000_0000_0000_0000_0000
  }

  /** The word that is computed is left on top. */
  lemma ComputedOnTop(run: Run, i: nat, l: Line, m: Line, word: int)
    requires Leads(run, i, l, m) && |l.data| >= Pops(l.op) && Computed(l.op, Args(l.op, l.data)) == Some(word)
    ensures m.data != [] && Top(m.data) == word
  {
    LeadsOn(run, i, l, m);
  }

  /** Comparisons: 1 or 0. */
  lemma ComparisonsExact(run: Run, i: nat, l: Line, m: Line)
    requires Leads(run, i, l, m) && l.op in {10, 11, 12}
    ensures |l.data| >= 2 && m.data != [] && Top(m.data) in {0, 1}
    ensures l.op == 10 ==> (Top(m.data) == 1 <==> Second(l.data) < Top(l.data))
    ensures l.op == 11 ==> (Top(m.data) == 1 <==> Second(l.data) > Top(l.data))
    ensures l.op == 12 ==> (Top(m.data) == 1 <==> Second(l.data) == Top(l.data))
  {
    LeadsOn(run, i, l, m);
    ComputedOnTop(run, i, l, m, Computed(l.op, Args(l.op, l.data)).value);
  }

  /** NOT is 1 for 0 only; AND for two words from 1 on; OR if either is not negative. */
  lemma LogicExact(run: Run, i: nat, l: Line, m: Line)
    requires Leads(run, i, l, m) && l.op in {13, 16, 17}
    ensures l.data != [] && m.data != [] && Top(m.data) in {0, 1} && (l.op != 13 ==> |l.data| >= 2)
    ensures l.op == 13 ==> (Top(m.data) == 1 <==> Top(l.data) == 0)
    ensures l.op == 16 ==> (Top(m.data) == 1 <==> Second(l.data) >= 1 && Top(l.data) >= 1)
    ensures l.op == 17 ==> (Top(m.data) == 1 <==> Second(l.data) >= 0 || Top(l.data) >= 0)
  {
    LeadsOn(run, i, l, m);
    ComputedOnTop(run, i, l, m, Computed(l.op, Args(l.op, l.data)).value);
  }

  /** Numbers above 2^256 are taken from 2^256 before a signed division and after it. */
  lemma SignedExact(run: Run, i: nat, l: Line, m: Line)
    requires Leads(run, i, l, m) && l.op in {5, 7}
    ensures |l.data| >= 2 && m.data != []
    ensures var x, y := Second(l.data), Top(l.data);
            0 <= x <= Two256() && 0 < y <= Two256() ==> Top(m.data) == if l.op == 5 then x / y else x % y
    ensures var x, y := Second(l.data), Top(l.data);
            x > Two256() && 0 < y <= Two256() ==>
              Top(m.data) == if l.op == 5 then (Two256() - x) / y else (Two256() - x) % y
  {
    LeadsOn(run, i, l, m);
    var x, y := Second(l.data), Top(l.data);
    assert Args(l.op, l.data) == [x, y];
    if y != 0 {
      SignedWord(l.op, x, y);
      ComputedOnTop(run, i, l, m, Computed(l.op, [x, y]).value);
    }
  }

  lemma SignedWord(op: nat, x: int, y: int)
    requires op in {5, 7} && y != 0
    ensures Computed(op, [x, y]).Some?
    ensures 0 <= x <= Two256() && 0 < y <= Two256() ==>
              Computed(op, [x, y]) == Some(if op == 5 then x / y else x % y)
    ensures x > Two256() && 0 < y <= Two256() ==>
              Computed(op, [x, y]) == Some(if op == 5 then (Two256() - x) / y else (Two256() - x) % y)
  {
    var z := Signed(x);
    var w := Signed(y);
    if 0 < y <= Two256() && x >= 0 {
      QuotientBelow(z, w, Two256());
      Kept(z / w);
      Kept(z % w);
    }
  }

  lemma Kept(x: int)
    requires x <= Two256()
    ensures Signed(x) == x
  {}

  /** Neither the quotient nor the remainder of a number up to a bound is above it. */
  lemma QuotientBelow(x: int, y: int, bound: nat)
    requires x <= bound && 0 < y <= bound
    ensures x / y <= bound && x % y <= bound
  {
    if x >= 0 {
      Scaled(x / y, y);
      assert x == x / y * y + x % y;
    }
  }

  lemma {:induction false} Scaled(q: nat, y: nat)
    requires y > 0
    ensures q * y >= q
  {
    if y > 1 {
      Scaled(q, y - 1);
      assert q * y == q * (y - 1) + q;
    }
  }

  /** Copies, exchanges and the position. */
  lemma WordsExact(run: Run, i: nat, l: Line, m: Line)
    requires Leads(run, i, l, m)
    ensures l.op == 0x52 ==> l.data != [] && m.data == l.data + [Top(l.data)]
    ensures l.op == 0x53 ==>
              |l.data| >= 2 && m.data == l.data[..|l.data| - 2] + [Top(l.data), Second(l.data)]
    ensures l.op == 0x5b ==> m.data == l.data + [l.pc]
  {
    LeadsOn(run, i, l, m);
    if l.op == DUP {
      Copied(run.script, l, m.pc, m.data);
    } else if l.op == SWAP {
      Exchanged(run.script, l, m.pc, m.data);
    } else if l.op == PC {
      Positioned(run.script, l, m.pc, m.data);
    }
  }

  lemma Copied(script: Bytes, l: Line, pc: int, data: seq<int>)
    requires GoesOn(script, l, pc, data) && l.op == DUP
    ensures l.data != [] && data == l.data + [Top(l.data)]
  {
    var n := |l.data| - 1;
    assert data == data[..n] + data[n..] && l.data == l.data[..n] + [l.data[n]];
  }

  lemma Exchanged(script: Bytes, l: Line, pc: int, data: seq<int>)
    requires GoesOn(script, l, pc, data) && l.op == SWAP
    ensures |l.data| >= 2 && data == l.data[..|l.data| - 2] + [Top(l.data), Second(l.data)]
  {
    assert data == data[..|l.data| - 2] + data[|l.data| - 2..];
  }

  lemma Positioned(script: Bytes, l: Line, pc: int, data: seq<int>)
    requires GoesOn(script, l, pc, data) && l.op == PC
    ensures data == l.data + [l.pc]
  {
    assert data == data[..|l.data|] + data[|l.data|..] && l.data[..|l.data|] == l.data;
  }

  /** The bytes of a push that are in the script, as one number. */
  lemma PushesExactly(run: Run, i: nat, l: Line, m: Line, n: nat)
    requires Leads(run, i, l, m) && 1 <= n <= 32 && l.op == 0x5f + n
    requires 0 <= l.pc && l.pc + 1 + n <= |run.script| < 0x8000_0000_0000_0000
    ensures m.data == l.data + [FromBigEndian(run.script[l.pc + 1..l.pc + 1 + n])]
  {
    LeadsOn(run, i, l, m);
    assert PushBytes(run.script, l.pc + 1, n) == Some(run.script[l.pc + 1..l.pc + 1 + n]);
    assert m.data == m.data[..|l.data|] + m.data[|l.data|..] && l.data[..|l.data|] == l.data;
  }

  // ---------- Prices, children and exits ----------

  /** The opcodes there are. */
  predicate Listed(op: nat) {
    || op <= 0x0d || 0x10 <= op <= 0x13 || op == 0x20 || 0x30 <= op <= 0x37 || 0x40 <= op <= 0x45 || 0x51 <= op <= 0x5c
    || 0x60 <= op <= 0x7f || 0xf0 <= op <= 0xf2 || op >= 0xfe
  }

  /** What is paid for an opcode on such a stack. */
  predicate Priced(op: nat, data: seq<int>, price: int) {
    && (op in {0x20, 0x31, 0x57, 0xf1} ==> price == 20)
    && (op == 0x58 ==> price == 100 || (price == 0 && (|data| >= 2 ==> data[0] == 0)))
    && (op == 0xf0 ==> |data| >= 3 && price == (data[|data| - 2] + data[|data| - 3]) / 32 * 100)
    && (op !in {0x20, 0x31, 0x57, 0xf1, 0x58, 0xf0} ==> price == 1)
  }

  lemma FitsPriced(op: nat, data: seq<int>, price: int)
    ensures PriceFits(op, data, price) <==> Priced(op, data, price)
  {}

  /** A step that goes on has its opcode's price, and there is gas for it. */
  lemma PriceExact(run: Run, i: nat, l: Line, m: Line)
    requires Leads(run, i, l, m)
    ensures Listed(l.op) && l.op !in {0x00, 0xf2, 0xff} && Priced(l.op, l.data, l.price)
    ensures l.price <= GasAfter(run.gas, run.lines[..i])
  {
    LeadsOn(run, i, l, m);
    FitsPriced(l.op, l.data, l.price);
    assert Known(l.op);
  }

  /** The gas behind it: less the price and, for a child, what its run cost a CALL and all that was left at a CREATE. */
  lemma GasExact(run: Run, i: nat, l: Line, m: Line)
    requires Leads(run, i, l, m)
    ensures GasAfter(run.gas, run.lines[..0]) == run.gas
    ensures GasAfter(run.gas, run.lines[..i + 1]) == GasAfter(run.gas, run.lines[..i]) - l.price -
              (if l.child.None? then 0 else if l.op == 0xf0 then l.child.value.gas else Cost(l.child.value))
  {
    assert run.lines[..0] == [];
    OneMore(run.gas, run.lines[..i], l);
    assert run.lines[..i + 1] == run.lines[..i] + [l];
  }

  lemma OneMore(gas: int, lines: seq<Line>, l: Line)
    ensures GasAfter(gas, lines + [l]) == GasAfter(gas, lines) - l.price -
              (if l.child.None? then 0 else if l.op == 0xf0 then l.child.value.gas else Cost(l.child.value))
  {
    var more := lines + [l];
    assert more[..|more| - 1] == lines && more[|more| - 1] == l;
    assert LinesCost(more) == LinesCost(lines) + LineCost(l);
    assert LinesAhead(more) == LinesAhead(lines) + LineAhead(l);
    assert LineCost(l) == l.price + if l.child.Some? then Cost(l.child.value) else 0;
  }

  /**
   Only CREATE and CALL have children, with runs of their own: CREATE always, with all the gas; CALL with the gas its
   third word asks for, or all for 0, and none when it asks for more than there is.
   */
  lemma ChildExact(run: Run, i: nat, l: Line, m: Line)
    requires Leads(run, i, l, m)
    ensures l.op !in {0xf0, 0xf1} ==> l.child.None?
    ensures l.child.Some? ==> WellRun(l.child.value) && l.child.value.exit != Unfinished
    ensures var gas := GasAfter(run.gas, run.lines[..i]) - l.price;
            && (l.op == 0xf0 ==> l.child.Some? && l.child.value.gas == gas)
            && (l.op == 0xf1 ==>
                  && |l.data| >= 7
                  && (l.data[|l.data| - 3] > gas ==> l.child.None?)
                  && (l.child.Some? ==>
                        l.child.value.gas == if l.data[|l.data| - 3] == 0 then gas else l.data[|l.data| - 3]))
  {
    LeadsOn(run, i, l, m);
  }

  /** CALL leaves 1 exactly for a child that stopped or returned; CREATE leaves 0 for one that did neither. */
  lemma AnswerExact(run: Run, i: nat, l: Line, m: Line)
    requires Leads(run, i, l, m) && l.op in {0xf0, 0xf1}
    ensures m.data != []
    ensures l.op == 0xf1 ==> Top(m.data) == if l.child.Some? && l.child.value.exit in {Stopped, Returned} then 1 else 0
    ensures l.op == 0xf0 ==> l.child.Some?
    ensures l.op == 0xf0 && l.child.value.exit !in {Stopped, Returned} ==> Top(m.data) == 0
  {
    LeadsOn(run, i, l, m);
  }

  /** How a run ends: the opcode or the lack of gas that it takes; a panic needs one of its causes. */
  lemma ExitExact(run: Run)
    requires WellRun(run)
    ensures var l, gas := run.last, GasAfter(run.gas, run.lines);
            && (run.exit == Stopped ==> l.op in {0x00, 0xff})
            && (run.exit == Returned ==> l.op == 0xf2)
            && (run.exit.Invalid? ==> run.exit.op == l.op && !Listed(l.op))
            && (run.exit in {Stopped, Returned} || run.exit.Invalid? ==>
                  Priced(l.op, l.data, l.price) && l.price <= gas && l.child.None?)
            && (run.exit == Insufficient ==> Priced(l.op, l.data, l.price) && gas < l.price && l.child.None?)
            && (run.exit == Recovered && l.price != 0 ==>
                  Priced(l.op, l.data, l.price) && l.price <= gas && Listed(l.op))
  {
    FitsPriced(run.last.op, run.last.data, run.last.price);
  }

  /** Positions are cut to 64 bits with a sign. */
  lemma Int64Exact(x: int)
    ensures -0x8000_0000_0000_0000 <= Int64(x) < 0x8000_0000_0000_0000
    ensures exists k: int :: Int64(x) == x + k * 0x1_0000_0000_0000_0000
  {
    var m := if x < 0 then -x else x;
    var q, low := m / 0x1_0000_0000_0000_0000, m % 0x1_0000_0000_0000_0000;
    var up := if low < 0x8000_0000_0000_0000 then q else q + 1;
    assert m == q * 0x1_0000_0000_0000_0000 + low;
    if x >= 0 {
      assert Int64(x) == x + -up * 0x1_0000_0000_0000_0000;
    } else if low != 0x8000_0000_0000_0000 {
      assert Int64(x) == x + up * 0x1_0000_0000_0000_0000;
    } else {
      assert Int64(x) == x + q * 0x1_0000_0000_0000_0000;
    }
  }

  /** The opcode a run ends at: STOP behind the script, and everywhere in a script of one byte. */
  lemma LastOpcode(run: Run)
    requires WellRun(run) && run.exit != Unfinished && run.exit != Recovered
    requires -0x8000_0000_0000_0000 <= run.last.pc < 0x8000_0000_0000_0000
    ensures var l, s := run.last, run.script;
            if l.pc >= |s| || |s| <= 1 then l.op == 0 else l.pc >= 0 && l.op == s[l.pc]
  {}

  /** Opcodes that read or write memory, input, storage or accounts. */
  predicate Outside(op: nat) {
    op == 0x20 || 0x30 <= op <= 0x37 || 0x40 <= op <= 0x45 || 0x54 <= op <= 0x58 || op in {0xf0, 0xf1, 0xf2, 0xff}
  }

  /** A push whose bytes are not all in the script, at a position that is. */
  predicate CutOff(script: Bytes, l: Line) {
    0x60 <= l.op <= 0x7f && (Int64(l.pc + 1) < 0 || Int64(l.pc + 1) + (l.op - 0x5f) > |script|)
  }

  /** What a panic needs: too short a stack, a division by zero, a position or bytes that are not there, or Outside. */
  lemma PanicExact(run: Run)
    requires WellRun(run) && run.exit == Recovered
    ensures var l := run.last;
            || (Int64(l.pc) < 0 && |run.script| > 1)
            || |l.data| < Takes(l.op) || Outside(l.op) || CutOff(run.script, l)
            || (0x04 <= l.op <= 0x07 && l.data != [] && Top(l.data) == 0)
  {
    if Known(run.last.op) {
      HeightsOf(run.last.op);
    }
  }

  // ---------- A loop ----------

  /** PUSH1 1, PUSH1 0, JUMPI: back to the start, for ever. */
  function Looping(): Bytes {
    [0x60, 1, 0x60, 0, 0x5a]
  }

  /** The stack at the three places. */
  function LoopStack(i: nat): seq<int> {
    if i % 3 == 0 then [] else if i % 3 == 1 then [1] else [1, 0]
  }

  ghost predicate InLoop(l: Line, i: nat) {
    l.pc == i % 3 * 2 && l.data == LoopStack(i)
  }

  lemma LoopBytes()
    ensures var s := Looping();
            && OpAt(s, 0) == OpAt(s, 2) == Some(0x60) && OpAt(s, 4) == Some(0x5a)
            && PushBytes(s, 1, 1) == Some([1]) && PushBytes(s, 3, 1) == Some([0])
  {
    assert Looping()[1..2] == [1] && Looping()[3..4] == [0];
  }

  lemma InLoopPrice(l: Line, i: nat, price: int)
    requires InLoop(l, i) && OpAt(Looping(), l.pc) == Some(l.op) && PriceFits(l.op, l.data, price)
    ensures price == 1 && l.op == if i % 3 == 2 then 0x5a else 0x60
  {
    LoopBytes();
  }

  lemma LoopStep(run: Run, i: nat, l: Line, m: Line)
    requires run.script == Looping() && Leads(run, i, l, m) && InLoop(l, i)
    ensures InLoop(m, i + 1) && l.price == 1 && l.child.None?
  {
    LoopBytes();
    LeadsOn(run, i, l, m);
    InLoopPrice(l, i, l.price);
    if i % 3 == 2 {
      BranchWent(run.script, l, m.pc, m.data);
    } else if i % 3 == 0 {
      FirstGoes(run.script, l, m.pc, m.data);
    } else {
      SecondGoes(run.script, l, m.pc, m.data);
    }
  }

  /** A script with these operands. */
  predicate PushesBoth(script: Bytes) {
    PushBytes(script, 1, 1) == Some([1]) && PushBytes(script, 3, 1) == Some([0])
  }

  lemma FirstGoes(script: Bytes, l: Line, pc: int, data: seq<int>)
    requires PushesBoth(script) && GoesOn(script, l, pc, data) && l.op == PUSH1 && l.pc == 0 && l.data == []
    ensures pc == 2 && data == [1]
  {
    PushWent(script, l, pc, data, 1);
  }

  lemma SecondGoes(script: Bytes, l: Line, pc: int, data: seq<int>)
    requires PushesBoth(script) && GoesOn(script, l, pc, data) && l.op == PUSH1 && l.pc == 2 && l.data == [1]
    ensures pc == 4 && data == [1, 0]
  {
    PushWent(script, l, pc, data, 0);
  }

  lemma PushWent(script: Bytes, l: Line, pc: int, data: seq<int>, word: byte)
    requires GoesOn(script, l, pc, data) && l.op == PUSH1 && PushBytes(script, l.pc + 1, 1) == Some([word])
    ensures pc == l.pc + 2 && data == l.data + [word]
  {
    DigitsExact(0, word, []);
    assert l.data[..|l.data|] == l.data && data == data[..|l.data|] + data[|l.data|..];
  }

  lemma BranchWent(script: Bytes, l: Line, pc: int, data: seq<int>)
    requires GoesOn(script, l, pc, data) && l.op == JUMPI && |l.data| == 2 && l.data[0] == 1
    ensures pc == l.data[1] && data == []
  {}

  lemma {:induction false} LoopLines(run: Run, n: nat)
    requires WellRun(run) && run.script == Looping() && n <= |run.lines|
    ensures InLoop(StepAt(run, n), n) && LinesCost(run.lines[..n]) == n && LinesAhead(run.lines[..n]) == 0
  {
    if n == 0 {
      BeginsEmpty(run);
      assert run.lines[..0] == [];
    } else {
      LoopLines(run, n - 1);
      LoopStep(run, n - 1, run.lines[n - 1], StepAt(run, n));
      assert run.lines[..n][..n - 1] == run.lines[..n - 1];
    }
  }

  /** Its only way out is the gas: every run that is followed to its end takes one turn for every unit. */
  lemma LoopBurnsAll(run: Run)
    requires WellRun(run) && run.script == Looping() && run.gas >= 0 && run.exit != Unfinished
    ensures run.exit == Insufficient && |run.lines| == run.gas == Cost(run)
  {
    var n := |run.lines|;
    LoopLines(run, n);
    assert run.lines[..n] == run.lines;
    LoopEnds(run.last, n, GasAfter(run.gas, run.lines), run.exit);
    LoopPaid(run);
  }

  lemma LoopEnds(l: Line, n: nat, gas: int, exit: Exit)
    requires InLoop(l, n) && EndsAs(Looping(), gas, l, exit) && exit != Unfinished
    ensures exit == Insufficient && gas < 1
  {
    LoopOp(l.pc, n);
    if OpAt(Looping(), l.pc) == Some(l.op) && PriceFits(l.op, l.data, l.price) {
      InLoopPrice(l, n, l.price);
      LoopQuiet(l, n);
    }
  }

  lemma LoopOp(pc: int, n: nat)
    requires pc == n % 3 * 2
    ensures OpAt(Looping(), pc) == Some(if n % 3 == 2 then 0x5a else 0x60)
  {
    LoopBytes();
  }

  lemma LoopQuiet(l: Line, n: nat)
    requires InLoop(l, n) && l.op == if n % 3 == 2 then 0x5a else 0x60
    ensures !MayPanic(Looping(), l) && !Unpriced(l.op, l.data) && Ordinary(l.op)
  {
    LoopBytes();
  }

  /** The last step that went on was paid for. */
  lemma LoopPaid(run: Run)
    requires WellRun(run) && run.script == Looping() && run.gas >= 0
    ensures |run.lines| <= run.gas
  {
    var n := |run.lines|;
    if n > 0 {
      LoopLines(run, n - 1);
      LoopStep(run, n - 1, run.lines[n - 1], run.last);
      PriceExact(run, n - 1, run.lines[n - 1], run.last);
    }
  }

  // ---------- A run with a negative sum ----------

  const SUB := 0x03

  /** PUSH1 0, PUSH1 1, SUB, PUSH1 0, PUSH1 0, CREATE. */
  function MinusOne(): Bytes {
    [0x60, 0, 0x60, 1, 0x03, 0x60, 0, 0x60, 0, 0xf0]
  }

  /** A step without a child. */
  function Plain(pc: int, op: nat, data: seq<int>): Line {
    Line(pc, op, FlatPrice(op), data, None)
  }

  /** These steps lead there, for this much gas. */
  predicate Reached(script: Bytes, gas: int, lines: seq<Line>, pc: int, data: seq<int>, cost: int) {
    && Follows(script, gas, lines, pc, data) && LinesCost(lines) == cost && LinesAhead(lines) == 0
  }

  lemma PlainOn(script: Bytes, gas: int, lines: seq<Line>, l: Line, next: int, after: seq<int>, cost: int)
    requires Reached(script, gas, lines, l.pc, l.data, cost) && cost < gas && OpAt(script, l.pc) == Some(l.op)
    requires l == Plain(l.pc, l.op, l.data) && Ordinary(l.op) && l.op != SSTORE && l.price == 1
    requires GoesOn(script, l, next, after)
    ensures Reached(script, gas, lines + [l], next, after, cost + 1)
  {
    FollowsOn(script, gas, lines, l, next, after);
    assert (lines + [l])[..|lines|] == lines;
  }

  lemma PushOn(script: Bytes, gas: int, lines: seq<Line>, pc: int, data: seq<int>, word: byte, cost: int)
    requires Reached(script, gas, lines, pc, data, cost) && cost < gas && OpAt(script, pc) == Some(PUSH1)
    requires PushBytes(script, pc + 1, 1) == Some([word])
    ensures Reached(script, gas, lines + [Plain(pc, PUSH1, data)], pc + 2, data + [word], cost + 1)
  {
    PushGoes(script, pc, data, word);
    PlainOn(script, gas, lines, Plain(pc, PUSH1, data), pc + 2, data + [word], cost);
  }

  lemma PushGoes(script: Bytes, pc: int, data: seq<int>, word: byte)
    requires PushBytes(script, pc + 1, 1) == Some([word])
    ensures GoesOn(script, Plain(pc, PUSH1, data), pc + 2, data + [word])
  {
    DigitsExact(0, word, []);
    assert (data + [word])[..|data|] == data[..|data|] && (data + [word])[|data|..] == [word];
  }

  lemma SubIsPlain()
    ensures Ordinary(SUB) && Pops(SUB) == 2 && Pushes(SUB) == 1 && FlatPrice(SUB) == 1
    ensures !Divides(SUB) && !Pushing(SUB) && SUB != JUMP && SUB != JUMPI && SUB != SSTORE
    ensures SUB != DUP && SUB != SWAP && SUB != PC && SUB != CREATE && SUB != CALL
  {}

  lemma MinusOn(script: Bytes, gas: int, lines: seq<Line>, pc: int, data: seq<int>, cost: int)
    requires Reached(script, gas, lines, pc, data, cost) && cost < gas && |data| == 2 && OpAt(script, pc) == Some(SUB)
    ensures Reached(script, gas, lines + [Plain(pc, SUB, data)], pc + 1, [data[0] - data[1]], cost + 1)
  {
    SubIsPlain();
    MinusGoes(script, pc, data);
    PlainOn(script, gas, lines, Plain(pc, SUB, data), pc + 1, [data[0] - data[1]], cost);
  }

  lemma MinusGoes(script: Bytes, pc: int, data: seq<int>)
    requires |data| == 2
    ensures GoesOn(script, Plain(pc, SUB, data), pc + 1, [data[0] - data[1]])
  {
    SubIsPlain();
    var after := [data[0] - data[1]];
    assert after[..0] == data[..0] && after[0..] == after && Args(SUB, data) == data;
    assert Computed(SUB, data) == Some(data[0] - data[1]);
  }

  /** Two pushes in a row. */
  lemma PushesOn(script: Bytes, gas: int, lines: seq<Line>, pc: int, data: seq<int>, a: byte, b: byte, cost: int)
    returns (more: seq<Line>)
    requires Reached(script, gas, lines, pc, data, cost) && cost < gas - 1
    requires OpAt(script, pc) == Some(PUSH1) && PushBytes(script, pc + 1, 1) == Some([a])
    requires OpAt(script, pc + 2) == Some(PUSH1) && PushBytes(script, pc + 3, 1) == Some([b])
    ensures Reached(script, gas, more, pc + 4, data + [a] + [b], cost + 2)
  {
    PushOn(script, gas, lines, pc, data, a, cost);
    var one := lines + [Plain(pc, PUSH1, data)];
    PushOn(script, gas, one, pc + 2, data + [a], b, cost + 1);
    more := one + [Plain(pc + 2, PUSH1, data + [a])];
  }

  lemma Opcodes()
    ensures OpAt(MinusOne(), 0) == OpAt(MinusOne(), 2) == OpAt(MinusOne(), 5) == OpAt(MinusOne(), 7) == Some(PUSH1)
    ensures OpAt(MinusOne(), 4) == Some(SUB) && OpAt(MinusOne(), 9) == Some(CREATE)
  {}

  lemma Operands()
    ensures PushBytes(MinusOne(), 1, 1) == PushBytes(MinusOne(), 6, 1) == PushBytes(MinusOne(), 8, 1) == Some([0])
    ensures PushBytes(MinusOne(), 3, 1) == Some([1])
  {
    var m := MinusOne();
    assert m[1..2] == m[6..7] == m[8..9] == [0] && m[3..4] == [1];
  }

  /** A script that begins so. */
  predicate BeginsMinus(script: Bytes) {
    && OpAt(script, 0) == OpAt(script, 2) == OpAt(script, 5) == OpAt(script, 7) == Some(PUSH1)
    && OpAt(script, 4) == Some(SUB)
    && PushBytes(script, 1, 1) == PushBytes(script, 6, 1) == PushBytes(script, 8, 1) == Some([0])
    && PushBytes(script, 3, 1) == Some([1])
  }

  /** The first three steps leave -1. */
  lemma Subtracted(script: Bytes, data: seq<int>) returns (lines: seq<Line>)
    requires BeginsMinus(script) && data == []
    ensures Reached(script, 10, lines, 5, [-1], 3)
  {
    var none: seq<Line> := [];
    var two := PushesOn(script, 10, none, 0, data, 0, 1, 0);
    var pushed := data + [0] + [1];
    MinusOn(script, 10, two, 4, pushed, 2);
    assert [pushed[0] - pushed[1]] == [-1];
    lines := two + [Plain(4, SUB, pushed)];
  }

  /** And two more two zeros on top. */
  lemma Pushed(script: Bytes) returns (lines: seq<Line>)
    requires BeginsMinus(script)
    ensures Reached(script, 10, lines, 9, [-1] + [0] + [0], 5)
  {
    var three := Subtracted(script, []);
    lines := PushesOn(script, 10, three, 5, [-1], 0, 0, 3);
  }

  /** A run that ends with a panic of CREATE after its charge. */
  lemma CreateFails(script: Bytes, gas: int, lines: seq<Line>, l: Line)
    requires Follows(script, gas, lines, l.pc, l.data) && Paid(script, l, GasAfter(gas, lines))
    requires l.op == CREATE && l.child.None? && l.price < 0
    ensures var run := Run(script, gas, lines, l, Recovered);
            WellRun(run) && Cost(run) == LinesCost(lines) + l.price && !Tame(run)
  {
    CreatePriceSign(l.data[|l.data| - 2] + l.data[|l.data| - 3]);
  }

  /** With a negative sum CREATE has a negative price, and a run may cost less than nothing. */
  lemma NegativeCost() returns (run: Run)
    ensures WellRun(run) && run.script == MinusOne() && run.gas == 10 && Cost(run) == -95 && !Tame(run)
  {
    Opcodes();
    Operands();
    var lines := Pushed(MinusOne());
    var data := [-1] + [0] + [0];
    var last := Line(9, CREATE, -100, data, None);
    assert data[1] + data[0] == -1 && CalculateTxGas(-1) == -100;
    CreateFails(MinusOne(), 10, lines, last);
    run := Run(MinusOne(), 10, lines, last, Recovered);
  }
}
