/**
 What the gas machine of ethchain/vm.go and ethchain/closure.go does, written down: a run is the sequence of its steps,
 each with the stack before it, the price that was paid and the run of the child frame it started.

 Stack words are integers of either sign, as in the source. EXP, XOR, BYTE, the memory and the world state are left
 open: a word or a failure that depends on them may be any. Prices, stack heights, the other arithmetic, pushes, jumps,
 frames and every way out of a frame are as in the source.
 */
module GasTraces {
  import opened ByteStrings

  // ---------- Prices (vm.go:10-30, 117-149) ----------

  const GAS_STEP: nat := 1
  const GAS_SHA: nat := 20
  const GAS_SLOAD: nat := 20
  const GAS_SSTORE: nat := 100
  const GAS_BALANCE: nat := 20
  const GAS_CALL: nat := 20
  const GAS_MEMORY: nat := 1

  const STOP := 0x00
  const DIV := 0x04
  const SMOD := 0x07
  const SHA3 := 0x20
  const BALANCE := 0x31
  const DUP := 0x52
  const SWAP := 0x53
  const MLOAD := 0x54
  const MSTORE := 0x55
  const MSTORE8 := 0x56
  const SLOAD := 0x57
  const SSTORE := 0x58
  const JUMP := 0x59
  const JUMPI := 0x5a
  const PC := 0x5b
  const MSIZE := 0x5c
  const PUSH1 := 0x60
  const PUSH32 := 0x7f
  const CREATE := 0xf0
  const CALL := 0xf1
  const RETURN := 0xf2
  const SUICIDE := 0xff

  /** CalculateTxGas; Div rounds towards minus infinity, as big.Int.Div does for a positive divisor. */
  function CalculateTxGas(initSize: int): int {
    initSize / 32 * GAS_SSTORE
  }

  /** The price of creation is never negative exactly when the size and offset words do not add up below zero. */
  lemma CreatePriceSign(initSize: int)
    ensures CalculateTxGas(initSize) >= 0 <==> initSize >= 0
    ensures CalculateTxGas(initSize) == 0 <==> 0 <= initSize < 32
  {}

  /**
   SSTORE, by whether the storage word looked at is empty and the value looked at; ethutil.Big2 is 1 (common.go:50).
   */
  function StorePrice(empty: bool, y: int): nat {
    if !empty && y == 0 then 0 else GAS_SSTORE
  }

  /** The flat prices. */
  function FlatPrice(op: nat): (p: nat)
    ensures p >= 1
  {
    if op == SHA3 then GAS_SHA
    else if op == SLOAD then GAS_SLOAD
    else if op == BALANCE then GAS_BALANCE
    else if op == CALL then GAS_CALL
    else if op == MLOAD || op == MSIZE || op == MSTORE8 || op == MSTORE then GAS_MEMORY
    else GAS_STEP
  }

  // ---------- Stack effects (vm.go:157-546) ----------

  predicate Known(op: nat) {
    || op <= 0x0d || 0x10 <= op <= 0x13 || op == SHA3 || 0x30 <= op <= 0x37 || 0x40 <= op <= 0x45
    || 0x51 <= op <= 0x5c || PUSH1 <= op <= PUSH32 || CREATE <= op <= RETURN || op == 0xfe || op == SUICIDE
  }

  function Pops(op: nat): nat {
    if op == 0x09 || op == 0x0d then 1                        // NEG, NOT
    else if 0x01 <= op <= 0x13 then 2                         // arithmetic and bits
    else if op == SHA3 then 2
    else if op == 0x35 then 1                                 // CALLDATALOAD
    else if op == 0x51 || op == 0x52 then 1                   // POP, DUP
    else if op == 0x53 then 2                                 // SWAP
    else if op == MLOAD || op == SLOAD || op == JUMP then 1
    else if op == MSTORE || op == MSTORE8 || op == SSTORE || op == JUMPI then 2
    else if op == CREATE then 3
    else if op == CALL then 7
    else if op == RETURN then 2
    else if op == SUICIDE then 1
    else 0
  }

  function Pushes(op: nat): nat {
    if 0x01 <= op <= 0x13 || op == SHA3 then 1
    else if 0x30 <= op <= 0x45 then 1
    else if op == 0x52 || op == 0x53 then 2
    else if op == MLOAD || op == SLOAD || op == 0x5b || op == MSIZE then 1
    else if PUSH1 <= op <= PUSH32 then 1
    else if op == CREATE || op == CALL then 1
    else 0
  }

  // ---------- Steps and runs ----------

  /** The low 64 bits, as `big.Int.Int64` gives them: those of the magnitude, negated for a negative number. */
  function Int64(x: int): int {
    var low := (if x < 0 then -x else x) % 0x1_0000_0000_0000_0000;
    var signed := if low < 0x8000_0000_0000_0000 then low else low - 0x1_0000_0000_0000_0000;
    if x < 0 && signed > -0x8000_0000_0000_0000 then -signed else signed
  }

  /**
   Gets(x, 1) as an opcode: 0 behind the script, and everywhere in a script of one byte; a panic (None) when the
   low 64 bits of the position read as a negative number.
   */
  function OpAt(script: Bytes, pc: int): Option<nat> {
    var x := Int64(pc);
    if x >= |script| || 1 >= |script| then Some(0)
    else if x < 0 then None
    else Some(script[x])
  }

  /** How a frame ends; `Unfinished` when the steps that are followed run out first. */
  datatype Exit = Stopped | Returned | Invalid(op: nat) | Insufficient | Recovered | Unfinished

  /** The exits without an error. */
  predicate Fine(exit: Exit) {
    exit.Stopped? || exit.Returned?
  }

  /** One turn of the loop: where it stood, its opcode and price, the stack before it, and the child frame it ran. */
  datatype Line = Line(pc: int, op: nat, price: int, data: seq<int>, child: Option<Run>)

  /** A frame with its script and gas, the steps that went on, and the one in which it ended. */
  datatype Run = Run(script: Bytes, gas: int, lines: seq<Line>, last: Line, exit: Exit)

  /** The opcodes that neither end the frame nor start another. */
  predicate Ordinary(op: nat) {
    Known(op) && op != STOP && op != CREATE && op != CALL && op != RETURN && op != SUICIDE
  }

  /** Opcodes that read or write memory, input, storage or accounts, any of which may panic. */
  predicate Touches(op: nat) {
    op == SHA3 || 0x30 <= op <= 0x45 || MLOAD <= op <= SSTORE || op == RETURN || op == SUICIDE
  }

  predicate Divides(op: nat) {
    DIV <= op <= SMOD
  }

  predicate Pushing(op: nat) {
    PUSH1 <= op <= PUSH32
  }

  /** Where an opcode goes on. */
  function Target(op: nat, pc: int, data: seq<int>): int
    requires |data| >= Pops(op)
  {
    var n := |data|;
    if op == JUMP then data[n - 1]
    else if op == JUMPI && data[n - 2] == 1 then data[n - 1]
    else if Pushing(op) then pc + (op - PUSH1 + 1) + 1
    else pc + 1
  }

  /** The words an opcode takes. */
  function Args(op: nat, data: seq<int>): (args: seq<int>)
    requires |data| >= Pops(op)
    ensures |args| == Pops(op)
  {
    data[|data| - Pops(op)..]
  }

  /** The gas a CALL asks for: third word from the top. */
  function Asked(data: seq<int>): int
    requires |data| >= 7
  {
    data[|data| - 3]
  }

  /**
   The price of a step, by the stack it sees. SSTORE looks at the word at the bottom; below two words, at whatever was
   there before.
   */
  predicate PriceFits(op: nat, data: seq<int>, price: int) {
    if op == CREATE then |data| >= 3 && price == CalculateTxGas(data[|data| - 2] + data[|data| - 3])
    else if op == SSTORE then price == GAS_SSTORE || (price == 0 && (|data| >= 2 ==> data[0] == 0))
    else price == FlatPrice(op)
  }

  /** Looking at the stack for the price may panic. */
  predicate Unpriced(op: nat, data: seq<int>) {
    (op == CREATE && |data| < 3) || (op == SSTORE && |data| < 2)
  }

  const TWO_256: nat :=
    0x1_0000000000000000_0000000000000000_0000000000000000_0000000000000000

  /** SDIV and SMOD: a number above 2^256 is taken from 2^256. */
  function Signed(x: int): int {
    if x > TWO_256 then TWO_256 - x else x
  }

  function Truth(b: bool): int {
    if b then 1 else 0
  }

  /**
   What arithmetic and comparisons compute, on numbers that are not reduced; the later word on the stack is the second.
   Div and Mod of `big.Int` leave no negative remainder, as `/` and `%` here.
   */
  function Computed(op: nat, args: seq<int>): (word: Option<int>)
    requires |args| == Pops(op)
  {
    match op
    case 0x01 => Some(args[0] + args[1])
    case 0x02 => Some(args[0] * args[1])
    case 0x03 => Some(args[0] - args[1])
    case 0x04 => if args[1] == 0 then None else Some(args[0] / args[1])
    case 0x05 => if Signed(args[1]) == 0 then None else Some(Signed(Signed(args[0]) / Signed(args[1])))
    case 0x06 => if args[1] == 0 then None else Some(args[0] % args[1])
    case 0x07 => if Signed(args[1]) == 0 then None else Some(Signed(Signed(args[0]) % Signed(args[1])))
    case 0x09 => Some(TWO_256 - args[0])
    case 0x0a => Some(Truth(args[0] < args[1]))
    case 0x0b => Some(Truth(args[0] > args[1]))
    case 0x0c => Some(Truth(args[0] == args[1]))
    case 0x0d => Some(Truth(args[0] == 0))
    case 0x10 => Some(Truth(args[0] >= 1 && args[1] >= 1))
    case 0x11 => Some(Truth(args[0] >= 0 || args[1] >= 0))
    case 0x45 => Some(0)
    case _ => None
  }

  /** The bytes of a push; None when the slice goes beyond the script, into spare capacity or a panic. */
  function PushBytes(script: Bytes, pc: int, n: nat): Option<Bytes> {
    var x := Int64(pc);
    if x >= |script| || n >= |script| then Some([])
    else if x < 0 || x + n > |script| then None
    else Some(script[x..x + n])
  }

  /** The words that an opcode pushes, as far as they do not depend on what is left open. */
  predicate WordsFit(script: Bytes, op: nat, pc: int, args: seq<int>, child: Option<Run>, words: seq<int>)
    requires |args| == Pops(op)
  {
    && |words| == Pushes(op)
    && (op == DUP ==> words == [args[0], args[0]])
    && (op == SWAP ==> words == [args[1], args[0]])
    && (op == PC ==> words == [pc])
    && (Computed(op, args).Some? ==> words == [Computed(op, args).value])
    && (Pushing(op) && PushBytes(script, pc + 1, op - PUSH1 + 1).Some? ==>
          words == [FromBigEndian(PushBytes(script, pc + 1, op - PUSH1 + 1).value)])
    && (op == CREATE ==> child.Some? && (!Fine(child.value.exit) ==> words == [0]))
    && (op == CALL ==> words == [if child.Some? && Fine(child.value.exit) then 1 else 0])
  }

  /** A child frame runs in a CREATE with all the gas, and in a CALL with what was asked for, or all for 0. */
  predicate ChildFits(l: Line, gas: int) {
    l.child.Some? ==>
      var g := l.child.value.gas;
      || (l.op == CREATE && |l.data| >= 3 && g == gas)
      || (l.op == CALL && |l.data| >= 7 && Asked(l.data) <= gas
          && g == if Asked(l.data) == 0 then gas else Asked(l.data))
  }

  /** The step's price was paid from `gas`. */
  predicate Paid(script: Bytes, l: Line, gas: int) {
    && OpAt(script, l.pc) == Some(l.op) && PriceFits(l.op, l.data, l.price) && l.price <= gas
    && ChildFits(l, gas - l.price)
  }

  predicate Finished(l: Line) {
    l.child.Some? ==> !l.child.value.exit.Unfinished?
  }

  /** The step went on at `pc` with the stack `data`. */
  predicate GoesOn(script: Bytes, l: Line, pc: int, data: seq<int>) {
    && (Ordinary(l.op) || l.op == CREATE || l.op == CALL) && Finished(l) && |l.data| >= Pops(l.op)
    && (Divides(l.op) ==> l.data[|l.data| - 1] != 0)
    && pc == Target(l.op, l.pc, l.data)
    && |data| == |l.data| - Pops(l.op) + Pushes(l.op)
    && data[..|l.data| - Pops(l.op)] == l.data[..|l.data| - Pops(l.op)]
    && WordsFit(script, l.op, l.pc, Args(l.op, l.data), l.child, data[|l.data| - Pops(l.op)..])
  }

  /** Its opcode ended the frame. */
  predicate Leaves(l: Line, exit: Exit) {
    && l.child.None?
    && (!Known(l.op) || l.op == STOP || ((l.op == RETURN || l.op == SUICIDE) && |l.data| >= Pops(l.op)))
    && exit == if l.op == RETURN then Returned else if l.op == STOP || l.op == SUICIDE then Stopped else Invalid(l.op)
  }

  /** It may have panicked after it was paid for. */
  predicate MayPanic(script: Bytes, l: Line) {
    && Known(l.op) && l.op != STOP && Finished(l)
    && (|l.data| < Pops(l.op) || Touches(l.op) || l.op == CREATE || l.op == CALL
        || (Pushing(l.op) && PushBytes(script, l.pc + 1, l.op - PUSH1 + 1).None?)
        || (Divides(l.op) && l.data[|l.data| - 1] == 0))
  }

  /** Nothing was paid. */
  predicate Unpaid(l: Line) {
    l.price == 0 && l.child.None?
  }

  /** The step in which a frame with this gas ended. */
  predicate EndsAs(script: Bytes, gas: int, l: Line, exit: Exit) {
    match exit
    case Insufficient =>
      OpAt(script, l.pc) == Some(l.op) && PriceFits(l.op, l.data, l.price) && gas < l.price && l.child.None?
    case Recovered =>
      || (Unpaid(l) && (OpAt(script, l.pc) == None || (OpAt(script, l.pc) == Some(l.op) && Unpriced(l.op, l.data))))
      || (Paid(script, l, gas) && MayPanic(script, l))
    case Unfinished => Unpaid(l) || (Paid(script, l, gas) && !Finished(l))
    case _ => Paid(script, l, gas) && Leaves(l, exit)
  }

  // ---------- What a run costs ----------

  /** The prices paid in a step and in the whole run of its child. */
  function LineCost(l: Line): int
    decreases l
  {
    l.price + if l.child.Some? then Cost(l.child.value) else 0
  }

  function LinesCost(lines: seq<Line>): int
    decreases lines
  {
    if lines == [] then 0 else LinesCost(lines[..|lines| - 1]) + LineCost(lines[|lines| - 1])
  }

  /** The prices paid in a run and its children. */
  function Cost(run: Run): int
    decreases run
  {
    LinesCost(run.lines) + if run.exit.Insufficient? then 0 else LineCost(run.last)
  }

  /** What a CREATE hands past its frame: its child's rest goes to the frame's own callee. */
  function LineAhead(l: Line): int {
    if l.op == CREATE && l.child.Some? then l.child.value.gas - Cost(l.child.value) else 0
  }

  function LinesAhead(lines: seq<Line>): int {
    if lines == [] then 0 else LinesAhead(lines[..|lines| - 1]) + LineAhead(lines[|lines| - 1])
  }

  function Ahead(run: Run): int {
    LinesAhead(run.lines) + LineAhead(run.last)
  }

  /** The gas that is left behind these steps. */
  function GasAfter(gas: int, lines: seq<Line>): int {
    gas - LinesCost(lines) - LinesAhead(lines)
  }

  // ---------- Runs that a script makes ----------

  /** The steps lead to `pc` and the stack `data`: each goes on where the one before left off, and is paid for. */
  predicate Follows(script: Bytes, gas: int, lines: seq<Line>, pc: int, data: seq<int>)
    decreases lines
  {
    if lines == [] then pc == 0 && data == [] else
      var front, l := lines[..|lines| - 1], lines[|lines| - 1];
      && Follows(script, gas, front, l.pc, l.data)
      && Paid(script, l, GasAfter(gas, front)) && GoesOn(script, l, pc, data) && ChildRuns(l)
  }

  predicate ChildRuns(l: Line)
    decreases l
  {
    l.child.Some? ==> WellRun(l.child.value)
  }

  /** Exactly what a frame with this script and gas may do. */
  predicate WellRun(run: Run)
    decreases run
  {
    && Follows(run.script, run.gas, run.lines, run.last.pc, run.last.data)
    && EndsAs(run.script, GasAfter(run.gas, run.lines), run.last, run.exit) && ChildRuns(run.last)
  }

  // ---------- How long a run can be ----------

  /** The turns of the loop in a step, its child's included. */
  function LineTurns(l: Line): nat
    decreases l
  {
    1 + if l.child.Some? then Turns(l.child.value) else 0
  }

  function LinesTurns(lines: seq<Line>): nat
    decreases lines
  {
    if lines == [] then 0 else LinesTurns(lines[..|lines| - 1]) + LineTurns(lines[|lines| - 1])
  }

  /** The turns of the loop in a run and its children; a run that is left unfinished did not begin its last. */
  function Turns(run: Run): nat
    decreases run
  {
    LinesTurns(run.lines) + if run.exit.Unfinished? && run.last.child.None? then 0 else LineTurns(run.last)
  }

  /** No CREATE sees a negative sum and no CALL asks for a negative amount, here or in a child. */
  predicate Tame(run: Run)
    decreases run
  {
    TameLines(run.lines) && TameLine(run.last)
  }

  predicate TameLines(lines: seq<Line>)
    decreases lines
  {
    lines != [] ==> TameLines(lines[..|lines| - 1]) && TameLine(lines[|lines| - 1])
  }

  predicate TameLine(l: Line)
    decreases l
  {
    && (l.op == CREATE && |l.data| >= 3 ==> l.data[|l.data| - 2] + l.data[|l.data| - 3] >= 0)
    && (l.op == CALL && |l.data| >= 7 ==> Asked(l.data) >= 0)
    && (l.child.Some? ==> Tame(l.child.value))
  }

  /** What a run costs and how long it takes, by its gas. */
  predicate Bounded(run: Run) {
    0 <= Cost(run) && 0 <= Ahead(run) && Cost(run) + Ahead(run) <= run.gas && Turns(run) <= 2 * Cost(run) + 1
  }

  lemma PriceSign(op: nat, data: seq<int>, price: int)
    requires PriceFits(op, data, price)
    requires op == CREATE ==> data[|data| - 2] + data[|data| - 3] >= 0
    ensures price >= 0 && (op != CREATE && op != SSTORE ==> price >= 1)
  {
    CreatePriceSign(if op == CREATE then data[|data| - 2] + data[|data| - 3] else 0);
  }

  /** A step that was paid for by a tame run. */
  lemma {:induction false} LineBounded(script: Bytes, l: Line, gas: int)
    requires Paid(script, l, gas) && ChildRuns(l) && TameLine(l) && gas >= 0
    ensures 0 <= LineCost(l) && 0 <= LineAhead(l) && LineCost(l) + LineAhead(l) <= gas
    ensures l.child.None? ==> LineTurns(l) == 1 && LineCost(l) == l.price >= 0
    ensures l.child.Some? ==> |l.data| >= 3 && LineTurns(l) <= 2 * LineCost(l) + 2
    decreases l, 0
  {
    PriceSign(l.op, l.data, l.price);
    if l.child.Some? {
      RunBounded(l.child.value);
    }
  }

  /** A step pays for the words it leaves more than it finds. */
  lemma {:induction false} GoesOnBounded(script: Bytes, l: Line, gas: int, pc: int, data: seq<int>)
    requires Paid(script, l, gas) && ChildRuns(l) && TameLine(l) && gas >= 0 && GoesOn(script, l, pc, data)
    ensures LineTurns(l) + |data| <= 2 * LineCost(l) + |l.data|
    decreases l, 1
  {
    LineBounded(script, l, gas);
    PriceSign(l.op, l.data, l.price);
  }

  lemma {:induction false} LinesBounded(script: Bytes, gas: int, lines: seq<Line>, pc: int, data: seq<int>)
    requires Follows(script, gas, lines, pc, data) && TameLines(lines) && gas >= 0
    ensures LinesTurns(lines) + |data| <= 2 * LinesCost(lines)
    ensures 0 <= LinesCost(lines) && 0 <= LinesAhead(lines) && 0 <= GasAfter(gas, lines)
    decreases lines
  {
    if lines != [] {
      var front, l := lines[..|lines| - 1], lines[|lines| - 1];
      LinesBounded(script, gas, front, l.pc, l.data);
      LineBounded(script, l, GasAfter(gas, front));
      GoesOnBounded(script, l, GasAfter(gas, front), pc, data);
    }
  }

  /**
   A run without negative sums and requests costs nothing less than zero and, with what its CREATEs hand past the frame,
   no more than its gas; and the loop turns at most once more than twice its cost.
   */
  lemma {:induction false} RunBounded(run: Run)
    requires WellRun(run) && Tame(run) && run.gas >= 0
    ensures Bounded(run)
    decreases run
  {
    var gas := GasAfter(run.gas, run.lines);
    LinesBounded(run.script, run.gas, run.lines, run.last.pc, run.last.data);
    if Paid(run.script, run.last, gas) {
      LineBounded(run.script, run.last, gas);
    }
  }

  /** A frame that made no CREATE hands nothing past itself: what it reports as used is what it cost. */
  lemma ReportIsCost(run: Run)
    requires run.last.op != CREATE && forall i :: 0 <= i < |run.lines| ==> run.lines[i].op != CREATE
    ensures Ahead(run) == 0
  {
    NothingAhead(run.lines);
  }

  lemma {:induction false} NothingAhead(lines: seq<Line>)
    requires forall i :: 0 <= i < |lines| ==> lines[i].op != CREATE
    ensures LinesAhead(lines) == 0
  {
    if lines != [] {
      NothingAhead(lines[..|lines| - 1]);
    }
  }

  /** One more step that went on. */
  lemma FollowsOn(script: Bytes, gas: int, lines: seq<Line>, l: Line, pc: int, data: seq<int>)
    requires Follows(script, gas, lines, l.pc, l.data) && ChildRuns(l)
    requires Paid(script, l, GasAfter(gas, lines)) && GoesOn(script, l, pc, data)
    ensures Follows(script, gas, lines + [l], pc, data)
    ensures GasAfter(gas, lines + [l]) == GasAfter(gas, lines) - LineCost(l) - LineAhead(l)
    ensures LinesCost(lines + [l]) == LinesCost(lines) + LineCost(l)
    ensures LinesTurns(lines + [l]) == LinesTurns(lines) + LineTurns(l)
  {
    assert (lines + [l])[..|lines|] == lines;
  }
}
