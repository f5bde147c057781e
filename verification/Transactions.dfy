/**
 Message transactions to accounts without code: ProcessTransaction of ethchain/transaction_pool.go and
 ApplyTransactions of ethchain/state_manager.go, over whole lists.

 The state trie is the map it refines (PatriciaTree, TrieTheorems). An account is written as RLP and read
 back; what comes back is not always what went in. The sender a signature recovers to is uninterpreted.
 */
module Transactions {
  import opened ByteStrings
  import opened Rlp

  // ---------- Accounts (state_object.go, state.go) ----------

  datatype Account = Account(amount: int, nonce: nat)

  type Accounts = map<Bytes, Account>

  function Abs(n: int): nat {
    if n < 0 then -n else n
  }

  /** RlpEncode, as an item: `big.Int.Bytes` has no sign; the storage root and the code hash come last. */
  function AccountItem(a: Account, root: Item, codeHash: Bytes): Item {
    List([Str(ToBigEndian(Abs(a.amount))), Str(ToBigEndian(a.nonce)), root, Str(codeHash)])
  }

  /** RlpDecode's reading of the first two fields: `Value.BigInt` and `Value.Uint`. */
  function ReadAccount(x: Item): Account {
    match x
    case List(fields) =>
      if |fields| >= 2 && fields[0].Str? && fields[1].Str? then
        Account(FromBigEndian(fields[0].str), ReadVarint(fields[1].str))
      else Account(0, 0)
    case Str(_) => Account(0, 0)
  }

  /** The account that is read back once `a` has been stored. */
  function Reread(a: Account): Account {
    Account(Abs(a.amount), ReadVarint(ToBigEndian(a.nonce)))
  }

  /** Storing an account and reading it gives exactly `Reread`, whatever its storage root and code hash. */
  lemma AccountReread(a: Account, root: Item, codeHash: Bytes)
    requires |Encoded(AccountItem(a, root, codeHash))| < 65536
    ensures var data := Encoded(AccountItem(a, root, codeHash));
            DecodeAt(data, 0).Some? && ReadAccount(DecodeAt(data, 0).value.0) == Reread(a)
  {
    var x := AccountItem(a, root, codeHash);
    SmallReadsBack(x);
    RoundTrip([], x, []);
    assert [] + Encoded(x) + [] == Encoded(x);
    FromToBigEndian(Abs(a.amount));
  }

  /** Numbers whose big-endian form `ReadVarint` reads in full. */
  predicate Readable(n: nat) {
    |ToBigEndian(n)| <= 2 || |ToBigEndian(n)| == 4 || |ToBigEndian(n)| == 8
  }

  /** Reading a stored number never gives more, and the number itself exactly when it is readable. */
  lemma ReadNumber(n: nat)
    ensures ReadVarint(ToBigEndian(n)) <= n
    ensures ReadVarint(ToBigEndian(n)) == n <==> Readable(n)
  {
    var b := ToBigEndian(n);
    FromToBigEndian(n);
    if |b| == 1 {
      assert b[..0] == [];
    } else if |b| > 1 {
      LeadingByteBound(b);
    }
  }

  /** The smallest unreadable number. */
  lemma ReadableBelow(n: nat)
    ensures n < 65536 ==> Readable(n)
    ensures !Readable(65536) && ReadVarint(ToBigEndian(65536)) == 1
  {
    BigEndianWidth(n, 2);
    assert Pow256(2) == 65536;
    assert ToBigEndian(65536) == ToBigEndian(256) + [0] == ToBigEndian(1) + [0, 0] == [1, 0, 0];
  }

  /** State.GetAccount. */
  function AccountAt(m: Accounts, addr: Bytes): Account {
    if addr in m then m[addr] else Account(0, 0)
  }

  /** State.UpdateStateObject, as later reads see it. */
  function Store(m: Accounts, addr: Bytes, a: Account): Accounts {
    m[addr := Reread(a)]
  }

  // ---------- One transaction (transaction_pool.go:95-154) ----------

  /** `sender` is what the signature recovers to; None when recovering it panics. */
  datatype Tx = Tx(sender: Option<Bytes>, nonce: nat, recipient: Bytes, value: nat,
                   gas: nat, gasPrice: nat, data: Bytes)

  datatype Error = NonceErr | Insufficient | BadSignature

  const GAS_TX: nat := 500
  const GAS_SSTORE: nat := 100

  datatype Outcome = Outcome(accounts: Accounts, gas: nat, err: Option<Error>)

  predicate ToSelf(tx: Tx) {
    tx.sender == Some(tx.recipient)
  }

  function DataGas(tx: Tx): nat {
    |tx.data| / 32 * GAS_SSTORE
  }

  function Cost(tx: Tx): nat {
    tx.value + tx.gas * tx.gasPrice
  }

  /** What a successful transaction takes out of circulation. */
  function Fee(tx: Tx): nat {
    if ToSelf(tx) then GAS_TX * tx.gasPrice else tx.gas * tx.gasPrice
  }

  /** What becomes of a transaction: success, or which error. */
  function Verdict(tx: Tx, m: Accounts): Option<Error> {
    if tx.sender.None? then Some(BadSignature)
    else if AccountAt(m, tx.sender.value).nonce != tx.nonce then Some(NonceErr)
    else if AccountAt(m, tx.sender.value).amount < Cost(tx) then Some(Insufficient)
    else None
  }

  predicate Succeeds(tx: Tx, m: Accounts) {
    Verdict(tx, m).None?
  }

  /** The sender's object when a transaction has succeeded; its amount may be below zero. */
  function SenderAfter(tx: Tx, m: Accounts): Account
    requires tx.sender.Some?
  {
    var a := AccountAt(m, tx.sender.value);
    Account(a.amount - if ToSelf(tx) then Fee(tx) else Cost(tx), a.nonce + 1)
  }

  function ReceiverAfter(tx: Tx, m: Accounts): Account {
    var a := AccountAt(m, tx.recipient);
    Account(a.amount + tx.value, a.nonce)
  }

  /** The accounts after a successful transaction: the receiver is stored first, then the sender. */
  function Settled(tx: Tx, m: Accounts): Accounts
    requires tx.sender.Some?
  {
    Store(if ToSelf(tx) then m else Store(m, tx.recipient, ReceiverAfter(tx, m)), tx.sender.value, SenderAfter(tx, m))
  }

  function Process(tx: Tx, m: Accounts): Outcome {
    match Verdict(tx, m)
    case None => Outcome(Settled(tx, m), DataGas(tx) + if ToSelf(tx) then GAS_TX else 0, None)
    case Some(Insufficient) => Outcome(m, DataGas(tx), Some(Insufficient))
    case Some(e) => Outcome(m, 0, Some(e))
  }

  class StateObject {
    const address: Bytes
    var amount: int
    var nonce: nat

    constructor (address: Bytes, a: Account)
      ensures this.address == address && Value() == a
    {
      this.address, amount, nonce := address, a.amount, a.nonce;
    }

    function Value(): Account
      reads this
    {
      Account(amount, nonce)
    }

    method AddAmount(n: int)
      modifies this`amount
      ensures amount == old(amount) + n
    {
      amount := amount + n;
    }

    method SubAmount(n: int)
      modifies this`amount
      ensures amount == old(amount) - n
    {
      amount := amount - n;
    }
  }

  class State {
    var accounts: Accounts

    constructor (accounts: Accounts)
      ensures this.accounts == accounts
    {
      this.accounts := accounts;
    }

    method GetAccount(addr: Bytes) returns (a: StateObject)
      ensures fresh(a) && a.address == addr && a.Value() == AccountAt(accounts, addr)
    {
      a := new StateObject(addr, AccountAt(accounts, addr));
    }

    method UpdateStateObject(a: StateObject)
      modifies this
      ensures accounts == Store(old(accounts), a.address, a.Value())
    {
      accounts := Store(accounts, a.address, a.Value());
    }
  }

  /** The second half: both objects are changed and stored, the receiver first. */
  method Transfer(tx: Tx, sender: StateObject, receiver: StateObject, state: State) returns (gas: nat)
    requires tx.sender == Some(sender.address) && receiver.address == tx.recipient && sender != receiver
    requires sender.Value() == AccountAt(state.accounts, sender.address)
    requires receiver.Value() == AccountAt(state.accounts, receiver.address)
    modifies sender, receiver, state
    ensures state.accounts == Settled(tx, old(state.accounts)) && gas == if ToSelf(tx) then GAS_TX else 0
  {
    gas := 0;
    sender.nonce := sender.nonce + 1;
    if receiver.address == sender.address {
      gas := gas + GAS_TX;
      sender.SubAmount(GAS_TX * tx.gasPrice);
    } else {
      sender.SubAmount(tx.value + tx.gas * tx.gasPrice);
      receiver.AddAmount(tx.value);
      state.UpdateStateObject(receiver);
    }
    state.UpdateStateObject(sender);
  }

  method ProcessTransaction(tx: Tx, state: State) returns (gas: nat, err: Option<Error>)
    modifies state
    ensures Outcome(state.accounts, gas, err) == Process(tx, old(state.accounts))
  {
    gas := 0;
    if tx.sender.None? {
      return 0, Some(BadSignature);
    }
    var sender := state.GetAccount(tx.sender.value);
    if sender.nonce != tx.nonce {
      return 0, Some(NonceErr);
    }
    var txTotalBytes := |tx.data| / 32;
    gas := gas + txTotalBytes * GAS_SSTORE;
    var totAmount := tx.value + tx.gas * tx.gasPrice;
    if sender.amount < totAmount {
      return gas, Some(Insufficient);
    }
    var receiver := state.GetAccount(tx.recipient);
    var more := Transfer(tx, sender, receiver, state);
    gas := gas + more;
    err := None;
  }

  // ---------- A list of transactions (state_manager.go:114-142) ----------

  /** The accounts stand for the state root. */
  datatype Receipt = Receipt(tx: Tx, postState: Accounts, cumulative: nat)

  datatype Run = Run(accounts: Accounts, total: nat, receipts: seq<Receipt>, valid: seq<Tx>)

  /** One turn of the loop: a nonce error leaves no trace; every other transaction, failed or not, gets a receipt. */
  function Turn(r: Run, tx: Tx): Run {
    var o := Process(tx, r.accounts);
    if o.err == Some(NonceErr) then r
    else Run(o.accounts, r.total + o.gas, r.receipts + [Receipt(tx, o.accounts, r.total + o.gas)], r.valid + [tx])
  }

  function Applied(txs: seq<Tx>, m: Accounts): Run {
    if txs == [] then Run(m, 0, [], []) else Turn(Applied(txs[..|txs| - 1], m), txs[|txs| - 1])
  }

  /** To accounts without code, ApplyTransaction runs no script. */
  method ApplyTransactions(state: State, txs: seq<Tx>) returns (receipts: seq<Receipt>, valid: seq<Tx>)
    modifies state
    ensures Applied(txs, old(state.accounts)) ==
            Run(state.accounts, Applied(txs, old(state.accounts)).total, receipts, valid)
  {
    receipts, valid := [], [];
    var total := 0;
    for i := 0 to |txs|
      invariant Applied(txs[..i], old(state.accounts)) == Run(state.accounts, total, receipts, valid)
    {
      assert txs[..i + 1][..i] == txs[..i];
      var gas, err := ProcessTransaction(txs[i], state);
      if err == Some(NonceErr) {
        continue;
      }
      total := total + gas;
      receipts := receipts + [Receipt(txs[i], state.accounts, total)];
      valid := valid + [txs[i]];
    }
    assert txs[..|txs|] == txs;
  }

  // ---------- What a run leaves out ----------

  /** Running the valid transactions alone, as a receiver of the block does, is the same run. */
  lemma {:induction false} ReplayValid(txs: seq<Tx>, m: Accounts)
    ensures Applied(Applied(txs, m).valid, m) == Applied(txs, m)
  {
    if txs != [] {
      var front := txs[..|txs| - 1];
      ReplayValid(front, m);
      var r := Applied(front, m);
      assert (r.valid + [txs[|txs| - 1]])[..|r.valid|] == r.valid;
    }
  }

  /** The last receipt tells the total and the accounts; without one, nothing happened. */
  lemma {:induction false} LastReceipt(txs: seq<Tx>, m: Accounts)
    ensures var r := Applied(txs, m);
            && |r.receipts| == |r.valid|
            && (r.receipts == [] ==> r.total == 0 && r.accounts == m)
            && (r.receipts != [] ==>
                  r.receipts[|r.receipts| - 1] == Receipt(r.valid[|r.valid| - 1], r.accounts, r.total))
  {
    if txs != [] {
      LastReceipt(txs[..|txs| - 1], m);
    }
  }

  // ---------- Nonces ----------

  /** Accounts as reading the trie gives them. */
  ghost predicate Stored(m: Accounts) {
    forall addr :: addr in m ==> m[addr].amount >= 0 && Readable(m[addr].nonce)
  }

  lemma RereadStored(a: Account)
    ensures Reread(a).amount >= 0 && Readable(Reread(a).nonce)
  {
    ReadNumber(a.nonce);
    var b := ToBigEndian(a.nonce);
    if !Readable(a.nonce) {
      ReadableBelow(b[0]);
    }
  }

  lemma StoreStored(m: Accounts, addr: Bytes, a: Account)
    requires Stored(m)
    ensures Stored(Store(m, addr, a))
  {
    RereadStored(a);
  }

  lemma SettledStored(tx: Tx, m: Accounts)
    requires Stored(m) && tx.sender.Some?
    ensures Stored(Settled(tx, m))
  {
    if ToSelf(tx) {
      StoreStored(m, tx.recipient, SenderAfter(tx, m));
    } else {
      StoreStored(m, tx.recipient, ReceiverAfter(tx, m));
      StoreStored(Store(m, tx.recipient, ReceiverAfter(tx, m)), tx.sender.value, SenderAfter(tx, m));
    }
  }

  lemma {:induction false} AppliedStored(txs: seq<Tx>, m: Accounts)
    requires Stored(m)
    ensures Stored(Applied(txs, m).accounts)
  {
    if txs != [] {
      AppliedStored(txs[..|txs| - 1], m);
      var r := Applied(txs[..|txs| - 1], m);
      if Succeeds(txs[|txs| - 1], r.accounts) {
        SettledStored(txs[|txs| - 1], r.accounts);
      }
    }
  }

  /** The transaction at `i` succeeds when its turn comes. */
  ghost predicate SucceedsAt(txs: seq<Tx>, m: Accounts, i: nat)
    requires i < |txs|
  {
    Succeeds(txs[i], Applied(txs[..i], m).accounts)
  }

  /** One if the transaction at `i` is one of `s` that succeeds. */
  ghost function Success(txs: seq<Tx>, m: Accounts, s: Bytes, i: nat): nat
    requires i < |txs|
  {
    if SucceedsAt(txs, m, i) && txs[i].sender == Some(s) then 1 else 0
  }

  /** How many of the transactions of `s` succeed. */
  ghost function Successes(txs: seq<Tx>, m: Accounts, s: Bytes): nat {
    if txs == [] then 0 else Successes(txs[..|txs| - 1], m, s) + Success(txs, m, s, |txs| - 1)
  }

  ghost predicate AllReadable(from: nat, c: nat) {
    forall j :: from < j <= from + c ==> Readable(j)
  }

  function NonceOf(m: Accounts, s: Bytes): nat {
    AccountAt(m, s).nonce
  }

  /** One transaction moves the sender's nonce on, as far as it is readable, and no other one's. */
  lemma NonceStep(tx: Tx, m: Accounts, s: Bytes)
    requires Stored(m) && Succeeds(tx, m)
    ensures NonceOf(Settled(tx, m), s) ==
            if tx.sender == Some(s) then ReadVarint(ToBigEndian(tx.nonce + 1)) else NonceOf(m, s)
  {
    ReadNumber(NonceOf(m, s));
    ReadableBelow(0);
    if s == tx.recipient && s !in m {
      ReadNumber(0);
    }
  }

  lemma TurnNonce(r: Run, tx: Tx, s: Bytes)
    requires Stored(r.accounts)
    ensures NonceOf(Turn(r, tx).accounts, s) ==
      if Succeeds(tx, r.accounts) && tx.sender == Some(s) then ReadVarint(ToBigEndian(NonceOf(r.accounts, s) + 1))
      else NonceOf(r.accounts, s)
  {
    if Succeeds(tx, r.accounts) {
      NonceStep(tx, r.accounts, s);
    }
  }

  /** What NonceGrows says of a run that has come to the nonce `now`. */
  ghost predicate Grown(from: nat, c: nat, now: nat) {
    now <= from + c && (now == from + c <==> AllReadable(from, c))
  }

  /**
   A sender's nonce grows by exactly the number of its successful transactions if and only if every nonce on the
   way is readable; it never grows by more.
   */
  lemma NonceGrows(txs: seq<Tx>, m: Accounts, s: Bytes)
    requires Stored(m)
    ensures NonceOf(Applied(txs, m).accounts, s) <= NonceOf(m, s) + Successes(txs, m, s)
    ensures NonceOf(Applied(txs, m).accounts, s) == NonceOf(m, s) + Successes(txs, m, s)
       <==> AllReadable(NonceOf(m, s), Successes(txs, m, s))
  {
    GrowsAlong(txs, m, s);
  }

  lemma {:induction false} GrowsAlong(txs: seq<Tx>, m: Accounts, s: Bytes)
    requires Stored(m)
    ensures Grown(NonceOf(m, s), Successes(txs, m, s), NonceOf(Applied(txs, m).accounts, s))
  {
    if txs != [] {
      var n := |txs| - 1;
      GrowsAlong(txs[..n], m, s);
      AppliedStored(txs[..n], m);
      TurnNonce(Applied(txs[..n], m), txs[n], s);
      OneMoreReadable(NonceOf(m, s), Successes(txs[..n], m, s), NonceOf(Applied(txs[..n], m).accounts, s));
    }
  }

  lemma OneMoreReadable(from: nat, c: nat, now: nat)
    requires Grown(from, c, now)
    ensures Grown(from, c + 1, ReadVarint(ToBigEndian(now + 1)))
  {
    ReadNumber(now + 1);
    if AllReadable(from, c + 1) {
      assert AllReadable(from, c);
      assert Readable(from + c + 1);
    }
  }

  lemma SuccessInFront(txs: seq<Tx>, m: Accounts, s: Bytes, i: nat)
    requires i < |txs| - 1
    ensures var front := txs[..|txs| - 1]; front[..i] == txs[..i] && Success(front, m, s, i) == Success(txs, m, s, i)
  {
    assert txs[..|txs| - 1][..i] == txs[..i];
  }

  lemma {:induction false} SuccessesGrow(txs: seq<Tx>, m: Accounts, s: Bytes, i: nat)
    requires i < |txs|
    ensures Successes(txs[..i], m, s) + Success(txs, m, s, i) <= Successes(txs, m, s)
    decreases |txs|
  {
    var n := |txs| - 1;
    if i < n {
      SuccessesGrow(txs[..n], m, s, i);
      SuccessInFront(txs, m, s, i);
    }
  }

  /** While a sender's nonces are readable, no nonce of its serves twice: those that succeed grow strictly. */
  lemma NoNonceTwice(txs: seq<Tx>, m: Accounts, s: Bytes, i: nat, j: nat)
    requires Stored(m) && i < j < |txs| && txs[i].sender == txs[j].sender == Some(s)
    requires SucceedsAt(txs, m, i) && SucceedsAt(txs, m, j)
    requires AllReadable(NonceOf(m, s), Successes(txs, m, s))
    ensures txs[i].nonce < txs[j].nonce
  {
    SuccessesGrow(txs, m, s, i);
    SuccessesGrow(txs, m, s, j);
    SuccessesGrow(txs[..j], m, s, i);
    assert txs[..j][..i] == txs[..i];
    assert SucceedsAt(txs[..j], m, i);
    NonceGrows(txs[..i], m, s);
    NonceGrows(txs[..j], m, s);
  }

  // ---------- A nonce that serves twice ----------

  /** Free transactions of `s` to itself, with nonces from 1 on. */
  function Ladder(s: Bytes, k: nat): (txs: seq<Tx>)
    ensures |txs| == k
  {
    if k == 0 then [] else Ladder(s, k - 1) + [Tx(Some(s), k, s, 0, 0, 0, [])]
  }

  lemma LadderRung(r: Run, s: Bytes, k: nat)
    requires r.accounts == map[s := Account(0, k)] && 0 < k <= 65535
    ensures Turn(r, Tx(Some(s), k, s, 0, 0, 0, [])).accounts == map[s := Account(0, if k < 65535 then k + 1 else 1)]
  {
    ReadableBelow(k + 1);
    ReadNumber(k + 1);
    FromToBigEndian(0);
  }

  lemma {:induction false} LadderClimbs(s: Bytes, k: nat)
    requires k <= 65535
    ensures Applied(Ladder(s, k), map[s := Account(0, 1)]).accounts ==
            map[s := Account(0, if k < 65535 then k + 1 else 1)]
  {
    if k > 0 {
      var l := Ladder(s, k);
      assert l[..k - 1] == Ladder(s, k - 1);
      LadderClimbs(s, k - 1);
      LadderRung(Applied(l[..k - 1], map[s := Account(0, 1)]), s, k);
    }
  }

  /** After the 65535th the nonce reads as 1 again, and the first transaction succeeds a second time. */
  lemma NonceServesTwice(s: Bytes)
    ensures var txs := Ladder(s, 65535) + [Ladder(s, 1)[0]];
            var m := map[s := Account(0, 1)];
            Stored(m) && txs[0] == txs[65535] && SucceedsAt(txs, m, 0) && SucceedsAt(txs, m, 65535)
  {
    var txs := Ladder(s, 65535) + [Ladder(s, 1)[0]];
    var m := map[s := Account(0, 1)];
    LadderFirst(s, 65535);
    assert txs[0] == Ladder(s, 65535)[0];
    assert Ladder(s, 1)[0] == Tx(Some(s), 1, s, 0, 0, 0, []);
    assert txs[..0] == [];
    assert txs[..65535] == Ladder(s, 65535);
    LadderClimbs(s, 65535);
    ReadableBelow(1);
  }

  lemma {:induction false} LadderFirst(s: Bytes, k: nat)
    requires k > 0
    ensures Ladder(s, k)[0] == Ladder(s, 1)[0]
  {
    if k > 1 {
      LadderFirst(s, k - 1);
    }
  }

  // ---------- Balances ----------

  /** All amounts together. */
  ghost function Total(m: Accounts): int {
    if m == map[] then 0
    else
      var addr :| addr in m;
      m[addr].amount + Total(m - {addr})
  }

  lemma {:induction false} TotalWithout(m: Accounts, addr: Bytes)
    requires addr in m
    ensures Total(m) == m[addr].amount + Total(m - {addr})
    decreases |m|
  {
    var first :| first in m && Total(m) == m[first].amount + Total(m - {first});
    if first != addr {
      TotalWithout(m - {first}, addr);
      TotalWithout(m - {addr}, first);
      assert m - {first} - {addr} == m - {addr} - {first};
    }
  }

  lemma TotalStore(m: Accounts, addr: Bytes, a: Account)
    ensures Total(Store(m, addr, a)) == Total(m) - AccountAt(m, addr).amount + Abs(a.amount)
  {
    var after := Store(m, addr, a);
    TotalWithout(after, addr);
    if addr in m {
      TotalWithout(m, addr);
      assert after - {addr} == m - {addr};
    } else {
      assert after - {addr} == m;
    }
  }

  /** How far a self-send overdraws its sender: it is checked against what it says it spends, and pays for GAS_TX. */
  function Overdraft(tx: Tx, m: Accounts): nat
    requires tx.sender.Some?
  {
    var left := AccountAt(m, tx.sender.value).amount - Fee(tx);
    if ToSelf(tx) && left < 0 then -left else 0
  }

  /** Self-sends that carry at least GAS_TX gas, and all other transactions, never overdraw. */
  lemma EnoughGasNeverOverdraws(tx: Tx, m: Accounts)
    requires Succeeds(tx, m)
    ensures SenderAfter(tx, m).amount >= 0 <==> Overdraft(tx, m) == 0
    ensures !ToSelf(tx) || tx.gas >= GAS_TX ==> Overdraft(tx, m) == 0
  {
    if ToSelf(tx) && tx.gas >= GAS_TX {
      assert GAS_TX * tx.gasPrice <= tx.gas * tx.gasPrice by { Scaled(GAS_TX, tx.gas, tx.gasPrice); }
    }
  }

  lemma Scaled(a: nat, b: nat, p: nat)
    requires a <= b
    ensures a * p <= b * p
  {}

  /**
   A successful transaction takes its fee out of the total, but an overdraft comes back as a balance: twice what is
   missing.
   */
  lemma SettledTotal(tx: Tx, m: Accounts)
    requires Stored(m) && Succeeds(tx, m)
    ensures Total(Settled(tx, m)) == Total(m) - Fee(tx) + 2 * Overdraft(tx, m)
  {
    var s := tx.sender.value;
    if ToSelf(tx) {
      TotalStore(m, s, SenderAfter(tx, m));
    } else {
      TotalStore(m, tx.recipient, ReceiverAfter(tx, m));
      TotalStore(Store(m, tx.recipient, ReceiverAfter(tx, m)), s, SenderAfter(tx, m));
    }
  }

  ghost function Fees(txs: seq<Tx>, m: Accounts): nat {
    if txs == [] then 0
    else
      var n := |txs| - 1;
      Fees(txs[..n], m) + if SucceedsAt(txs, m, n) then Fee(txs[n]) else 0
  }

  ghost function Overdrafts(txs: seq<Tx>, m: Accounts): nat {
    if txs == [] then 0
    else
      var n := |txs| - 1;
      Overdrafts(txs[..n], m) + if SucceedsAt(txs, m, n) then Overdraft(txs[n], Applied(txs[..n], m).accounts) else 0
  }

  /**
   Over a whole list the total falls by the fees of the transactions that succeed, plus twice the overdrafts back.
   So it falls by exactly the fees if and only if none overdraws.
   */
  lemma {:induction false} TotalFallsByFees(txs: seq<Tx>, m: Accounts)
    requires Stored(m)
    ensures Total(Applied(txs, m).accounts) == Total(m) - Fees(txs, m) + 2 * Overdrafts(txs, m)
    ensures Total(Applied(txs, m).accounts) == Total(m) - Fees(txs, m) <==> Overdrafts(txs, m) == 0
  {
    if txs != [] {
      var n := |txs| - 1;
      TotalFallsByFees(txs[..n], m);
      AppliedStored(txs[..n], m);
      if SucceedsAt(txs, m, n) {
        SettledTotal(txs[n], Applied(txs[..n], m).accounts);
      }
    }
  }

  /** The sender's object at `i` did not go below zero. */
  ghost predicate StaysAbove(txs: seq<Tx>, m: Accounts, i: nat)
    requires i < |txs|
  {
    SucceedsAt(txs, m, i) ==> SenderAfter(txs[i], Applied(txs[..i], m).accounts).amount >= 0
  }

  ghost predicate AllStayAbove(txs: seq<Tx>, m: Accounts) {
    forall i :: 0 <= i < |txs| ==> StaysAbove(txs, m, i)
  }

  lemma AllButLast(txs: seq<Tx>, m: Accounts)
    requires txs != []
    ensures AllStayAbove(txs, m) <==> AllStayAbove(txs[..|txs| - 1], m) && StaysAbove(txs, m, |txs| - 1)
  {
    var front := txs[..|txs| - 1];
    forall i | 0 <= i < |front|
      ensures StaysAbove(front, m, i) == StaysAbove(txs, m, i)
    {
      assert front[..i] == txs[..i];
    }
  }

  /** There is no overdraft in the list exactly when no account object ever goes below zero. */
  lemma {:induction false} NoOverdrafts(txs: seq<Tx>, m: Accounts)
    ensures Overdrafts(txs, m) == 0 <==> AllStayAbove(txs, m)
  {
    if txs != [] {
      var n := |txs| - 1;
      NoOverdrafts(txs[..n], m);
      AllButLast(txs, m);
      if SucceedsAt(txs, m, n) {
        EnoughGasNeverOverdraws(txs[n], Applied(txs[..n], m).accounts);
      }
    }
  }

  /** Lists whose self-sends carry at least GAS_TX gas have none. */
  lemma {:induction false} SelfSendsWithGas(txs: seq<Tx>, m: Accounts)
    requires forall tx :: tx in txs && ToSelf(tx) ==> tx.gas >= GAS_TX
    ensures Overdrafts(txs, m) == 0
  {
    if txs != [] {
      var n := |txs| - 1;
      SelfSendsWithGas(txs[..n], m);
      if SucceedsAt(txs, m, n) {
        EnoughGasNeverOverdraws(txs[n], Applied(txs[..n], m).accounts);
      }
    }
  }

  /** A self-send that says it needs no gas ends with the debt as its balance. */
  lemma DebtBecomesBalance(s: Bytes)
    ensures var tx := Tx(Some(s), 0, s, 0, 0, 1, []);
            var m := map[s := Account(1, 0)];
            Succeeds(tx, m) && AccountAt(Settled(tx, m), s).amount == 499
  {}
}
