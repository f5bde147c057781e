/**
 What transactions move, account by account (ethchain/transaction_pool.go, ethchain/state_manager.go).
 */
module Balances {
  import opened ByteStrings
  import opened Rlp
  import opened Transactions

  // ---------- One transaction ----------

  /** Which transactions go through, and what the others report. */
  lemma VerdictExact(tx: Tx, m: Accounts)
    ensures var err := Process(tx, m).err;
            && (err == None <==>
                  && tx.sender.Some? && AccountAt(m, tx.sender.value).nonce == tx.nonce
                  && AccountAt(m, tx.sender.value).amount >= tx.value + tx.gas * tx.gasPrice)
            && (err == Some(BadSignature) <==> tx.sender.None?)
            && (err == Some(NonceErr) <==> tx.sender.Some? && AccountAt(m, tx.sender.value).nonce != tx.nonce)
            && (err != None ==> Process(tx, m).accounts == m)
  {}

  /** 100 for every 32 bytes of data once the nonce is right, and 500 for a send to oneself that goes through. */
  lemma GasExact(tx: Tx, m: Accounts)
    ensures var o := Process(tx, m);
            && (o.err == None || o.err == Some(Insufficient) ==>
                  o.gas == |tx.data| / 32 * 100 + if o.err == None && tx.sender == Some(tx.recipient) then 500 else 0)
            && (o.err == Some(NonceErr) || o.err == Some(BadSignature) ==> o.gas == 0)
  {}

  /**
   A transaction to another account moves its value from the sender to the recipient, and the sender pays for the gas it
   asks for; a send to oneself costs 500 units of gas, and what is below zero loses its sign. No other account changes.
   */
  lemma TransferExact(tx: Tx, m: Accounts)
    requires Stored(m) && Process(tx, m).err == None
    ensures var s, r, o := tx.sender.value, tx.recipient, Process(tx, m).accounts;
            && (s != r ==> AccountAt(o, r) == Account(AccountAt(m, r).amount + tx.value, AccountAt(m, r).nonce))
            && (s != r ==> AccountAt(o, s).amount == AccountAt(m, s).amount - tx.value - tx.gas * tx.gasPrice)
            && (s == r && AccountAt(m, s).amount >= 500 * tx.gasPrice ==>
                  AccountAt(o, s).amount == AccountAt(m, s).amount - 500 * tx.gasPrice)
            && (s == r && AccountAt(m, s).amount < 500 * tx.gasPrice ==>
                  AccountAt(o, s).amount == 500 * tx.gasPrice - AccountAt(m, s).amount)
            && (Readable(tx.nonce + 1) <==> AccountAt(o, s).nonce == tx.nonce + 1)
            && o.Keys == m.Keys + {s, r} && forall a :: a in m && a != s && a != r ==> o[a] == m[a]
  {
    var s, r := tx.sender.value, tx.recipient;
    StoredAt(m, s);
    StoredAt(m, r);
    ReadNumber(tx.nonce + 1);
    ReadNumber(AccountAt(m, r).nonce);
  }

  lemma StoredAt(m: Accounts, a: Bytes)
    requires Stored(m)
    ensures AccountAt(m, a).amount >= 0 && Readable(AccountAt(m, a).nonce)
  {
    ReadableBelow(0);
  }

  // ---------- A list of transactions ----------

  /** The accounts when the turn of `i` comes. */
  ghost function Before(txs: seq<Tx>, m: Accounts, i: nat): Accounts
    requires i <= |txs|
  {
    Applied(txs[..i], m).accounts
  }

  /** It goes through when its turn comes. */
  ghost predicate Goes(txs: seq<Tx>, m: Accounts, i: nat)
    requires i < |txs|
  {
    var tx := txs[i];
    && tx.sender.Some? && AccountAt(Before(txs, m, i), tx.sender.value).nonce == tx.nonce
    && AccountAt(Before(txs, m, i), tx.sender.value).amount >= tx.value + tx.gas * tx.gasPrice
  }

  /** What `a` gets from others by the transaction at `i`. */
  ghost function ReceivedAt(txs: seq<Tx>, m: Accounts, a: Bytes, i: nat): nat
    requires i < |txs|
  {
    if Goes(txs, m, i) && txs[i].recipient == a && txs[i].sender != Some(a) then txs[i].value else 0
  }

  /** What it pays: value and gas to others, 500 units of gas for a send to itself. */
  ghost function PaidAt(txs: seq<Tx>, m: Accounts, a: Bytes, i: nat): nat
    requires i < |txs|
  {
    if !Goes(txs, m, i) || txs[i].sender != Some(a) then 0
    else if txs[i].recipient == a then 500 * txs[i].gasPrice
    else txs[i].value + txs[i].gas * txs[i].gasPrice
  }

  /** What comes back because an amount below zero loses its sign: twice what is missing. */
  ghost function ReturnedAt(txs: seq<Tx>, m: Accounts, a: Bytes, i: nat): nat
    requires i < |txs|
  {
    var missing := PaidAt(txs, m, a, i) - AccountAt(Before(txs, m, i), a).amount;
    if missing > 0 then 2 * missing else 0
  }

  ghost function Received(txs: seq<Tx>, m: Accounts, a: Bytes, n: nat): nat
    requires n <= |txs|
  {
    if n == 0 then 0 else Received(txs, m, a, n - 1) + ReceivedAt(txs, m, a, n - 1)
  }

  ghost function Paid(txs: seq<Tx>, m: Accounts, a: Bytes, n: nat): nat
    requires n <= |txs|
  {
    if n == 0 then 0 else Paid(txs, m, a, n - 1) + PaidAt(txs, m, a, n - 1)
  }

  ghost function Returned(txs: seq<Tx>, m: Accounts, a: Bytes, n: nat): nat
    requires n <= |txs|
  {
    if n == 0 then 0 else Returned(txs, m, a, n - 1) + ReturnedAt(txs, m, a, n - 1)
  }

  lemma BeforeNext(txs: seq<Tx>, m: Accounts, n: nat)
    requires n < |txs|
    ensures Before(txs, m, n + 1) == Process(txs[n], Before(txs, m, n)).accounts
  {
    assert txs[..n + 1][..n] == txs[..n];
    VerdictExact(txs[n], Before(txs, m, n));
  }

  lemma BalanceStep(txs: seq<Tx>, m: Accounts, a: Bytes, n: nat)
    requires Stored(m) && n < |txs|
    ensures AccountAt(Before(txs, m, n + 1), a).amount ==
            AccountAt(Before(txs, m, n), a).amount + ReceivedAt(txs, m, a, n) - PaidAt(txs, m, a, n)
            + ReturnedAt(txs, m, a, n)
  {
    var before, tx := Before(txs, m, n), txs[n];
    BeforeNext(txs, m, n);
    VerdictExact(tx, before);
    AppliedStored(txs[..n], m);
    StoredAt(before, a);
    if Goes(txs, m, n) {
      TransferExact(tx, before);
    }
  }

  /**
   Over any list, for every account: its balance is what it had, plus the values it received from others, minus what it
   paid, plus twice what its sends to itself overdrew it by.
   */
  lemma {:induction false} BalanceExact(txs: seq<Tx>, m: Accounts, a: Bytes, n: nat)
    requires Stored(m) && n <= |txs|
    ensures AccountAt(Before(txs, m, n), a).amount ==
            AccountAt(m, a).amount + Received(txs, m, a, n) - Paid(txs, m, a, n) + Returned(txs, m, a, n)
  {
    if n > 0 {
      BalanceExact(txs, m, a, n - 1);
      BalanceStep(txs, m, a, n - 1);
    } else {
      assert txs[..0] == [];
    }
  }

  // ---------- Receipts ----------

  /** Its nonce is right, or its signature bad: it gets a receipt, whether it goes through or not. */
  ghost predicate Receipted(txs: seq<Tx>, m: Accounts, i: nat)
    requires i < |txs|
  {
    txs[i].sender.Some? ==> AccountAt(Before(txs, m, i), txs[i].sender.value).nonce == txs[i].nonce
  }

  /** The gas of the transaction at `i`. */
  ghost function GasAt(txs: seq<Tx>, m: Accounts, i: nat): nat
    requires i < |txs|
  {
    if txs[i].sender.None? || !Receipted(txs, m, i) then 0
    else |txs[i].data| / 32 * 100 + if Goes(txs, m, i) && txs[i].sender == Some(txs[i].recipient) then 500 else 0
  }

  ghost function GasSoFar(txs: seq<Tx>, m: Accounts, n: nat): nat
    requires n <= |txs|
  {
    if n == 0 then 0 else GasSoFar(txs, m, n - 1) + GasAt(txs, m, n - 1)
  }

  /** One receipt for each of them, in order: the transaction, the accounts behind it, and the gas so far. */
  ghost function ReceiptsOf(txs: seq<Tx>, m: Accounts, n: nat): seq<Receipt>
    requires n <= |txs|
  {
    if n == 0 then []
    else ReceiptsOf(txs, m, n - 1) +
         if Receipted(txs, m, n - 1) then [Receipt(txs[n - 1], Before(txs, m, n), GasSoFar(txs, m, n))] else []
  }

  function TxsOf(rs: seq<Receipt>): seq<Tx> {
    if rs == [] then [] else TxsOf(rs[..|rs| - 1]) + [rs[|rs| - 1].tx]
  }

  lemma TxsOfOne(rs: seq<Receipt>, r: Receipt)
    ensures TxsOf(rs + [r]) == TxsOf(rs) + [r.tx]
  {
    assert (rs + [r])[..|rs|] == rs;
  }

  lemma AppliedNext(txs: seq<Tx>, m: Accounts, n: nat)
    requires n < |txs|
    ensures Applied(txs[..n + 1], m) == Turn(Applied(txs[..n], m), txs[n])
  {
    assert txs[..n + 1][..n] == txs[..n];
  }

  /** The turn of the transaction at `n`: from the run `r` to the run `u`. */
  ghost predicate Turned(r: Run, u: Run, txs: seq<Tx>, m: Accounts, n: nat)
    requires n < |txs|
  {
    && u.total == r.total + GasAt(txs, m, n)
    && (!Receipted(txs, m, n) ==> u == r)
    && (Receipted(txs, m, n) ==>
          && u.receipts == r.receipts + [Receipt(txs[n], Before(txs, m, n + 1), u.total)]
          && u.valid == r.valid + [txs[n]])
  }

  lemma ReceiptStep(txs: seq<Tx>, m: Accounts, n: nat)
    requires n < |txs|
    ensures Turned(Applied(txs[..n], m), Applied(txs[..n + 1], m), txs, m, n)
  {
    AppliedNext(txs, m, n);
    VerdictExact(txs[n], Before(txs, m, n));
    GasExact(txs[n], Before(txs, m, n));
  }

  ghost predicate Told(r: Run, txs: seq<Tx>, m: Accounts, n: nat)
    requires n <= |txs|
  {
    r.receipts == ReceiptsOf(txs, m, n) && r.total == GasSoFar(txs, m, n) && r.valid == TxsOf(r.receipts)
  }

  lemma ToldNext(r: Run, u: Run, txs: seq<Tx>, m: Accounts, n: nat)
    requires n < |txs| && Told(r, txs, m, n) && Turned(r, u, txs, m, n)
    ensures Told(u, txs, m, n + 1)
  {
    if Receipted(txs, m, n) {
      TxsOfOne(r.receipts, Receipt(txs[n], Before(txs, m, n + 1), u.total));
    }
  }

  /** Exactly the transactions with a wrong nonce get no receipt, and each receipt has its gas and its accounts. */
  lemma {:induction false} ReceiptsExact(txs: seq<Tx>, m: Accounts, n: nat)
    requires n <= |txs|
    ensures Told(Applied(txs[..n], m), txs, m, n)
  {
    if n == 0 {
      assert txs[..0] == [];
    } else {
      ReceiptsExact(txs, m, n - 1);
      ReceiptStep(txs, m, n - 1);
      ToldNext(Applied(txs[..n - 1], m), Applied(txs[..n], m), txs, m, n - 1);
    }
  }
}
