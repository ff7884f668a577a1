/** Balances, minted and burned coins: qbit_network/core/ledger.py and the balance part of
    block processing and of its reversal. */
module MoneyLedger {
  import opened Maps
  import opened Types
  import opened Fees

  datatype Money = Money(bal: map<Addr, int>, minted: int, burned: int)

  /** `_debit` raises on a negative amount and on an insufficient balance. */
  predicate CanDebit(bal: map<Addr, int>, a: Addr, amount: int) {
    amount == 0 || (amount > 0 && Get(bal, a) >= amount)
  }

  /** `_rollback_debit` may leave a balance negative. */
  function RollbackDebit(bal: map<Addr, int>, a: Addr, amount: int): map<Addr, int> {
    if amount <= 0 then bal else Add(bal, a, -amount)
  }

  predicate IsDynamic(activation: int, b: Block) { b.index >= activation }

  function FeeOf(activation: int, b: Block, tx: Tx): int {
    if IsDynamic(activation, b) then ComputeTxFee(b.baseFee, tx.maxFee, tx.maxPriority, Weight(tx.payload))
    else LegacyFee(tx.payload)
  }

  /** The validator gets the whole dynamic fee, but only half of a legacy fee. */
  function ShareOf(activation: int, b: Block, fee: int): int {
    if IsDynamic(activation, b) then fee else fee / 2
  }

  /** Fee deduction. The flag tells whether the step went through; a failed step leaves the
      state it had reached. */
  function PayFee(m: Money, activation: int, b: Block, tx: Tx): (Money, bool) {
    var fee := FeeOf(activation, b, tx);
    var share := ShareOf(activation, b, fee);
    if !CanDebit(m.bal, tx.sender, fee) then (m, false)
    else (Money(Add(Add(m.bal, tx.sender, -fee), b.validator, share), m.minted, m.burned + (fee - share)), true)
  }

  /** The amount a transaction takes from its sender besides the fee. */
  function Spent(tx: Tx): int {
    match tx.payload
    case Transfer(_, a) => a
    case Stake(_, a) => Max(0, a)
    case Delegate(_, a) => Max(0, a)
    case _ => 0
  }

  function Spend(m: Money, tx: Tx): (Money, bool) {
    if !CanDebit(m.bal, tx.sender, Spent(tx)) then (m, false) else
    var bal := Add(m.bal, tx.sender, -Spent(tx));
    (m.(bal := if tx.payload.Transfer? then Add(bal, tx.payload.recipient, Spent(tx)) else bal), true)
  }

  function MoneyTx(m: Money, activation: int, b: Block, tx: Tx): (Money, bool) {
    var (paid, ok) := PayFee(m, activation, b, tx);
    if ok then Spend(paid, tx) else (paid, false)
  }

  function MoneyTxs(m: Money, activation: int, b: Block, txs: seq<Tx>): (Money, bool)
    decreases |txs|
  {
    if txs == [] then (m, true) else
    var (next, ok) := MoneyTx(m, activation, b, txs[0]);
    if ok then MoneyTxs(next, activation, b, txs[1..]) else (next, false)
  }

  /** The reversal of one transaction: its amount first, then its fee. */
  function UndoSpend(m: Money, tx: Tx): Money {
    var bal := if tx.payload.Transfer? then RollbackDebit(m.bal, tx.payload.recipient, tx.payload.amount) else m.bal;
    m.(bal := Add(bal, tx.sender, Spent(tx)))
  }

  function UndoFee(m: Money, activation: int, b: Block, tx: Tx): Money {
    var fee := FeeOf(activation, b, tx);
    var share := ShareOf(activation, b, fee);
    Money(Add(RollbackDebit(m.bal, b.validator, share), tx.sender, fee), m.minted, m.burned - (fee - share))
  }

  function UndoMoneyTx(m: Money, activation: int, b: Block, tx: Tx): Money {
    UndoFee(UndoSpend(m, tx), activation, b, tx)
  }

  /** Reversal of a list of transactions, last one first. */
  function UndoMoneyTxs(m: Money, activation: int, b: Block, txs: seq<Tx>): Money
    decreases |txs|
  {
    if txs == [] then m else
    UndoMoneyTxs(UndoMoneyTx(m, activation, b, txs[|txs| - 1]), activation, b, txs[..|txs| - 1])
  }

  /** INITIAL_BLOCK_REWARD >> k */
  function Halved(k: nat): nat {
    if k == 0 then INITIAL_BLOCK_REWARD else Halved(k - 1) / 2
  }

  function NominalReward(index: int): nat {
    if index <= 0 then 0 else Halved(index / HALVING_INTERVAL)
  }

  /** `_calc_block_reward`: the nominal reward, capped by what may still be minted. */
  function BlockReward(index: int, minted: int): (r: nat)
    ensures r <= NominalReward(index)
    ensures minted <= MAX_SUPPLY ==> minted + r <= MAX_SUPPLY
  {
    Min(NominalReward(index), Max(0, MAX_SUPPLY - minted))
  }

  function Reward(m: Money, b: Block): Money {
    var r := BlockReward(b.index, m.minted);
    Money(Add(m.bal, b.validator, r), m.minted + r, m.burned)
  }

  /** The reversal recomputes the reward from the counter that already contains it. */
  function UndoReward(m: Money, b: Block): Money {
    var r := BlockReward(b.index, m.minted);
    Money(RollbackDebit(m.bal, b.validator, r), m.minted - r, m.burned)
  }

  // ---- What the functions above mean ----

  /** No coin is created or lost by a step other than a reward: what leaves the balances is
      burned or has gone to stakes. */
  function StakedBy(txs: seq<Tx>): int {
    if txs == [] then 0 else
    (if txs[0].payload.Stake? || txs[0].payload.Delegate? then Spent(txs[0]) else 0) + StakedBy(txs[1..])
  }

  lemma PayFeeConserves(m: Money, activation: int, b: Block, tx: Tx)
    ensures var n := PayFee(m, activation, b, tx).0;
            Sum(n.bal) + n.burned == Sum(m.bal) + m.burned && n.minted == m.minted
  {
    var fee := FeeOf(activation, b, tx);
    SumAdd(m.bal, tx.sender, -fee);
    SumAdd(Add(m.bal, tx.sender, -fee), b.validator, ShareOf(activation, b, fee));
  }

  lemma SpendConserves(m: Money, tx: Tx)
    requires Spend(m, tx).1
    ensures var n := Spend(m, tx).0;
            Sum(n.bal) + n.burned == Sum(m.bal) + m.burned - StakedBy([tx]) && n.minted == m.minted
  {
    SumAdd(m.bal, tx.sender, -Spent(tx));
    if tx.payload.Transfer? { SumAdd(Add(m.bal, tx.sender, -Spent(tx)), tx.payload.recipient, Spent(tx)); }
    assert StakedBy([tx]) == if tx.payload.Stake? || tx.payload.Delegate? then Spent(tx) else 0;
  }

  lemma MoneyTxConserves(m: Money, activation: int, b: Block, tx: Tx)
    requires MoneyTx(m, activation, b, tx).1
    ensures var n := MoneyTx(m, activation, b, tx).0;
            Sum(n.bal) + n.burned == Sum(m.bal) + m.burned - StakedBy([tx]) && n.minted == m.minted
  {
    PayFeeConserves(m, activation, b, tx);
    SpendConserves(PayFee(m, activation, b, tx).0, tx);
  }

  lemma {:induction false} MoneyTxsConserve(m: Money, activation: int, b: Block, txs: seq<Tx>)
    requires MoneyTxs(m, activation, b, txs).1
    ensures var n := MoneyTxs(m, activation, b, txs).0;
            Sum(n.bal) + n.burned == Sum(m.bal) + m.burned - StakedBy(txs) && n.minted == m.minted
    decreases |txs|
  {
    if txs != [] {
      MoneyTxConserves(m, activation, b, txs[0]);
      MoneyTxsConserve(MoneyTx(m, activation, b, txs[0]).0, activation, b, txs[1..]);
      assert StakedBy([txs[0]]) + StakedBy(txs[1..]) == StakedBy(txs);
    }
  }

  lemma {:induction false} MoneyTxsBurn(m: Money, activation: int, b: Block, txs: seq<Tx>)
    ensures MoneyTxs(m, activation, b, txs).0.burned >= m.burned
    decreases |txs|
  {
    if txs != [] {
      var fee := FeeOf(activation, b, txs[0]);
      assert CanDebit(m.bal, txs[0].sender, fee) ==> fee >= 0;
      var (n, ok) := MoneyTx(m, activation, b, txs[0]);
      assert n.burned >= m.burned;
      if ok { MoneyTxsBurn(n, activation, b, txs[1..]); }
    }
  }

  lemma AddPositive(bal: map<Addr, int>, a: Addr, d: int)
    requires Positive(bal) && (d >= 0 || Get(bal, a) + d >= 0)
    ensures Positive(Add(bal, a, d))
  {}

  /** Forward steps keep a positive canonical balance table, whether they succeed or fail. */
  lemma MoneyTxPositive(m: Money, activation: int, b: Block, tx: Tx)
    requires Positive(m.bal)
    ensures Positive(MoneyTx(m, activation, b, tx).0.bal)
  {
    hide Add, Positive, FeeOf;
    var fee := FeeOf(activation, b, tx);
    if CanDebit(m.bal, tx.sender, fee) {
      AddPositive(m.bal, tx.sender, -fee);
      AddPositive(Add(m.bal, tx.sender, -fee), b.validator, ShareOf(activation, b, fee));
      var paid := PayFee(m, activation, b, tx).0;
      if CanDebit(paid.bal, tx.sender, Spent(tx)) {
        AddPositive(paid.bal, tx.sender, -Spent(tx));
        if tx.payload.Transfer? { AddPositive(Add(paid.bal, tx.sender, -Spent(tx)), tx.payload.recipient, Spent(tx)); }
      }
    }
  }

  lemma {:induction false} MoneyTxsPositive(m: Money, activation: int, b: Block, txs: seq<Tx>)
    requires Positive(m.bal)
    ensures Positive(MoneyTxs(m, activation, b, txs).0.bal)
    decreases |txs|
  {
    if txs != [] {
      MoneyTxPositive(m, activation, b, txs[0]);
      MoneyTxsPositive(MoneyTx(m, activation, b, txs[0]).0, activation, b, txs[1..]);
    }
  }

  lemma UndoFeeExact(m: Money, activation: int, b: Block, tx: Tx)
    requires Canonical(m.bal) && PayFee(m, activation, b, tx).1
    ensures UndoFee(PayFee(m, activation, b, tx).0, activation, b, tx) == m
  {
    var fee := FeeOf(activation, b, tx);
    var share := ShareOf(activation, b, fee);
    var debited := Add(m.bal, tx.sender, -fee);
    assert fee >= 0 && share >= 0;
    AddAdd(debited, b.validator, share, -share);
    AddAdd(m.bal, tx.sender, -fee, fee);
  }

  lemma UndoSpendExact(m: Money, tx: Tx)
    requires Canonical(m.bal) && Spend(m, tx).1
    ensures UndoSpend(Spend(m, tx).0, tx) == m
  {
    var bal := Add(m.bal, tx.sender, -Spent(tx));
    if tx.payload.Transfer? { AddAdd(bal, tx.payload.recipient, Spent(tx), -Spent(tx)); }
    AddAdd(m.bal, tx.sender, -Spent(tx), Spent(tx));
  }

  lemma UndoMoneyTxExact(m: Money, activation: int, b: Block, tx: Tx)
    requires Canonical(m.bal) && MoneyTx(m, activation, b, tx).1
    ensures UndoMoneyTx(MoneyTx(m, activation, b, tx).0, activation, b, tx) == m
  {
    UndoSpendExact(PayFee(m, activation, b, tx).0, tx);
    UndoFeeExact(m, activation, b, tx);
  }

  lemma {:induction false} MoneyTxsSplit(m: Money, activation: int, b: Block, txs: seq<Tx>, k: nat)
    requires k <= |txs| && MoneyTxs(m, activation, b, txs).1
    ensures var (mid, ok) := MoneyTxs(m, activation, b, txs[..k]);
            ok && MoneyTxs(mid, activation, b, txs[k..]) == MoneyTxs(m, activation, b, txs)
    decreases k
  {
    if k == 0 {
      assert txs[0..] == txs;
    } else {
      MoneyTxsSplit(MoneyTx(m, activation, b, txs[0]).0, activation, b, txs[1..], k - 1);
      assert txs[..k][1..] == txs[1..][..k - 1] && txs[1..][k - 1..] == txs[k..];
    }
  }

  /** The reversal visits the forward states in reverse order: after taking back all but the
      first k transactions the state is the one after those k, so that no intermediate
      balance is ever negative; k = 0 gives the state before the block. */
  lemma {:induction false} UndoVisitsForwardStates(m: Money, activation: int, b: Block, txs: seq<Tx>, k: nat)
    requires Positive(m.bal) && k <= |txs| && MoneyTxs(m, activation, b, txs).1
    ensures UndoMoneyTxs(MoneyTxs(m, activation, b, txs).0, activation, b, txs[k..]) ==
            MoneyTxs(m, activation, b, txs[..k]).0
    ensures Positive(MoneyTxs(m, activation, b, txs[..k]).0.bal)
    decreases |txs|
  {
    MoneyTxsPositive(m, activation, b, txs[..k]);
    if k == |txs| {
      assert txs[..k] == txs;
    } else {
      var n := |txs| - 1;
      var last, front := txs[n], txs[..n];
      MoneyTxsSplit(m, activation, b, txs, n);
      assert txs[n..] == [last];
      var mid := MoneyTxs(m, activation, b, front).0;
      MoneyTxsPositive(m, activation, b, front);
      LastTx(mid, activation, b, last);
      UndoMoneyTxExact(mid, activation, b, last);
      UndoVisitsForwardStates(m, activation, b, front, k);
      assert txs[k..][..|txs[k..]| - 1] == front[k..] && front[..k] == txs[..k];
    }
  }

  lemma LastTx(m: Money, activation: int, b: Block, tx: Tx)
    ensures MoneyTxs(m, activation, b, [tx]) == MoneyTx(m, activation, b, tx)
  {}

  /** A reward is taken back exactly if and only if nothing was minted or the supply left
      after the block still covers the nominal reward. */
  lemma UndoRewardExact(m: Money, b: Block)
    requires Canonical(m.bal)
    ensures var r := BlockReward(b.index, m.minted);
            UndoReward(Reward(m, b), b) == m <==> (r == 0 || MAX_SUPPLY - (m.minted + r) >= NominalReward(b.index))
  {
    var r: int := BlockReward(b.index, m.minted);
    AddAdd(m.bal, b.validator, r, -r);
  }
}
