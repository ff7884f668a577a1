/** The balance table as the program keeps it: qbit_network/core/ledger.py. */
module BalanceLedgers {
  import opened Maps
  import opened Types
  import opened MoneyLedger
  import EpochPayout
  import Fees

  lemma NormOfPositive(m: map<Addr, int>)
    requires Positive(m)
    ensures Norm(m) == m
  {}

  class BalanceLedger {
    var balances: map<Addr, int>
    var totalMinted: int
    var totalBurned: int

    function Abs(): Money
      reads this
    {
      Money(Norm(balances), totalMinted, totalBurned)
    }

    constructor ()
      ensures balances == map[] && totalMinted == 0 && totalBurned == 0
    {
      balances, totalMinted, totalBurned := map[], 0, 0;
    }

    /** `_credit` raises on a negative amount; it may leave a zero entry behind. */
    method Credit(a: Addr, amount: int)
      requires amount >= 0
      modifies this`balances
      ensures Norm(balances) == Add(Norm(old(balances)), a, amount)
      ensures old(Positive(balances)) ==> Positive(balances)
    {
      AddAdd(Norm(balances), a, 0, 0);
      if amount == 0 { return; }
      NormPut(balances, a, Get(balances, a) + amount);
      balances := balances[a := Get(balances, a) + amount];
    }

    /** `_debit`, which raises on a negative amount and on an insufficient balance. */
    method Debit(a: Addr, amount: int) returns (ok: bool)
      modifies this`balances
      ensures ok <==> CanDebit(Norm(old(balances)), a, amount)
      ensures Norm(balances) == if ok then Add(Norm(old(balances)), a, -amount) else Norm(old(balances))
      ensures old(Positive(balances)) ==> Positive(balances)
    {
      AddAdd(Norm(balances), a, 0, 0);
      if amount < 0 { return false; }
      if amount == 0 { return true; }
      var current := Get(balances, a);
      if current < amount { return false; }
      NormPut(balances, a, current - amount);
      if current - amount == 0 {
        balances := balances - {a};
      } else {
        balances := balances[a := current - amount];
      }
      ok := true;
    }

    /** `_rollback_debit`, which lets a balance go negative. */
    method DebitForRollback(a: Addr, amount: int)
      modifies this`balances
      ensures Norm(balances) == RollbackDebit(Norm(old(balances)), a, amount)
      ensures old(Positive(balances) && Get(balances, a) >= amount) ==> Positive(balances)
    {
      if amount <= 0 { return; }
      var left := Get(balances, a) - amount;
      NormPut(balances, a, left);
      if left == 0 {
        balances := balances - {a};
      } else {
        balances := balances[a := left];
      }
    }

    /** The fee of one transaction. */
    method ChargeFee(activation: int, b: Block, tx: Tx) returns (ok: bool)
      modifies this
      ensures (Abs(), ok) == PayFee(old(Abs()), activation, b, tx)
      ensures old(Positive(balances)) ==> Positive(balances)
    {
      AddAdd(Norm(balances), tx.sender, 0, 0);
      AddAdd(Norm(balances), b.validator, 0, 0);
      if b.index >= activation {
        var w := Weight(tx.payload);
        if w > 0 {
          var fee := Fees.ComputeTxFee(b.baseFee, tx.maxFee, tx.maxPriority, w);
          ok := Debit(tx.sender, fee);
          if ok { Credit(b.validator, fee); }
        } else {
          ok := true;
        }
      } else {
        var fee := LegacyFee(tx.payload);
        ok := true;
        if fee > 0 {
          ok := Debit(tx.sender, fee);
          if ok {
            var share := fee / 2;
            Credit(b.validator, share);
            totalBurned := totalBurned + (fee - share);
          }
        }
      }
    }

    /** The amount of a TRANSFER, STAKE or DELEGATE. */
    method MoveAmount(tx: Tx) returns (ok: bool)
      modifies this`balances
      ensures (Abs(), ok) == Spend(old(Abs()), tx)
      ensures old(Positive(balances)) ==> Positive(balances)
    {
      AddAdd(Norm(balances), tx.sender, 0, 0);
      ok := true;
      match tx.payload
      case Transfer(recipient, amount) =>
        ok := Debit(tx.sender, amount);
        if ok { Credit(recipient, amount); }
      case Stake(_, amount) =>
        if amount > 0 { ok := Debit(tx.sender, amount); }
      case Delegate(_, amount) =>
        if amount > 0 { ok := Debit(tx.sender, amount); }
      case _ =>
    }

    /** The financial part of one transaction. */
    method ProcessTx(activation: int, b: Block, tx: Tx) returns (ok: bool)
      modifies this
      ensures (Abs(), ok) == MoneyTx(old(Abs()), activation, b, tx)
      ensures old(Positive(balances)) ==> Positive(balances)
    {
      ok := ChargeFee(activation, b, tx);
      if ok { ok := MoveAmount(tx); }
    }

    method MintReward(b: Block) returns (reward: nat)
      modifies this
      ensures reward == BlockReward(b.index, old(totalMinted)) && Abs() == Reward(old(Abs()), b)
      ensures old(Positive(balances)) ==> Positive(balances)
    {
      AddAdd(Norm(balances), b.validator, 0, 0);
      reward := BlockReward(b.index, totalMinted);
      if reward > 0 {
        Credit(b.validator, reward);
        totalMinted := totalMinted + reward;
      }
    }

    // ---- Reversal ----

    method TakeBackReward(b: Block) returns (reward: nat)
      modifies this
      ensures reward == BlockReward(b.index, old(totalMinted)) && Abs() == UndoReward(old(Abs()), b)
      ensures old(Positive(balances) && Get(balances, b.validator) >= BlockReward(b.index, totalMinted)) ==>
              Positive(balances)
    {
      reward := BlockReward(b.index, totalMinted);
      if reward > 0 {
        DebitForRollback(b.validator, reward);
        totalMinted := totalMinted - reward;
      }
    }

    /** The amount of a transaction is returned before its fee. */
    method ReturnAmount(tx: Tx)
      requires ValidPayload(tx)
      modifies this`balances
      ensures Abs() == UndoSpend(old(Abs()), tx)
      ensures old(Positive(balances) &&
              (tx.payload.Transfer? ==> Get(balances, tx.payload.recipient) >= tx.payload.amount)) ==>
                Positive(balances)
    {
      AddAdd(Norm(balances), tx.sender, 0, 0);
      match tx.payload
      case Stake(_, amount) => if amount > 0 { Credit(tx.sender, amount); }
      case Delegate(_, amount) => if amount > 0 { Credit(tx.sender, amount); }
      case Transfer(recipient, amount) =>
        DebitForRollback(recipient, amount);
        Credit(tx.sender, amount);
      case _ =>
    }

    /** A fee is never negative where it was paid. */
    method ReturnFee(activation: int, b: Block, tx: Tx)
      requires FeeOf(activation, b, tx) >= 0
      modifies this
      ensures Abs() == UndoFee(old(Abs()), activation, b, tx)
      ensures old(Positive(balances) && Get(balances, b.validator) >= ShareOf(activation, b, FeeOf(activation, b, tx)))
              ==> Positive(balances)
    {
      AddAdd(Norm(balances), tx.sender, 0, 0);
      if b.index >= activation {
        var w := Weight(tx.payload);
        if w > 0 {
          var fee := Fees.ComputeTxFee(b.baseFee, tx.maxFee, tx.maxPriority, w);
          DebitForRollback(b.validator, fee);
          Credit(tx.sender, fee);
        }
      } else {
        var fee := LegacyFee(tx.payload);
        if fee > 0 {
          var share := fee / 2;
          DebitForRollback(b.validator, share);
          totalBurned := totalBurned - (fee - share);
          Credit(tx.sender, fee);
        }
      }
    }

    /** The balance part of the reversal, last transaction first. From the state a block led to
        it passes through the forward states, so that no balance goes negative on the way and
        no zero entry is left behind. */
    method ReturnTxs(activation: int, b: Block, ghost m: Money)
      requires ValidPayloads(b.txs) && FeesOk(activation, b, b.txs)
      modifies this
      ensures Abs() == UndoMoneyTxs(old(Abs()), activation, b, b.txs)
      ensures old(Positive(balances) && LedTo(m, Abs(), activation, b, b.txs)) ==> Positive(balances)
    {
      ghost var scope := Positive(balances) && LedTo(m, Abs(), activation, b, b.txs);
      var i := |b.txs|;
      assert b.txs[..i] == b.txs;
      while i > 0
        invariant 0 <= i <= |b.txs|
        invariant UndoMoneyTxs(Abs(), activation, b, b.txs[..i]) == UndoMoneyTxs(old(Abs()), activation, b, b.txs)
        invariant scope ==> Positive(balances) && LedTo(m, Abs(), activation, b, b.txs[..i])
      {
        i := i - 1;
        var tx := b.txs[i];
        UndoLast(Abs(), activation, b, b.txs, i);
        ghost var before := if scope then MoneyTxs(m, activation, b, b.txs[..i]).0 else m;
        if scope {
          StepBack(m, Abs(), activation, b, b.txs, i);
          NormOfPositive(balances);
        }
        ReturnAmount(tx);
        if scope { NormOfPositive(balances); }
        ReturnFee(activation, b, tx);
      }
    }

    /** The reversal of a recorded payout: credits are taken back, then debits returned. */
    method ReverseDistribution(credits: seq<(Addr, int)>, debits: seq<(Addr, int)>)
      requires EpochPayout.AllPositive(credits) && EpochPayout.AllPositive(debits)
      modifies this`balances
      ensures Norm(balances)
              == EpochPayout.ApplyMoves(EpochPayout.ApplyMoves(Norm(old(balances)), credits, -1), debits, 1)
      ensures credits == [] && debits == [] ==> balances == old(balances)
    {
      for i := 0 to |credits|
        invariant Norm(balances) == EpochPayout.ApplyMoves(Norm(old(balances)), credits[..i], -1)
        invariant credits == [] ==> balances == old(balances)
      {
        assert credits[..i + 1][..i] == credits[..i];
        EpochPayout.PositiveAt(credits, i);
        DebitForRollback(credits[i].0, credits[i].1);
      }
      assert credits[..|credits|] == credits;
      ghost var mid := Norm(balances);
      for i := 0 to |debits|
        invariant Norm(balances) == EpochPayout.ApplyMoves(mid, debits[..i], 1)
        invariant credits == [] && debits == [] ==> balances == old(balances)
      {
        assert debits[..i + 1][..i] == debits[..i];
        EpochPayout.PositiveAt(debits, i);
        Credit(debits[i].0, debits[i].1);
      }
      assert debits[..|debits|] == debits;
    }
  }

  /** No transaction of a block has a negative fee. */
  predicate FeesOk(activation: int, b: Block, txs: seq<Tx>) {
    forall i | 0 <= i < |txs| :: FeeOf(activation, b, txs[i]) >= 0
  }

  /** The transactions lead from one state of the balances to another. */
  predicate LedTo(m: Money, after: Money, activation: int, b: Block, txs: seq<Tx>) {
    Positive(m.bal) && MoneyTxs(m, activation, b, txs) == (after, true)
  }

  lemma UndoLast(m: Money, activation: int, b: Block, txs: seq<Tx>, i: nat)
    requires i < |txs|
    ensures UndoMoneyTxs(m, activation, b, txs[..i + 1])
            == UndoMoneyTxs(UndoMoneyTx(m, activation, b, txs[i]), activation, b, txs[..i])
  {
    assert txs[..i + 1][..i] == txs[..i];
  }

  /** What a transaction paid out is still there when it is reversed. */
  lemma ForwardCovers(m: Money, activation: int, b: Block, tx: Tx)
    requires Positive(m.bal) && MoneyTx(m, activation, b, tx).1
    ensures var after := MoneyTx(m, activation, b, tx).0;
            && (tx.payload.Transfer? ==> Get(after.bal, tx.payload.recipient) >= tx.payload.amount)
            && Get(UndoSpend(after, tx).bal, b.validator) >= ShareOf(activation, b, FeeOf(activation, b, tx))
            && UndoMoneyTx(after, activation, b, tx) == m
  {
    var paid := PayFee(m, activation, b, tx).0;
    FeeCovers(m, activation, b, tx);
    SpendCovers(paid, tx);
    UndoSpendExact(paid, tx);
    UndoMoneyTxExact(m, activation, b, tx);
  }

  lemma FeeCovers(m: Money, activation: int, b: Block, tx: Tx)
    requires Positive(m.bal) && PayFee(m, activation, b, tx).1
    ensures var paid := PayFee(m, activation, b, tx).0;
            Positive(paid.bal) && Get(paid.bal, b.validator) >= ShareOf(activation, b, FeeOf(activation, b, tx))
  {
    var fee := FeeOf(activation, b, tx);
    AddPositive(m.bal, tx.sender, -fee);
    AddPositive(Add(m.bal, tx.sender, -fee), b.validator, ShareOf(activation, b, fee));
  }

  lemma SpendCovers(m: Money, tx: Tx)
    requires Positive(m.bal) && Spend(m, tx).1
    ensures tx.payload.Transfer? ==> Get(Spend(m, tx).0.bal, tx.payload.recipient) >= tx.payload.amount
  {
    AddPositive(m.bal, tx.sender, -Spent(tx));
  }

  lemma StepBack(m: Money, after: Money, activation: int, b: Block, txs: seq<Tx>, i: nat)
    requires i < |txs| && LedTo(m, after, activation, b, txs[..i + 1])
    ensures var before := MoneyTxs(m, activation, b, txs[..i]).0;
            && LedTo(m, before, activation, b, txs[..i])
            && (txs[i].payload.Transfer? ==> Get(after.bal, txs[i].payload.recipient) >= txs[i].payload.amount)
            && Get(UndoSpend(after, txs[i]).bal, b.validator) >= ShareOf(activation, b, FeeOf(activation, b, txs[i]))
            && UndoMoneyTx(after, activation, b, txs[i]) == before
  {
    var some := txs[..i + 1];
    MoneyTxsSplit(m, activation, b, some, i);
    assert some[..i] == txs[..i] && some[i..] == [txs[i]];
    var before := MoneyTxs(m, activation, b, txs[..i]).0;
    LastTx(before, activation, b, txs[i]);
    MoneyTxsPositive(m, activation, b, txs[..i]);
    ForwardCovers(before, activation, b, txs[i]);
  }
}
