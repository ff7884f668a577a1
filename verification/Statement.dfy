/** What a block, and a whole chain, does to the account of one address and to the counters, read
    off the transactions alone: fees, shares, transfers, rewards, matured stakes, payouts. */
module Statements {
  import opened Maps
  import opened Types
  import opened MoneyLedger
  import opened StakeLedger
  import opened Ledger
  import opened LedgerLaws
  import opened LedgerChain
  import EpochPayout
  import Fees

  // ---- One block ----

  predicate Dynamic(activation: int, b: Block) { b.index >= activation }

  /** What a transaction pays: a fixed fee under the legacy model, and later a price per weight,
      which is what it offers on top of the base fee, within the base fee and its maximum. */
  function Charged(activation: int, b: Block, tx: Tx): int {
    if Dynamic(activation, b)
    then Max(b.baseFee, Min(b.baseFee + tx.maxPriority, tx.maxFee)) * Weight(tx.payload)
    else LegacyFee(tx.payload)
  }

  /** The part of it that the validator of the block gets: half of a legacy fee, rounded down. */
  function Earned(activation: int, b: Block, tx: Tx): int {
    if Dynamic(activation, b) then Charged(activation, b, tx) else Charged(activation, b, tx) / 2
  }

  function Sent(tx: Tx): int {
    if tx.payload.Transfer? || tx.payload.Stake? || tx.payload.Delegate? then tx.payload.amount else 0
  }

  /** What one transaction changes for an account. */
  function Line(activation: int, b: Block, tx: Tx, a: Addr): int {
    (if tx.payload.Transfer? && tx.payload.recipient == a then tx.payload.amount else 0)
    + (if b.validator == a then Earned(activation, b, tx) else 0)
    - (if tx.sender == a then Charged(activation, b, tx) + Sent(tx) else 0)
  }

  function Lines(activation: int, b: Block, txs: seq<Tx>, a: Addr): int {
    if txs == [] then 0 else Line(activation, b, txs[0], a) + Lines(activation, b, txs[1..], a)
  }

  /** What a list of transactions burns: under the legacy model the other half of each fee, and
      later nothing. */
  function Burned(activation: int, b: Block, txs: seq<Tx>): int {
    if txs == [] then 0 else
    (if Dynamic(activation, b) then 0 else LegacyFee(txs[0].payload) - LegacyFee(txs[0].payload) / 2)
    + Burned(activation, b, txs[1..])
  }

  lemma ChargedIsFee(activation: int, b: Block, tx: Tx)
    ensures FeeOf(activation, b, tx) == Charged(activation, b, tx)
    ensures ShareOf(activation, b, FeeOf(activation, b, tx)) == Earned(activation, b, tx)
  {
    Fees.TipIsPaid(b.baseFee, tx.maxFee, tx.maxPriority, Weight(tx.payload));
  }

  lemma FeeLine(m: Money, activation: int, b: Block, tx: Tx, a: Addr)
    requires PayFee(m, activation, b, tx).1
    ensures var n := PayFee(m, activation, b, tx).0;
            && Get(n.bal, a) == Get(m.bal, a) - (if tx.sender == a then Charged(activation, b, tx) else 0)
                                + (if b.validator == a then Earned(activation, b, tx) else 0)
            && n.burned == m.burned + Charged(activation, b, tx) - Earned(activation, b, tx) && n.minted == m.minted
  {
    hide FeeOf, ShareOf, Charged, Earned;
    ChargedIsFee(activation, b, tx);
    var debited := Add(m.bal, tx.sender, -FeeOf(activation, b, tx));
    PutGets(m.bal, tx.sender, Get(m.bal, tx.sender) - FeeOf(activation, b, tx), a);
    PutGets(m.bal, tx.sender, Get(m.bal, tx.sender) - FeeOf(activation, b, tx), b.validator);
    PutGets(debited, b.validator, Get(debited, b.validator) + Earned(activation, b, tx), a);
  }

  lemma SpendLine(m: Money, tx: Tx, a: Addr)
    requires Spend(m, tx).1 && ValidPayload(tx)
    ensures var n := Spend(m, tx).0;
            && Get(n.bal, a) == Get(m.bal, a) - (if tx.sender == a then Sent(tx) else 0)
                     + (if tx.payload.Transfer? && tx.payload.recipient == a then tx.payload.amount else 0)
            && n.burned == m.burned && n.minted == m.minted
  {
    var debited := Add(m.bal, tx.sender, -Spent(tx));
    PutGets(m.bal, tx.sender, Get(m.bal, tx.sender) - Spent(tx), a);
    if tx.payload.Transfer? {
      PutGets(m.bal, tx.sender, Get(m.bal, tx.sender) - Spent(tx), tx.payload.recipient);
      PutGets(debited, tx.payload.recipient, Get(debited, tx.payload.recipient) + Spent(tx), a);
    }
  }

  lemma TxLine(m: Money, activation: int, b: Block, tx: Tx, a: Addr)
    requires MoneyTx(m, activation, b, tx).1 && ValidPayload(tx)
    ensures var n := MoneyTx(m, activation, b, tx).0;
            && Get(n.bal, a) == Get(m.bal, a) + Line(activation, b, tx, a)
            && n.burned == m.burned + Charged(activation, b, tx) - Earned(activation, b, tx) && n.minted == m.minted
  {
    hide PayFee, Spend, Charged, Earned, Sent;
    FeeLine(m, activation, b, tx, a);
    SpendLine(PayFee(m, activation, b, tx).0, tx, a);
  }

  /** The transactions of a block, as far as one account sees them: it pays the fees and amounts of
      what it sends, gets what is transferred to it and, if it validates the block, its part of
      every fee. The rest of the legacy fees is burned, and nothing else is. */
  lemma {:induction false} TxsStatement(m: Money, activation: int, b: Block, txs: seq<Tx>, a: Addr)
    requires MoneyTxs(m, activation, b, txs).1 && ValidPayloads(txs)
    ensures var n := MoneyTxs(m, activation, b, txs).0;
            && Get(n.bal, a) == Get(m.bal, a) + Lines(activation, b, txs, a)
            && n.burned == m.burned + Burned(activation, b, txs) && n.minted == m.minted
    decreases |txs|
  {
    if txs != [] {
      hide MoneyTx, Line;
      TxLine(m, activation, b, txs[0], a);
      TxsStatement(MoneyTx(m, activation, b, txs[0]).0, activation, b, txs[1..], a);
    }
  }

  // ---- Which blocks go through ----

  /** The sender of a transaction can pay for it at its place in the list. A validator may pay an
      amount with its part of the fee it has just paid. */
  predicate CanPayAt(m: Money, activation: int, b: Block, txs: seq<Tx>, i: nat)
    requires i < |txs|
  {
    var tx := txs[i];
    var x, fee := Get(m.bal, tx.sender) + Lines(activation, b, txs[..i], tx.sender), Charged(activation, b, tx);
    && x >= fee
    && x - fee + (if b.validator == tx.sender then Earned(activation, b, tx) else 0) >= Sent(tx)
  }

  predicate ChargesOk(activation: int, b: Block, txs: seq<Tx>) {
    forall i | 0 <= i < |txs| :: Charged(activation, b, txs[i]) >= 0
  }

  lemma HeadCanPay(m: Money, activation: int, b: Block, txs: seq<Tx>)
    requires txs != [] && ValidPayload(txs[0]) && Charged(activation, b, txs[0]) >= 0 && Positive(m.bal)
    ensures CanPayAt(m, activation, b, txs, 0) <==> MoneyTx(m, activation, b, txs[0]).1
  {
    var tx := txs[0];
    assert txs[..0] == [];
    ChargedIsFee(activation, b, tx);
    assert Get(m.bal, tx.sender) >= 0;
    if PayFee(m, activation, b, tx).1 { FeeLine(m, activation, b, tx, tx.sender); }
  }

  lemma TailCanPay(m: Money, activation: int, b: Block, txs: seq<Tx>, i: nat)
    requires 0 < i < |txs| && ValidPayload(txs[0]) && MoneyTx(m, activation, b, txs[0]).1
    ensures CanPayAt(m, activation, b, txs, i) <==>
            CanPayAt(MoneyTx(m, activation, b, txs[0]).0, activation, b, txs[1..], i - 1)
  {
    hide MoneyTx, Line, Charged, Earned, Sent;
    TxLine(m, activation, b, txs[0], txs[i].sender);
    assert txs[..i][0] == txs[0] && txs[..i][1..] == txs[1..][..i - 1] && txs[1..][i - 1] == txs[i];
  }

  /** The money part of a block goes through if and only if each sender can pay, by its statement
      up to there, at each of its transactions. */
  lemma {:induction false} GoesThroughIff(m: Money, activation: int, b: Block, txs: seq<Tx>)
    requires Positive(m.bal) && ValidPayloads(txs) && ChargesOk(activation, b, txs)
    ensures MoneyTxs(m, activation, b, txs).1 <==>
            forall i | 0 <= i < |txs| :: CanPayAt(m, activation, b, txs, i)
    decreases |txs|
  {
    hide MoneyTx, CanPayAt, Charged, Positive, ValidPayload;
    if txs != [] {
      HeadCanPay(m, activation, b, txs);
      var (n, ok) := MoneyTx(m, activation, b, txs[0]);
      MoneyTxPositive(m, activation, b, txs[0]);
      if ok {
        assert ChargesOk(activation, b, txs[1..]);
        GoesThroughIff(n, activation, b, txs[1..]);
        forall i | 0 < i < |txs|
          ensures CanPayAt(m, activation, b, txs, i) <==> CanPayAt(n, activation, b, txs[1..], i - 1)
        {
          TailCanPay(m, activation, b, txs, i);
        }
        if forall i | 0 <= i < |txs| :: CanPayAt(m, activation, b, txs, i) {
          forall j | 0 <= j < |txs[1..]| ensures CanPayAt(n, activation, b, txs[1..], j) {
            assert CanPayAt(m, activation, b, txs, j + 1);
          }
        }
      }
    }
  }

  // ---- A whole block ----

  /** What an account gets of the unbonding entries that mature by a height. */
  function Matured(es: seq<Entry>, index: int, a: Addr): int {
    if es == [] then 0 else
    (if es[0].staker == a && es[0].release <= index then es[0].amount else 0) + Matured(es[1..], index, a)
  }

  lemma {:induction false} MatureGets(bal: map<Addr, int>, es: seq<Entry>, index: int, a: Addr)
    ensures Get(MatureCredits(bal, es, index), a) == Get(bal, a) + Matured(es, index, a)
    decreases |es|
  {
    if es != [] {
      var next := if es[0].release <= index then Add(bal, es[0].staker, es[0].amount) else bal;
      PutGets(bal, es[0].staker, Get(bal, es[0].staker) + es[0].amount, a);
      MatureGets(next, es[1..], index, a);
    }
  }

  function Power(k: nat): nat
    ensures Power(k) > 0
  {
    if k == 0 then 1 else 2 * Power(k - 1)
  }

  /** The nominal reward of a block: none for genesis, then the initial one, halved every
      HALVING_INTERVAL blocks. */
  function Subsidy(index: int): int {
    if index <= 0 then 0 else INITIAL_BLOCK_REWARD / Power(index / HALVING_INTERVAL)
  }

  /** The reward of a block when so much has been minted. */
  function Minted(index: int, minted: int): int { Max(0, Min(Subsidy(index), MAX_SUPPLY - minted)) }

  lemma {:induction false} HalvedIs(k: nat)
    ensures Halved(k) == INITIAL_BLOCK_REWARD / Power(k)
    decreases k
  {
    if k > 0 {
      HalvedIs(k - 1);
      HalveAgain(INITIAL_BLOCK_REWARD, Power(k - 1));
    }
  }

  lemma HalveAgain(x: nat, p: nat)
    requires p > 0
    ensures x / p / 2 == x / (2 * p)
  {
    var q := x / p;
    var h := q / 2;
    assert q == 2 * h || q == 2 * h + 1;
    assert x == q * p + x % p && h * (2 * p) == 2 * h * p && (2 * h + 1) * p == 2 * h * p + p;
    Fees.DivUnique(x, 2 * p, h);
  }

  lemma RewardIs(index: int, minted: int)
    ensures BlockReward(index, minted) == Minted(index, minted)
  {
    if index > 0 { HalvedIs(index / HALVING_INTERVAL); }
  }

  /** What an account gets at an epoch boundary, less what it pays out there. */
  ghost function PaidOut(s: State, index: int, a: Addr): int {
    if index / EPOCH_LENGTH <= s.epoch then 0 else
    var t := TermsOf(Mature(s, index));
    EpochPayout.Received(t, a, s.staking.stakes.Keys) -
      if a in s.staking.stakes then EpochPayout.Paid(t, a) else 0
  }

  /** The terms of a payout: stakes, commissions and rewards as they are before the block, and the
      balances of the staked validators with what has matured. */
  lemma TermsBefore(s: State, index: int, v: Addr)
    ensures var t := TermsOf(Mature(s, index));
            && t.stakes == s.staking.stakes && t.commission == s.staking.commission && t.rewards == s.rewards
            && (v in t.stakes ==> Get(t.snapshot, v) == Get(s.money.bal, v) + Matured(s.staking.unbonding, index, v))
  {
    MatureGets(s.money.bal, s.staking.unbonding, index, v);
  }

  lemma OpeningStatement(s: State, height: int, a: Addr)
    requires WellFormed(s, height)
    ensures var o := Opening(s, height + 1);
            && Get(o.money.bal, a) == Get(s.money.bal, a) + Matured(s.staking.unbonding, height + 1, a)
                                      + PaidOut(s, height + 1, a)
            && o.money.minted == s.money.minted && o.money.burned == s.money.burned
  {
    var m := Mature(s, height + 1);
    MatureGets(s.money.bal, s.staking.unbonding, height + 1, a);
    MatureCreditsKeep(s.money.bal, s.staking.unbonding, height + 1);
    if AtBoundary(s, height + 1) {
      TermsValid(m);
      EpochPayout.PayAllGets(TermsOf(m), m.money.bal, m.staking.stakes.Keys, a);
    }
  }

  /** The statement of one account for a block that goes through: what matured, what the epoch
      payout brought or took, its transactions, and the reward if it validated the block. */
  lemma BlockStatement(s: State, height: int, activation: int, b: Block, a: Addr)
    requires WellFormed(s, height) && b.index == height + 1 && ValidPayloads(b.txs)
    requires Apply(s, activation, b).1 != TxFailed
    ensures var n, r := Apply(s, activation, b).0, Minted(b.index, s.money.minted);
            && Get(n.money.bal, a) == Get(s.money.bal, a) + Matured(s.staking.unbonding, b.index, a)
                 + PaidOut(s, b.index, a) + Lines(activation, b, b.txs, a) + (if a == b.validator then r else 0)
            && n.money.minted == s.money.minted + r
            && n.money.burned == s.money.burned + Burned(activation, b, b.txs)
  {
    hide Opening, Matured, PaidOut, Lines, Burned, Minted, WellFormed, BlockReward;
    var o := Opening(s, b.index);
    OpeningStatement(s, height, a);
    LedgerTxsParts(o, activation, b, b.txs);
    TxsStatement(o.money, activation, b, b.txs, a);
    ApplyFails(s, activation, b);
    var m := MoneyTxs(o.money, activation, b, b.txs).0;
    RewardIs(b.index, m.minted);
    PutGets(m.bal, b.validator, Get(m.bal, b.validator) + BlockReward(b.index, m.minted), a);
  }

  // ---- A whole chain ----

  /** What a schedule of subsidies has issued up to a height, never more than the cap. */
  function Issued(height: int): int
    decreases height
  {
    if height <= 0 then GENESIS_BALANCE else Min(MAX_SUPPLY, Issued(height - 1) + Subsidy(height))
  }

  function BurnedOn(activation: int, chain: seq<Block>): int {
    if |chain| <= 1 then 0 else
    BurnedOn(activation, chain[..|chain| - 1]) + Burned(activation, chain[|chain| - 1], chain[|chain| - 1].txs)
  }

  /** What is known of the last block of a run. */
  lemma LastOfRun(net: Network, chain: seq<Block>)
    requires Run(net, chain) && |chain| > 1
    ensures var before, b := chain[..|chain| - 1], chain[|chain| - 1];
            && Run(net, before) && WellFormed(Replay(net, before), |before| - 1) && b.index == |before|
            && ValidPayloads(b.txs) && DistinctIds(b.txs) && Apply(Replay(net, before), net.activation, b).1 != TxFailed
            && Replay(net, chain) == Apply(Replay(net, before), net.activation, b).0 && before != []
  {
    hide Apply, WellFormed;
    ReplayOk(net, chain[..|chain| - 1]);
  }

  lemma StartOfRun(net: Network, chain: seq<Block>)
    ensures |chain| <= 1 ==> Replay(net, chain) == Genesis(net.genesis)
    ensures Run(net, chain) ==> chain != []
  {}

  /** On every chain the minted coins are those of the schedule for its length, whatever its
      blocks hold, and the burned coins are the burned parts of its legacy fees. */
  lemma {:induction false} CountersOfChain(net: Network, chain: seq<Block>)
    requires Run(net, chain)
    ensures var m := Replay(net, chain).money;
            m.minted == Issued(|chain| - 1) && m.burned == BurnedOn(net.activation, chain)
    decreases |chain|
  {
    hide Apply, Burned, WellFormed, Subsidy, Replay, Run, Minted;
    StartOfRun(net, chain);
    if |chain| > 1 {
      var before, b := chain[..|chain| - 1], chain[|chain| - 1];
      LastOfRun(net, chain);
      CountersOfChain(net, before);
      SupplyCapped(Replay(net, before), |before| - 1);
      BlockStatement(Replay(net, before), |before| - 1, net.activation, b, "");
      MintedGrows(|before|, Replay(net, before).money.minted);
    }
  }

  lemma SupplyCapped(s: State, height: int)
    requires WellFormed(s, height)
    ensures s.money.minted <= MAX_SUPPLY
  {}

  lemma MintedGrows(index: nat, minted: int)
    requires index > 0 && minted <= MAX_SUPPLY
    ensures minted + Minted(index, minted) == Min(MAX_SUPPLY, minted + Subsidy(index))
  {
    hide Power;
    assert Subsidy(index) >= 0 by { Fees.DivMono(0, INITIAL_BLOCK_REWARD, Power(index / HALVING_INTERVAL)); }
  }

  /** The rewards v has earned on a chain since its running epoch began. */
  function EarnedInEpoch(chain: seq<Block>, v: Addr): int {
    if |chain| <= 1 then 0 else
    var h := |chain| - 1;
    (if chain[h].validator == v then Minted(h, Issued(h - 1)) else 0)
    + (if h % EPOCH_LENGTH == 0 then 0 else EarnedInEpoch(chain[..h], v))
  }

  lemma RewardsStatement(s: State, height: int, activation: int, b: Block, v: Addr)
    requires WellFormed(s, height) && b.index == height + 1 && Apply(s, activation, b).1 != TxFailed
    ensures Get(Apply(s, activation, b).0.rewards, v) ==
            (if b.index % EPOCH_LENGTH == 0 then 0 else Get(s.rewards, v))
            + (if v == b.validator then Minted(b.index, s.money.minted) else 0)
  {
    hide Minted, BlockReward;
    var o := Opening(s, b.index);
    OpeningKeeps(s, height);
    LedgerTxsParts(o, activation, b, b.txs);
    MoneyTxsConserve(o.money, activation, b, b.txs);
    ApplyFails(s, activation, b);
    RewardIs(b.index, s.money.minted);
    PutGets(o.rewards, b.validator, Get(o.rewards, b.validator) + BlockReward(b.index, s.money.minted), v);
  }

  /** The rewards a boundary shares out are those its validators have earned since the last one. */
  lemma {:induction false} RewardsOfEpoch(net: Network, chain: seq<Block>, v: Addr)
    requires Run(net, chain)
    ensures Get(Replay(net, chain).rewards, v) == EarnedInEpoch(chain, v)
    decreases |chain|
  {
    hide Apply, WellFormed, Minted, Issued, Replay, Run, BurnedOn;
    StartOfRun(net, chain);
    if |chain| > 1 {
      var before, b := chain[..|chain| - 1], chain[|chain| - 1];
      LastOfRun(net, chain);
      RewardsOfEpoch(net, before, v);
      CountersOfChain(net, before);
      RewardsStatement(Replay(net, before), |before| - 1, net.activation, b, v);
    }
  }
}
