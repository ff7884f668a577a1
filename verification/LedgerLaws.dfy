/** What every applied block keeps, and what follows for the state of a whole chain. */
module LedgerLaws {
  import opened Maps
  import opened Types
  import opened MoneyLedger
  import opened StakeLedger
  import opened StakingLaws
  import opened TokenLedger
  import opened NotaryLedger
  import opened Ledger
  import Validation
  import EpochPayout

  // ---- Well-formed states ----

  predicate CommissionsOk(commission: map<Addr, int>) {
    forall v <- commission :: 0 <= commission[v] <= 100
  }

  predicate EntriesOk(es: seq<Entry>, height: int) {
    forall e <- es :: e.amount > 0 && e.release <= height + UNBONDING_PERIOD
  }

  predicate MoneyOk(m: Money) { Positive(m.bal) && 0 <= m.minted <= MAX_SUPPLY && m.burned >= 0 }

  predicate StakingOk(k: Staking, height: int) {
    Tidy(k) && CommissionsOk(k.commission) && EntriesOk(k.unbonding, height)
  }

  ghost predicate WellFormed(s: State, height: int) {
    && MoneyOk(s.money) && StakingOk(s.staking, height) && TokensOk(s.tokens) && NotaryOk(s.notary)
    && Positive(s.next) && Positive(s.rewards) && height >= 0 && s.epoch == height / EPOCH_LENGTH
  }

  lemma {:induction false} MatureCreditsKeep(bal: map<Addr, int>, es: seq<Entry>, index: int)
    requires Positive(bal) && forall e <- es :: e.amount > 0
    ensures Positive(MatureCredits(bal, es, index))
    ensures Sum(MatureCredits(bal, es, index)) == Sum(bal) + UnbondingSum(es) - UnbondingSum(Waiting(es, index))
    decreases |es|
  {
    if es != [] {
      var next := if es[0].release <= index then Add(bal, es[0].staker, es[0].amount) else bal;
      if es[0].release <= index {
        SumAdd(bal, es[0].staker, es[0].amount);
        AddPositive(bal, es[0].staker, es[0].amount);
      }
      MatureCreditsKeep(next, es[1..], index);
      UnbondingSumAppend(if es[0].release <= index then [] else [es[0]], Waiting(es[1..], index));
    }
  }

  lemma TermsValid(s: State)
    requires Positive(s.money.bal) && CanonicalStakes(s.staking.stakes) && CommissionsOk(s.staking.commission) &&
             Positive(s.rewards)
    ensures EpochPayout.ValidTerms(TermsOf(s)) && EpochPayout.Frozen(TermsOf(s), s.money.bal)
  {}

  lemma EpochStepKeeps(s: State, index: int)
    requires MoneyOk(s.money) && CanonicalStakes(s.staking.stakes) && CommissionsOk(s.staking.commission) &&
             Positive(s.rewards)
    ensures var n := EpochStep(s, index);
            MoneyOk(n.money) && Sum(n.money.bal) == Sum(s.money.bal) && Positive(n.rewards)
  {
    if AtBoundary(s, index) {
      TermsValid(s);
      EpochPayout.PayAllPositive(TermsOf(s), s.money.bal, s.staking.stakes.Keys);
    }
  }

  /** Nothing but balances, unbonding entries, rewards and the epoch changes before the
      transactions, and no coin is made or lost. */
  lemma OpeningKeeps(s: State, height: int)
    requires WellFormed(s, height)
    ensures var o := Opening(s, height + 1);
            && MoneyOk(o.money) && StakingOk(o.staking, height) && Positive(o.rewards) &&
               o.epoch == (height + 1) / EPOCH_LENGTH
            && Sum(o.money.bal) + Worth(o.staking) == Sum(s.money.bal) + Worth(s.staking)
            && o == s.(money := s.money.(bal := o.money.bal), rewards := o.rewards, epoch := o.epoch,
                       staking := s.staking.(unbonding := Waiting(s.staking.unbonding, height + 1)))
  {
    MatureCreditsKeep(s.money.bal, s.staking.unbonding, height + 1);
    WaitingStays(map[], s.staking.unbonding, height + 1);
    EpochStepKeeps(Mature(s, height + 1), height + 1);
  }

  lemma {:induction false} StakingTxsOk(k: Staking, index: int, txs: seq<Tx>)
    requires StakingOk(k, index) && ValidPayloads(txs)
    ensures StakingOk(StakingTxs(k, index, txs), index)
    decreases |txs|
  {
    if txs != [] {
      StakingTxTidy(k, index, txs[0]);
      StakingTxsOk(StakingTx(k, index, txs[0]), index, txs[1..]);
    }
  }

  lemma {:induction false} NotaryTxsOk(n: Notary, txs: seq<Tx>)
    requires NotaryOk(n)
    ensures NotaryOk(NotaryTxs(n, txs))
    decreases |txs|
  {
    if txs != [] {
      NotaryTxOk(n, txs[0]);
      NotaryTxsOk(NotaryTx(n, txs[0]), txs[1..]);
    }
  }

  lemma {:induction false} BumpPositive(next: map<Addr, int>, txs: seq<Tx>)
    requires Positive(next)
    ensures Positive(Validation.Bump(next, txs))
    decreases |txs|
  {
    if txs != [] {
      var v := Max(Get(next, txs[0].sender), txs[0].nonce + 1);
      BumpPositive(Put(next, txs[0].sender, v), txs[1..]);
    }
  }

  lemma ClosingKeeps(s: State, b: Block)
    requires MoneyOk(s.money) && Positive(s.rewards)
    ensures var n := Closing(s, b);
            && MoneyOk(n.money) && Positive(n.rewards) && n.money.burned == s.money.burned
            && Sum(n.money.bal) - n.money.minted == Sum(s.money.bal) - s.money.minted
  {
    var r: int := BlockReward(b.index, s.money.minted);
    SumAdd(s.money.bal, b.validator, r);
    AddPositive(s.money.bal, b.validator, r);
    AddPositive(s.rewards, b.validator, r);
  }

  /** The state after the transactions of a block, component by component. */
  lemma TxsKeep(s: State, height: int, activation: int, b: Block)
    requires MoneyOk(s.money) && StakingOk(s.staking, height) && TokensOk(s.tokens) && NotaryOk(s.notary)
    requires Positive(s.next) && b.index == height + 1 && ValidPayloads(b.txs) && LedgerTxs(s, activation, b, b.txs).1
    ensures var n := LedgerTxs(s, activation, b, b.txs).0;
            && MoneyOk(n.money) && StakingOk(n.staking, b.index) && TokensOk(n.tokens) && NotaryOk(n.notary)
            && Positive(n.next) && n.rewards == s.rewards && n.epoch == s.epoch
  {
    LedgerTxsParts(s, activation, b, b.txs);
    MoneyTxsPositive(s.money, activation, b, b.txs);
    MoneyTxsConserve(s.money, activation, b, b.txs);
    MoneyTxsBurn(s.money, activation, b, b.txs);
    StakingTxsOk(s.staking, b.index, b.txs);
    TokenTxsKeepOk(s.tokens, b.index, b.txs);
    NotaryTxsOk(s.notary, b.txs);
    BumpPositive(s.next, b.txs);
  }

  /** Every block whose transactions go through keeps the state well formed: no balance,
      stake, token balance or reward is ever negative, at most MAX_SUPPLY is minted, token
      holdings add up, the notarization index is consistent. */
  lemma ApplyKeepsWellFormed(s: State, height: int, activation: int, b: Block)
    requires WellFormed(s, height) && b.index == height + 1 && ValidPayloads(b.txs)
    requires Apply(s, activation, b).1 != TxFailed
    ensures WellFormed(Apply(s, activation, b).0, height + 1)
  {
    var o := Opening(s, b.index);
    OpeningKeeps(s, height);
    TxsKeep(o, height, activation, b);
    ClosingKeeps(LedgerTxs(o, activation, b, b.txs).0, b);
  }

  // ---- Conservation ----

  /** Balances, stakes, unbonding entries and burned coins, less what was minted. */
  ghost function Accounted(s: State): int {
    Sum(s.money.bal) + Worth(s.staking) + s.money.burned - s.money.minted
  }

  lemma {:induction false} StakedEntered(txs: seq<Tx>)
    requires ValidPayloads(txs)
    ensures StakedBy(txs) == EnteredBy(txs)
  {
    if txs != [] { StakedEntered(txs[1..]); }
  }

  /** Coins the UNSTAKEs of a block create, and coins its evidence destroys. */
  function Created(s: State, b: Block): int { UncoveredBy(Mature(s, b.index).staking, b.index, b.txs) }

  function Destroyed(s: State, b: Block): int { SlashedBy(Mature(s, b.index).staking, b.index, b.txs) }

  lemma TxsConserve(s: State, height: int, activation: int, b: Block)
    requires StakingOk(s.staking, height) && ValidPayloads(b.txs) && LedgerTxs(s, activation, b, b.txs).1
    ensures var n := LedgerTxs(s, activation, b, b.txs).0;
            && Accounted(n) ==
               Accounted(s) + UncoveredBy(s.staking, b.index, b.txs) - SlashedBy(s.staking, b.index, b.txs)
            && n.money.minted == s.money.minted
  {
    LedgerTxsParts(s, activation, b, b.txs);
    MoneyTxsConserve(s.money, activation, b, b.txs);
    StakingTxsWorth(s.staking, b.index, b.txs);
    StakedEntered(b.txs);
  }

  /** Conservation: fees under both models, rewards, stakes, unbonding, maturity and epoch
      payouts all cancel; a block changes the accounted coins exactly by what an UNSTAKE takes
      beyond its validator's total, and by what its evidence slashes. */
  lemma ApplyConserves(s: State, height: int, activation: int, b: Block)
    requires WellFormed(s, height) && b.index == height + 1 && ValidPayloads(b.txs)
    requires Apply(s, activation, b).1 != TxFailed
    ensures Accounted(Apply(s, activation, b).0) == Accounted(s) + Created(s, b) - Destroyed(s, b)
  {
    var o := Opening(s, b.index);
    OpeningKeeps(s, height);
    TxsKeep(o, height, activation, b);
    TxsConserve(o, height, activation, b);
    ClosingKeeps(LedgerTxs(o, activation, b, b.txs).0, b);
  }
}
