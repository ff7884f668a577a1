/** When the reversal of a block gives back the state before it, exactly. */
module LedgerUndo {
  import opened Maps
  import opened Types
  import opened MoneyLedger
  import opened StakeLedger
  import opened TokenLedger
  import NotaryLedger
  import opened Ledger
  import opened LedgerLaws
  import Validation
  import EpochPayout

  // ---- The conditions ----

  predicate NothingMatures(s: State, b: Block) {
    forall e <- s.staking.unbonding :: e.release > b.index
  }

  /** A boundary block has no rewards to share. */
  predicate NothingToPay(s: State, b: Block) { AtBoundary(s, b.index) ==> s.rewards == map[] }

  /** The supply left after the block still covers the nominal reward. */
  predicate RewardCovered(s: State, b: Block) {
    var r := BlockReward(b.index, s.money.minted);
    r == 0 || MAX_SUPPLY - (s.money.minted + r) >= NominalReward(b.index)
  }

  /** The condition under which balances, counters and stakes come back. */
  ghost predicate Returns(s: State, b: Block) {
    && NothingMatures(s, b) && RewardCovered(s, b)
    && Covered(s.staking, b.index, b.txs) && NoClamp(StakingTxs(s.staking, b.index, b.txs), b.txs)
  }

  /** The condition for a reversal that has the record of the payout of its block. */
  ghost predicate RestorableOnRecord(s: State, b: Block) {
    Returns(s, b) && TokensRestored(TokenTxs(s.tokens, b.index, b.txs).0, b.txs)
  }

  ghost predicate Restorable(s: State, b: Block) { RestorableOnRecord(s, b) && NothingToPay(s, b) }

  /** The transaction types the reversal is written for, and fresh distinct transaction ids. */
  predicate InScope(s: State, b: Block) {
    && ValidPayloads(b.txs) && AllReversible(b.txs)
    && DistinctIds(b.txs) && forall d <- s.notary.byHash :: NotaryLedger.NotIn(b.txs, s.notary.byHash[d])
  }

  const NO_RECORD: Record := ([], [])

  /** The balances after the credits and debits of a record. */
  function MovedBy(bal: map<Addr, int>, r: Record): map<Addr, int> {
    EpochPayout.ApplyMoves(EpochPayout.ApplyMoves(bal, r.0, 1), r.1, -1)
  }

  /** A record lists the payout of a block: its moves lead from the balances before the payout to
      those after it. */
  ghost predicate ListsPayout(s: State, index: int, r: Record) {
    Opening(s, index).money.bal == MovedBy(Mature(s, index).money.bal, r)
  }

  /** What is restored by a reversal that has the record of the payout: all but the rewards that
      the payout has consumed. */
  function ButForRewards(s: State, index: int): State {
    s.(rewards := if AtBoundary(s, index) then map[] else s.rewards)
  }

  // ---- Component by component ----

  lemma {:induction false} UndoMoneyTxsMinted(m: Money, activation: int, b: Block, txs: seq<Tx>)
    ensures UndoMoneyTxs(m, activation, b, txs).minted == m.minted
    decreases |txs|
  {
    if txs != [] {
      var n := |txs| - 1;
      UndoMoneyTxsMinted(UndoMoneyTx(m, activation, b, txs[n]), activation, b, txs[..n]);
    }
  }

  /** The money part of a block and of its reversal. */
  function MoneyAndBack(m: Money, activation: int, b: Block): Money {
    UndoMoneyTxs(UndoReward(Reward(MoneyTxs(m, activation, b, b.txs).0, b), b), activation, b, b.txs)
  }

  /** The minted counter tells whether the reward was taken back exactly, and then the whole
      money part is restored. */
  lemma UndoMoney(m: Money, activation: int, b: Block)
    requires MoneyOk(m) && MoneyTxs(m, activation, b, b.txs).1
    ensures var undone, r: int := MoneyAndBack(m, activation, b), BlockReward(b.index, m.minted);
            && (undone.minted == m.minted <==> r == 0 || MAX_SUPPLY - (m.minted + r) >= NominalReward(b.index))
            && (undone.minted == m.minted ==> undone == m)
  {
    var mid := MoneyTxs(m, activation, b, b.txs).0;
    MoneyTxsConserve(m, activation, b, b.txs);
    MoneyTxsPositive(m, activation, b, b.txs);
    UndoRewardExact(mid, b);
    UndoMoneyTxsMinted(UndoReward(Reward(mid, b), b), activation, b, b.txs);
    UndoVisitsForwardStates(m, activation, b, b.txs, 0);
    assert b.txs[0..] == b.txs && b.txs[..0] == [];
  }

  predicate Sends(txs: seq<Tx>, s: Addr) { exists i | 0 <= i < |txs| :: txs[i].sender == s }

  lemma SendsStep(txs: seq<Tx>, s: Addr)
    requires txs != []
    ensures Sends(txs, s) <==> txs[0].sender == s || Sends(txs[1..], s)
  {
    if Sends(txs[1..], s) {
      var i :| 0 <= i < |txs[1..]| && txs[1..][i].sender == s;
      assert txs[i + 1].sender == s;
    }
    if i :| 1 <= i < |txs| && txs[i].sender == s { assert txs[1..][i - 1].sender == s; }
  }

  lemma {:induction false} RescanGets(next: map<Addr, int>, remaining: seq<Tx>, txs: seq<Tx>, s: Addr)
    ensures Get(Rescan(next, remaining, txs), s) == if Sends(txs, s) then Validation.NextAfter(0, remaining, s)
            else Get(next, s)
    ensures Canonical(next) ==> Canonical(Rescan(next, remaining, txs))
    decreases |txs|
  {
    if txs != [] {
      var t := txs[0].sender;
      SendsStep(txs, s);
      PutGets(next, t, Validation.NextAfter(0, remaining, t), s);
      RescanGets(Put(next, t, Validation.NextAfter(0, remaining, t)), remaining, txs[1..], s);
    }
  }

  lemma {:induction false} NextAfterOthers(next: int, txs: seq<Tx>, s: Addr)
    requires !Sends(txs, s)
    ensures Validation.NextAfter(next, txs, s) == next
    decreases |txs|
  {
    if txs != [] {
      SendsStep(txs, s);
      NextAfterOthers(next, txs[1..], s);
    }
  }

  /** Rescanning the senders of a block restores the nonce table from before it, if at most
      transactions of those senders have raised it. */
  lemma RescanRestoresPart(before: seq<Tx>, done: seq<Tx>, txs: seq<Tx>)
    requires forall s :: Sends(done, s) ==> Sends(txs, s)
    ensures var next := Validation.Bump(map[], before);
            Rescan(Validation.Bump(next, done), before, txs) == next
  {
    var next := Validation.Bump(map[], before);
    var undone := Rescan(Validation.Bump(next, done), before, txs);
    forall s ensures Get(undone, s) == Get(next, s) {
      Validation.BumpGets(map[], before, s);
      Validation.BumpGets(next, done, s);
      RescanGets(Validation.Bump(next, done), before, txs, s);
      if !Sends(txs, s) { NextAfterOthers(Get(next, s), done, s); }
    }
    Validation.BumpGets(map[], before, "");
    Validation.BumpGets(next, done, "");
    RescanGets(Validation.Bump(next, done), before, txs, "");
    Ext(undone, next);
  }

  /** Rescanning the senders of a block restores the whole nonce table. */
  lemma RescanRestores(before: seq<Tx>, txs: seq<Tx>)
    ensures var next := Validation.Bump(map[], before);
            Rescan(Validation.Bump(next, txs), before, txs) == next
  {
    RescanRestoresPart(before, txs, txs);
  }

  /** The transactions looked at, the failing one included, have used up their nonces. */
  lemma {:induction false} NoncesUsed(s: State, activation: int, b: Block, txs: seq<Tx>) returns (k: nat)
    ensures k <= |txs| && LedgerTxs(s, activation, b, txs).0.next == Validation.Bump(s.next, txs[..k])
    decreases |txs|
  {
    if txs == [] {
      k := 0;
    } else {
      var (n, ok) := LedgerTx(s, activation, b, txs[0]);
      k := 1;
      if ok {
        var j := NoncesUsed(n, activation, b, txs[1..]);
        assert txs[..j + 1][1..] == txs[1..][..j];
        k := j + 1;
      } else {
        assert txs[..1] == [txs[0]];
      }
      BumpStep(s.next, txs[..k]);
    }
  }

  /** However far a block got, taking it back restores the nonce table. */
  lemma TakenBackNonces(s: State, activation: int, b: Block, before: seq<Tx>, record: Record)
    requires s.next == Validation.Bump(map[], before)
    ensures Undo(Apply(s, activation, b).0, activation, b, before, record).next == s.next
  {
    var o := Opening(s, b.index);
    assert o.next == s.next;
    var k := NoncesUsed(o, activation, b, b.txs);
    var done := b.txs[..k];
    forall t | Sends(done, t) ensures Sends(b.txs, t) {
      var i :| 0 <= i < |done| && done[i].sender == t;
      assert b.txs[i].sender == t;
    }
    ApplyFails(s, activation, b);
    RescanRestoresPart(before, done, b.txs);
  }

  /** The rewards of the epoch: raised by the reward, lowered by the recomputed one. */
  function RewardsAndBack(rewards: map<Addr, int>, minted: int, b: Block): map<Addr, int> {
    var r: int := BlockReward(b.index, minted);
    var after := Add(rewards, b.validator, r);
    Put(after, b.validator, Max(0, Get(after, b.validator) - BlockReward(b.index, minted + r)))
  }

  lemma UndoRewards(rewards: map<Addr, int>, minted: int, b: Block)
    requires Positive(rewards)
    requires var r: int := BlockReward(b.index, minted); r == 0 || MAX_SUPPLY - (minted + r) >= NominalReward(b.index)
    ensures RewardsAndBack(rewards, minted, b) == rewards
  {
    var r: int := BlockReward(b.index, minted);
    AddAdd(rewards, b.validator, r, -r);
    PutGets(rewards, b.validator, Get(rewards, b.validator) + r, b.validator);
  }

  function StakingAndBack(k: Staking, b: Block): Staking {
    var o := k.(unbonding := Waiting(k.unbonding, b.index));
    UndoStakingTxs(StakingTxs(o, b.index, b.txs), b.index, b.txs)
  }

  lemma UndoStakingPart(k: Staking, b: Block)
    requires Tidy(k) && AllReversible(b.txs)
    requires forall e <- k.unbonding :: e.release < b.index + UNBONDING_PERIOD
    ensures StakingAndBack(k, b) == k <==>
            (forall e <- k.unbonding :: e.release > b.index) &&
            Covered(k, b.index, b.txs) && NoClamp(StakingTxs(k, b.index, b.txs), b.txs)
  {
    var o := k.(unbonding := Waiting(k.unbonding, b.index));
    WaitingStays(map[], k.unbonding, b.index);
    UndoEntriesExact(o, b.index, b.txs);
    if o == k { UndoStakingExact(k, b.index, b.txs); }
  }

  lemma OpeningStill(s: State, height: int, b: Block)
    requires WellFormed(s, height) && b.index == height + 1 && NothingMatures(s, b) && NothingToPay(s, b)
    ensures Opening(s, b.index) == s.(epoch := b.index / EPOCH_LENGTH)
  {
    WaitingStays(s.money.bal, s.staking.unbonding, b.index);
    assert Mature(s, b.index) == s;
    TermsValid(s);
    if AtBoundary(s, b.index) { EpochPayout.NoRewardsNoPayout(TermsOf(s), s.money.bal); }
  }

  lemma EpochReturns(height: int, index: int)
    requires height >= 0 && index == height + 1
    ensures index / EPOCH_LENGTH > height / EPOCH_LENGTH <==> index % EPOCH_LENGTH == 0
    ensures height / EPOCH_LENGTH == if index % EPOCH_LENGTH == 0 then Max(0, index / EPOCH_LENGTH - 1)
            else index / EPOCH_LENGTH
  {}

  lemma ApplyNothing(bal: map<Addr, int>)
    ensures EpochPayout.ApplyMoves(EpochPayout.ApplyMoves(bal, [], -1), [], 1) == bal
  {}

  lemma UndoEpochAlone(s: State, height: int, index: int)
    requires height >= 0 && index == height + 1 && s.epoch == index / EPOCH_LENGTH
    ensures UndoEpoch(s, index, NO_RECORD) == s.(epoch := height / EPOCH_LENGTH)
  {
    EpochReturns(height, index);
    ApplyNothing(s.money.bal);
  }

  /** The reversal of an applied block, component by component. */
  lemma UndoParts(s: State, height: int, activation: int, b: Block, before: seq<Tx>)
    requires WellFormed(s, height) && b.index == height + 1 && InScope(s, b)
    requires s.next == Validation.Bump(map[], before) && Apply(s, activation, b).1 != TxFailed
    ensures var o := Opening(s, b.index);
            && MoneyTxs(o.money, activation, b, b.txs).1 && TokenTxs(s.tokens, b.index, b.txs).1
            && Undo(Apply(s, activation, b).0, activation, b, before, NO_RECORD) ==
               State(MoneyAndBack(o.money, activation, b), StakingAndBack(s.staking, b),
                     UndoTokenTxs(TokenTxs(s.tokens, b.index, b.txs).0, b.txs), s.notary, s.next,
                     RewardsAndBack(o.rewards, s.money.minted, b), s.epoch)
  {
    var o := Opening(s, b.index);
    OpeningKeeps(s, height);
    LedgerTxsParts(o, activation, b, b.txs);
    MoneyTxsConserve(o.money, activation, b, b.txs);
    var n := LedgerTxs(o, activation, b, b.txs).0;
    UndoFromParts(n, activation, b, before, height);
    RescanRestores(before, b.txs);
    NotaryLedger.UndoNotaryExact(s.notary, b.txs);
  }

  lemma UndoFromParts(n: State, activation: int, b: Block, before: seq<Tx>, height: int)
    requires height >= 0 && b.index == height + 1 && n.epoch == b.index / EPOCH_LENGTH
    ensures Undo(Closing(n, b), activation, b, before, NO_RECORD) ==
            State(UndoMoneyTxs(UndoReward(Reward(n.money, b), b), activation, b, b.txs),
                  UndoStakingTxs(n.staking, b.index, b.txs), UndoTokenTxs(n.tokens, b.txs),
                  NotaryLedger.UndoNotaryTxs(n.notary, b.txs), Rescan(n.next, before, b.txs),
                  RewardsAndBack(n.rewards, n.money.minted, b), height / EPOCH_LENGTH)
  {
    UndoEpochAlone(UndoTxs(UndoClosing(Closing(n, b), b), activation, b, before), height, b.index);
  }

  lemma RestoredIf(s: State, height: int, activation: int, b: Block, before: seq<Tx>)
    requires WellFormed(s, height) && b.index == height + 1 && InScope(s, b) && Restorable(s, b)
    requires s.next == Validation.Bump(map[], before) && Apply(s, activation, b).1 != TxFailed
    ensures Undo(Apply(s, activation, b).0, activation, b, before, NO_RECORD) == s
  {
    UndoParts(s, height, activation, b, before);
    OpeningStill(s, height, b);
    UndoMoney(s.money, activation, b);
    UndoStakingPart(s.staking, b);
    UndoTokensExact(s.tokens, b.index, b.txs);
    UndoRewards(s.rewards, s.money.minted, b);
  }

  /** Balances, counters and stakes come back as they were after the opening of the block,
      whatever was paid out there and whatever the block did to tokens. */
  lemma MoneyAndStakesReturn(s: State, height: int, activation: int, b: Block, before: seq<Tx>)
    requires WellFormed(s, height) && b.index == height + 1 && InScope(s, b)
    requires s.next == Validation.Bump(map[], before) && Apply(s, activation, b).1 != TxFailed
    requires Returns(s, b)
    ensures var n := Undo(Apply(s, activation, b).0, activation, b, before, NO_RECORD);
            n.money == Opening(s, b.index).money && n.staking == s.staking
  {
    hide Undo, Apply, Opening, NoClamp, Covered, MoneyTxs, StakingTxs, StakingAndBack, MoneyAndBack;
    UndoParts(s, height, activation, b, before);
    OpeningForOnlyIf(s, height, b);
    UndoMoney(Opening(s, b.index).money, activation, b);
    UndoStakingPart(s.staking, b);
  }

  lemma MoneyOnlyIf(s: State, m: Money, activation: int, b: Block)
    requires MoneyOk(m) && MoneyTxs(m, activation, b, b.txs).1 && m.minted == s.money.minted
    requires MoneyAndBack(m, activation, b) == s.money
    ensures RewardCovered(s, b)
  {
    UndoMoney(m, activation, b);
  }

  lemma RewardsOnlyIf(s: State, rewards: map<Addr, int>, b: Block)
    requires RewardCovered(s, b) && Positive(rewards) && (AtBoundary(s, b.index) ==> rewards == map[])
    requires RewardsAndBack(rewards, s.money.minted, b) == s.rewards
    ensures NothingToPay(s, b)
  {
    UndoRewards(rewards, s.money.minted, b);
  }

  lemma RestoredOnlyIf(s: State, height: int, activation: int, b: Block, before: seq<Tx>)
    requires WellFormed(s, height) && b.index == height + 1 && InScope(s, b)
    requires s.next == Validation.Bump(map[], before) && Apply(s, activation, b).1 != TxFailed
    requires Undo(Apply(s, activation, b).0, activation, b, before, NO_RECORD) == s
    ensures Restorable(s, b)
  {
    var o := Opening(s, b.index);
    UndoParts(s, height, activation, b, before);
    OpeningForOnlyIf(s, height, b);
    MoneyOnlyIf(s, o.money, activation, b);
    RewardsOnlyIf(s, o.rewards, b);
    UndoStakingPart(s.staking, b);
    UndoTokensExact(s.tokens, b.index, b.txs);
  }

  lemma OpeningForOnlyIf(s: State, height: int, b: Block)
    requires WellFormed(s, height) && b.index == height + 1
    ensures var o := Opening(s, b.index);
            && MoneyOk(o.money) && o.money.minted == s.money.minted && Positive(o.rewards)
            && (AtBoundary(s, b.index) ==> o.rewards == map[])
  {
    OpeningKeeps(s, height);
  }

  /** Undo is exact: the reversal of an applied block gives back the whole state before it,
      every balance, stake, total, unbonding entry, nonce, token, notarization, reward and
      counter, if and only if nothing matured in it, it shared out no epoch rewards, the
      supply still covers its reward, every UNSTAKE was covered by its stake and total, and no
      stake or token reversal is clamped. */
  lemma UndoExact(s: State, height: int, activation: int, b: Block, before: seq<Tx>)
    requires WellFormed(s, height) && b.index == height + 1 && InScope(s, b)
    requires s.next == Validation.Bump(map[], before) && Apply(s, activation, b).1 != TxFailed
    ensures Undo(Apply(s, activation, b).0, activation, b, before, NO_RECORD) == s <==> Restorable(s, b)
  {
    if Restorable(s, b) { RestoredIf(s, height, activation, b, before); }
    if Undo(Apply(s, activation, b).0, activation, b, before, NO_RECORD) == s {
      RestoredOnlyIf(s, height, activation, b, before);
    }
  }

  // ---- The reversal of a payout ----

  lemma NothingRecorded(s: State, index: int)
    requires !AtBoundary(s, index)
    ensures ListsPayout(s, index, NO_RECORD)
  {}

  /** Only the epoch part of a reversal looks at the record. */
  lemma UndoOnRecord(s: State, height: int, activation: int, b: Block, remaining: seq<Tx>, r: Record)
    requires height >= 0 && b.index == height + 1
    ensures var plain, n := Undo(s, activation, b, remaining, NO_RECORD), Undo(s, activation, b, remaining, r);
            && n == plain.(money := plain.money.(bal := n.money.bal))
            && (b.index / EPOCH_LENGTH > height / EPOCH_LENGTH ==>
                 n.money.bal == EpochPayout.ApplyMoves(EpochPayout.ApplyMoves(plain.money.bal, r.0, -1), r.1, 1))
            && (b.index / EPOCH_LENGTH <= height / EPOCH_LENGTH ==> n == plain)
  {
    EpochReturns(height, b.index);
    ApplyNothing(UndoTxs(UndoClosing(s, b), activation, b, remaining).money.bal);
  }

  lemma MatureStill(s: State, b: Block)
    requires NothingMatures(s, b)
    ensures Mature(s, b.index) == s
  {
    WaitingStays(s.money.bal, s.staking.unbonding, b.index);
  }

  /** The recorded moves take the balances from after a payout back to those before it. */
  lemma PayoutTakenBack(s: State, height: int, b: Block, r: Record, bal: map<Addr, int>)
    requires WellFormed(s, height) && b.index == height + 1 && NothingMatures(s, b) && ListsPayout(s, b.index, r)
    requires bal == Opening(s, b.index).money.bal
    ensures EpochPayout.ApplyMoves(EpochPayout.ApplyMoves(bal, r.0, -1), r.1, 1) == s.money.bal
    ensures b.index / EPOCH_LENGTH <= height / EPOCH_LENGTH ==> bal == s.money.bal
  {
    hide EpochPayout.ApplyMoves, EpochPayout.Payout;
    MatureStill(s, b);
    EpochPayout.ReversalRestores(s.money.bal, r.0, r.1);
  }

  /** The reversal of a block that has the record of its payout gives back every balance, the
      counters and all stakes, whatever was paid out. */
  lemma PayoutReturns(s: State, height: int, activation: int, b: Block, before: seq<Tx>, r: Record)
    requires WellFormed(s, height) && b.index == height + 1 && InScope(s, b) && ListsPayout(s, b.index, r)
    requires s.next == Validation.Bump(map[], before) && Apply(s, activation, b).1 != TxFailed
    requires Returns(s, b)
    ensures var n := Undo(Apply(s, activation, b).0, activation, b, before, r);
            n.money == s.money && n.staking == s.staking
  {
    hide Undo, Apply, Opening, NoClamp, Covered, StakingTxs, ListsPayout, EpochPayout.ApplyMoves, InScope, WellFormed;
    hide RewardCovered, NothingMatures;
    var after := Apply(s, activation, b).0;
    OpeningMoney(s, height, b);
    MoneyAndStakesReturn(s, height, activation, b, before);
    UndoOnRecord(after, height, activation, b, before, r);
    PayoutTakenBack(s, height, b, r, Opening(s, b.index).money.bal);
  }

  lemma OpeningMoney(s: State, height: int, b: Block)
    requires WellFormed(s, height) && b.index == height + 1
    ensures height >= 0 && Opening(s, b.index).money == s.money.(bal := Opening(s, b.index).money.bal)
    ensures Opening(s, b.index).rewards == ButForRewards(s, b.index).rewards
  {
    OpeningKeeps(s, height);
  }

  lemma RestoredIfOnRecord(s: State, height: int, activation: int, b: Block, before: seq<Tx>, r: Record)
    requires WellFormed(s, height) && b.index == height + 1 && InScope(s, b) && ListsPayout(s, b.index, r)
    requires s.next == Validation.Bump(map[], before) && Apply(s, activation, b).1 != TxFailed
    requires RestorableOnRecord(s, b)
    ensures Undo(Apply(s, activation, b).0, activation, b, before, r) == ButForRewards(s, b.index)
  {
    hide Undo, Apply, Opening, NoClamp, Covered, StakingTxs, ListsPayout, RewardsAndBack, MoneyAndBack, StakingAndBack;
    var after := Apply(s, activation, b).0;
    OpeningMoney(s, height, b);
    PayoutReturns(s, height, activation, b, before, r);
    UndoOnRecord(after, height, activation, b, before, r);
    UndoParts(s, height, activation, b, before);
    UndoTokensExact(s.tokens, b.index, b.txs);
    UndoRewards(ButForRewards(s, b.index).rewards, s.money.minted, b);
  }

  lemma RestoredOnlyIfOnRecord(s: State, height: int, activation: int, b: Block, before: seq<Tx>, r: Record)
    requires WellFormed(s, height) && b.index == height + 1 && InScope(s, b)
    requires s.next == Validation.Bump(map[], before) && Apply(s, activation, b).1 != TxFailed
    requires Undo(Apply(s, activation, b).0, activation, b, before, r) == ButForRewards(s, b.index)
    ensures RestorableOnRecord(s, b)
  {
    hide Undo, Apply, Opening, NoClamp, Covered, StakingTxs, MoneyAndBack, StakingAndBack, MoneyTxs;
    var o := Opening(s, b.index);
    OpeningForOnlyIf(s, height, b);
    OpeningMoney(s, height, b);
    UndoParts(s, height, activation, b, before);
    UndoOnRecord(Apply(s, activation, b).0, height, activation, b, before, r);
    UndoMoney(o.money, activation, b);
    UndoStakingPart(s.staking, b);
    UndoTokensExact(s.tokens, b.index, b.txs);
  }

  /** With the record of its payout the reversal of an applied block gives back the whole state
      before it, but for the rewards the payout consumed, if and only if nothing matured in it,
      the supply still covers its reward, and stakes and tokens come back. */
  lemma UndoExactOnRecord(s: State, height: int, activation: int, b: Block, before: seq<Tx>, r: Record)
    requires WellFormed(s, height) && b.index == height + 1 && InScope(s, b) && ListsPayout(s, b.index, r)
    requires s.next == Validation.Bump(map[], before) && Apply(s, activation, b).1 != TxFailed
    ensures Undo(Apply(s, activation, b).0, activation, b, before, r) == ButForRewards(s, b.index) <==>
            RestorableOnRecord(s, b)
  {
    hide Undo, Apply, ListsPayout, RestorableOnRecord, ButForRewards, WellFormed, InScope;
    if RestorableOnRecord(s, b) { RestoredIfOnRecord(s, height, activation, b, before, r); }
    if Undo(Apply(s, activation, b).0, activation, b, before, r) == ButForRewards(s, b.index) {
      RestoredOnlyIfOnRecord(s, height, activation, b, before, r);
    }
  }
}
