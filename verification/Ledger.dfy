/** The whole ledger as a state machine: what `_append_block_inner` of
    qbit_network/core/blockchain.py does to it, what `_rollback_block` of
    qbit_network/core/rollback.py takes back, and the state a chain stands for. */
module Ledger {
  import opened Maps
  import opened Types
  import opened StateTries
  import opened StateRoots
  import opened MoneyLedger
  import opened StakeLedger
  import opened TokenLedger
  import opened NotaryLedger
  import Validation
  import EpochPayout

  /** `next` holds the nonce each sender has to use next; `rewards` the block rewards of the
      running epoch. */
  datatype State = State(money: Money, staking: Staking, tokens: Tokens, notary: Notary,
                         next: map<Addr, int>, rewards: map<Addr, int>, epoch: int)

  // ---- Before the transactions: matured unbondings and the epoch transition ----

  function Waiting(es: seq<Entry>, index: int): seq<Entry> {
    if es == [] then [] else (if es[0].release <= index then [] else [es[0]]) + Waiting(es[1..], index)
  }

  function MatureCredits(bal: map<Addr, int>, es: seq<Entry>, index: int): map<Addr, int>
    decreases |es|
  {
    if es == [] then bal else
    MatureCredits(if es[0].release <= index then Add(bal, es[0].staker, es[0].amount) else bal, es[1..], index)
  }

  /** Some entry leaves the queue exactly when some entry has matured. */
  lemma {:induction false} WaitingStays(bal: map<Addr, int>, es: seq<Entry>, index: int)
    ensures forall e <- Waiting(es, index) :: e in es
    ensures |Waiting(es, index)| <= |es|
    ensures Waiting(es, index) == es <==> forall e <- es :: e.release > index
    ensures Waiting(es, index) == es ==> MatureCredits(bal, es, index) == bal
    decreases |es|
  {
    if es != [] {
      WaitingStays(if es[0].release <= index then Add(bal, es[0].staker, es[0].amount) else bal, es[1..], index);
    }
  }

  function Mature(s: State, index: int): State {
    s.(money := s.money.(bal := MatureCredits(s.money.bal, s.staking.unbonding, index)),
       staking := s.staking.(unbonding := Waiting(s.staking.unbonding, index)))
  }

  predicate AtBoundary(s: State, index: int) { index / EPOCH_LENGTH > s.epoch }

  /** What a payout reads, with the balances of the staked validators frozen. */
  function TermsOf(s: State): EpochPayout.Terms {
    EpochPayout.Terms(s.staking.stakes, s.staking.commission, s.rewards,
                      map v | v in s.money.bal &&
                        v in s.staking.stakes :: if v in s.staking.stakes then s.money.bal[v] else 0)
  }

  /** At an epoch boundary the rewards of the ended epoch are shared out and forgotten. */
  ghost function EpochStep(s: State, index: int): State {
    if !AtBoundary(s, index) then s else
    s.(money := s.money.(bal := EpochPayout.Payout(TermsOf(s), s.money.bal)), rewards := map[],
      epoch := index / EPOCH_LENGTH)
  }

  ghost function Opening(s: State, index: int): State { EpochStep(Mature(s, index), index) }

  // ---- The transactions and the reward ----

  /** One transaction; a failed debit or token check leaves what was done before it. */
  function LedgerTx(s: State, activation: int, b: Block, tx: Tx): (State, bool) {
    var (m, paid) := MoneyTx(s.money, activation, b, tx);
    var s1 := s.(money := m, next := Validation.Bump(s.next, [tx]));
    if !paid then (s1, false) else
    var (t, ok) := TokenTx(s.tokens, b.index, tx);
    (s1.(staking := StakingTx(s.staking, b.index, tx), tokens := t, notary := NotaryTx(s.notary, tx)), ok)
  }

  function LedgerTxs(s: State, activation: int, b: Block, txs: seq<Tx>): (State, bool)
    decreases |txs|
  {
    if txs == [] then (s, true) else
    var (n, ok) := LedgerTx(s, activation, b, txs[0]);
    if ok then LedgerTxs(n, activation, b, txs[1..]) else (n, false)
  }

  function Closing(s: State, b: Block): State {
    s.(money := Reward(s.money, b), rewards := Add(s.rewards, b.validator, BlockReward(b.index, s.money.minted)))
  }

  /** What the state trie is built from. */
  function TablesOf(s: State): Tables {
    Tables(s.money.bal, map a | a in s.next :: Validation.LastOf(s.next, a), s.tokens.bal, MintedTable(s.tokens))
  }

  /** How the application of a block ends: it is applied, some transaction fails halfway
      through, the state after it does not fit the encoding, or it does not have the root the
      block claims. */
  datatype Outcome = Applied | TxFailed | Overflowed | RootMismatch

  ghost function Verdict(s: State, b: Block): Outcome {
    if !Encodable(TablesOf(s)) then Overflowed
    else if b.stateRoot.None? || RootOf(EntriesOf(TablesOf(s))) == b.stateRoot.value then Applied
    else RootMismatch
  }

  ghost function Apply(s: State, activation: int, b: Block): (State, Outcome) {
    var (n, ok) := LedgerTxs(Opening(s, b.index), activation, b, b.txs);
    if ok then (Closing(n, b), Verdict(Closing(n, b), b)) else (n, TxFailed)
  }

  lemma ApplyFails(s: State, activation: int, b: Block)
    ensures var (n, ok) := LedgerTxs(Opening(s, b.index), activation, b, b.txs);
            && (Apply(s, activation, b).1 == TxFailed <==> !ok) && (ok ==> Apply(s, activation, b).0 == Closing(n, b))
  {}

  // ---- Reversal ----

  type Record = (seq<(Addr, int)>, seq<(Addr, int)>)

  function UndoClosing(s: State, b: Block): State {
    s.(money := UndoReward(s.money, b),
       rewards := Put(s.rewards, b.validator,
         Max(0, Get(s.rewards, b.validator) - BlockReward(b.index, s.money.minted))))
  }

  /** The nonces of the senders of a block, read off the transactions that remain. */
  function Rescan(next: map<Addr, int>, remaining: seq<Tx>, txs: seq<Tx>): map<Addr, int>
    decreases |txs|
  {
    if txs == [] then next
    else Rescan(Put(next, txs[0].sender, Validation.NextAfter(0, remaining, txs[0].sender)), remaining, txs[1..])
  }

  /** At a boundary the recorded payout is reversed; the rewards it consumed are not. */
  function UndoEpoch(s: State, index: int, record: Record): State {
    if index % EPOCH_LENGTH != 0 then s else
    s.(money := s.money.(bal := EpochPayout.ApplyMoves(EpochPayout.ApplyMoves(s.money.bal, record.0, -1), record.1, 1)),
       epoch := Max(0, index / EPOCH_LENGTH - 1))
  }

  function UndoTxs(s: State, activation: int, b: Block, remaining: seq<Tx>): State {
    s.(money := UndoMoneyTxs(s.money, activation, b, b.txs),
       staking := UndoStakingTxs(s.staking, b.index, b.txs),
       tokens := UndoTokenTxs(s.tokens, b.txs),
       notary := UndoNotaryTxs(s.notary, b.txs),
       next := Rescan(s.next, remaining, b.txs))
  }

  /** `_rollback_block`, where `remaining` are the transactions left on the chain. */
  function Undo(s: State, activation: int, b: Block, remaining: seq<Tx>, record: Record): State {
    UndoEpoch(UndoTxs(UndoClosing(s, b), activation, b, remaining), b.index, record)
  }

  // ---- One component at a time ----

  /** The transactions act on the components independently, and succeed when both the debits
      and the token checks do. */
  lemma {:induction false} LedgerTxsParts(s: State, activation: int, b: Block, txs: seq<Tx>)
    ensures var (n, ok) := LedgerTxs(s, activation, b, txs);
            && (ok <==> MoneyTxs(s.money, activation, b, txs).1 && TokenTxs(s.tokens, b.index, txs).1)
            && (ok ==> n == State(MoneyTxs(s.money, activation, b, txs).0, StakingTxs(s.staking, b.index, txs),
                                  TokenTxs(s.tokens, b.index, txs).0, NotaryTxs(s.notary, txs),
                                  Validation.Bump(s.next, txs), s.rewards, s.epoch))
    decreases |txs|
  {
    if txs != [] {
      BumpStep(s.next, txs);
      var (n, ok) := LedgerTx(s, activation, b, txs[0]);
      if ok { LedgerTxsParts(n, activation, b, txs[1..]); }
    }
  }

  lemma BumpStep(next: map<Addr, int>, txs: seq<Tx>)
    requires txs != []
    ensures Validation.Bump(next, txs) == Validation.Bump(Validation.Bump(next, [txs[0]]), txs[1..])
  {
    assert [txs[0]][1..] == [];
  }
}
