/** The blockchain object: block application, reversal and reorganisation as the program does
    them, qbit_network/core/blockchain.py and rollback.py. The mixins of the original object
    are component objects here. */
module Blockchains {
  import opened Maps
  import opened Types
  import opened StateTries
  import opened StateRoots
  import opened MoneyLedger
  import opened StakeLedger
  import opened StakingLaws
  import opened TokenLedger
  import opened NotaryLedger
  import opened Ledger
  import opened LedgerLaws
  import opened LedgerUndo
  import opened LedgerChain
  import opened BalanceLedgers
  import opened StakeTables
  import opened TokenTables
  import opened NotaryTables
  import opened TxIndexes
  import opened BlockFacts
  import Validation
  import EpochPayout

  /** `signed` stands for the checks of a single transaction's signature, chain id and key
      status; `links` tells whether a block names another as its predecessor. */
  class Blockchain {
    const net: Network
    const signed: Tx -> bool
    const links: (Block, Block) -> bool
    const ledger: BalanceLedger
    const staking: StakeTable
    const tokens: TokenTable
    const notary: NotaryTable
    const index: TxIndex
    const trie: StateTrie
    var epochRewards: map<Addr, int>
    var currentEpoch: int
    var lastEpochDistributions: map<int, Record>
    var chain: seq<Block>
    var height: int
    var stateSnapshots: map<int, Entries>

    function Abs(): State
      reads this`epochRewards, this`currentEpoch, ledger, staking, tokens, notary, index
    {
      State(ledger.Abs(), staking.Abs(), tokens.Abs(), notary.Abs(), Validation.Expected(index.senderNonce),
        Norm(epochRewards), currentEpoch)
    }

    /** The component tables are in order, in between blocks and within one. */
    ghost predicate Working()
      reads ledger, staking, tokens, notary
    {
      Positive(ledger.balances) && tokens.Valid() && Tidy(staking.Abs()) && NotaryOk(notary.Abs())
    }

    /** The state is the one a chain stands for, the indexes are those of its transactions, the
        trie shows it, every kept snapshot shows the state it was taken of, and no payout is
        on record. */
    ghost predicate Settled(c: seq<Block>)
      reads this`epochRewards, this`currentEpoch, this`lastEpochDistributions, this`height, this`stateSnapshots
      reads ledger, staking, tokens, notary, index, trie
    {
      trie.Valid() && SettledWith(c, trie.entries)
    }

    ghost predicate SettledWith(c: seq<Block>, e: Entries)
      reads this`epochRewards, this`currentEpoch, this`lastEpochDistributions, this`height, this`stateSnapshots
      reads ledger, staking, tokens, notary, index
    {
      && Working() && Grown(net, c) && height == |c| - 1 && Abs() == Replay(net, c)
      && index.Lists(HistoryOf(c)) && lastEpochDistributions == map[]
      && Represents(e, TablesOf(Abs())) && SnapshotsOk(net, c, stateSnapshots)
    }

    /** Between blocks that is the chain the object holds. */
    ghost predicate Valid()
      reads this, ledger, staking, tokens, notary, index, trie
    {
      Settled(chain)
    }

    /** `init_chain` and `activate_financial_layer`. */
    constructor (net: Network, signed: Tx -> bool, links: (Block, Block) -> bool, genesis: Block)
      requires net.genesis != "" && genesis.index == 0
      requires |genesis.txs| == 1 && genesis.txs[0].sender == net.genesis &&
               genesis.txs[0].payload == RegisterValidator(None)
      ensures Valid() && chain == [genesis] && this.net == net
    {
      this.net, this.signed, this.links := net, signed, links;
      ledger := new BalanceLedger();
      staking := new StakeTable();
      tokens := new TokenTable();
      notary := new NotaryTable();
      index := new TxIndex();
      trie := new StateTrie();
      epochRewards, currentEpoch, lastEpochDistributions := map[], 0, map[];
      chain, height, stateSnapshots := [genesis], 0, map[];
      new;
      hide TxIndex.Lists, StateTrie.Valid, Settled, TokenTable.Valid, TokenTable.Abs, NotaryTable.Abs;
      Start(genesis);
    }

    /** From empty tables to the state after genesis. */
    method Start(genesis: Block)
      requires index.Lists([]) && index.senderNonce == map[] && ledger.balances == map[] && ledger.totalMinted == 0
      requires ledger.totalBurned == 0 && tokens.Valid() && tokens.Abs() == Tokens(map[], map[], map[])
      requires notary.Abs() == Notary(map[], map[], map[]) && staking.commission == map[]
      requires staking.unbonding == [] && staking.processedEvidence == {} && epochRewards == map[] && currentEpoch == 0
      requires chain == [genesis] && genesis.index == 0 && |genesis.txs| == 1 && height == 0
      requires lastEpochDistributions == map[]
      modifies this`stateSnapshots, ledger, staking, index, trie
      ensures Valid()
    {
      hide TxIndex.Lists, Place, StateTrie.Valid, Working, Abs, Genesis, Settled;
      hide TokenTable.Valid, TokenTable.Abs, NotaryTable.Abs, StakeTable.Abs;
      AllocateGenesis(genesis);
      GenesisState();
      ShowGenesis();
    }

    lemma GenesisState()
      requires ledger.balances == map[net.genesis := GENESIS_BALANCE] && ledger.totalMinted == GENESIS_BALANCE
      requires ledger.totalBurned == 0 && tokens.Valid() && tokens.Abs() == Tokens(map[], map[], map[])
      requires notary.Abs() == Notary(map[], map[], map[]) && index.senderNonce == map[]
      requires staking.registry == {net.genesis} && staking.stakes == map[net.genesis := map[net.genesis := MIN_STAKE]]
      requires staking.totalStake == map[net.genesis := MIN_STAKE] && staking.commission == map[]
      requires staking.unbonding == [] && staking.processedEvidence == {} && epochRewards == map[] && currentEpoch == 0
      ensures Working() && Abs() == Genesis(net.genesis)
    {
      hide Tidy, NotaryOk, Positive, TokenTable.Valid, TokenTable.Abs, NotaryTable.Abs;
      GenesisTables(net.genesis);
    }

    /** The state of the ledger after the genesis block. */
    method AllocateGenesis(genesis: Block)
      requires index.Lists([]) && index.senderNonce == map[] && ledger.balances == map[] && ledger.totalMinted == 0
      requires |genesis.txs| == 1
      modifies ledger, staking, index
      ensures index.Lists([] + [Placed(0, genesis.txs[0])]) && index.senderNonce == map[]
      ensures ledger.balances == map[net.genesis := GENESIS_BALANCE] && ledger.totalMinted == GENESIS_BALANCE
      ensures ledger.totalBurned == old(ledger.totalBurned)
      ensures staking.registry == {net.genesis} && staking.stakes == map[net.genesis := map[net.genesis := MIN_STAKE]]
      ensures staking.totalStake == map[net.genesis := MIN_STAKE] && staking.commission == old(staking.commission)
      ensures staking.unbonding == old(staking.unbonding) && staking.processedEvidence == old(staking.processedEvidence)
    {
      index.ProcessTx(0, genesis.txs[0], []);
      staking.registry := {net.genesis};
      staking.stakes := map[net.genesis := map[net.genesis := MIN_STAKE]];
      staking.totalStake := map[net.genesis := MIN_STAKE];
      NormOfPositive(ledger.balances);
      ledger.Credit(net.genesis, GENESIS_BALANCE);
      NormOfPositive(ledger.balances);
      ledger.totalMinted := ledger.totalMinted + GENESIS_BALANCE;
    }

    /** The first trie and its snapshot. */
    method ShowGenesis()
      requires Working() && |chain| == 1 && chain[0].index == 0 && |chain[0].txs| == 1 && height == 0 &&
               Abs() == Genesis(net.genesis)
      requires index.Lists([] + [Placed(0, chain[0].txs[0])]) && lastEpochDistributions == map[]
      modifies this`stateSnapshots, trie
      ensures Valid()
    {
      hide Represents, Encodable, SnapshotsOk, Grown, Replay, HistoryOf, StateTrie.Valid, TxIndex.Lists, Working, Abs;
      hide Genesis, SomethingShows;
      GenesisShown(net.genesis);
      PositiveNow();
      var _ := Rebuild();
      stateSnapshots := map[0 := trie.entries];
      GenesisChain(net, chain, trie.entries);
    }

    lemma PositiveNow()
      requires Working()
      ensures Positive(ledger.balances)
    {}

    // ---- The state trie ----

    /** The tables the trie is rebuilt from. */
    function RawTables(): Tables
      reads ledger, index, tokens
    {
      Tables(ledger.balances, index.senderNonce, tokens.balances, MintedTable(tokens.Abs()))
    }

    /** `_rebuild_state_trie`, of balances among which there are neither zeros nor debts. */
    method Rebuild() returns (error: Option<RebuildError>)
      modifies trie
      ensures Positive(ledger.balances) && SomethingShows(Abs()) ==>
                && (error.None? <==> Encodable(TablesOf(Abs())))
                && (error.None? ==> trie.Valid() && Represents(trie.entries, TablesOf(Abs())))
    {
      error := RebuildStateTrie(trie, RawTables());
      if Positive(ledger.balances) && SomethingShows(Abs()) {
        NormOfPositive(ledger.balances);
        RawShown(Abs(), RawTables());
        if error.None? {
          SameShown(trie.entries, RawTables(), TablesOf(Abs()));
          ShownNotEmpty(trie.entries, TablesOf(Abs()));
        }
      }
    }

    // ---- Block application ----

    /** One transaction of a block. */
    method ProcessTx(b: Block, tx: Tx, ghost h: seq<Placed>) returns (ok: bool)
      requires Working() && ValidPayload(tx) && index.Lists(h) && b.index > 0
      modifies ledger, staking, tokens, notary, index
      ensures Working() && (Abs(), ok) == LedgerTx(old(Abs()), net.activation, b, tx)
      ensures index.Lists(h + [Placed(b.index, tx)])
    {
      StakingTxTidy(staking.Abs(), b.index, tx);
      NotaryTxOk(notary.Abs(), tx);
      index.ProcessTx(b.index, tx, h);
      ok := ledger.ProcessTx(net.activation, b, tx);
      if ok {
        notary.ProcessTx(tx);
        staking.ProcessTx(b.index, tx);
        ok := tokens.ProcessTx(b.index, tx);
      }
    }

    /** The transaction loop; k transactions were looked at. */
    method ProcessTxs(b: Block, ghost h: seq<Placed>) returns (ok: bool, ghost k: nat)
      requires Working() && ValidPayloads(b.txs) && index.Lists(h) && b.index > 0
      modifies ledger, staking, tokens, notary, index
      ensures Working() && (Abs(), ok) == LedgerTxs(old(Abs()), net.activation, b, b.txs)
      ensures k <= |b.txs| && (ok ==> k == |b.txs|) && index.Lists(h + Place(b.index, b.txs[..k]))
    {
      k := 0;
      assert h + Place(b.index, b.txs[..0]) == h && b.txs[0..] == b.txs;
      for i := 0 to |b.txs|
        invariant Working() && k == i && index.Lists(h + Place(b.index, b.txs[..i]))
        invariant LedgerTxs(Abs(), net.activation, b, b.txs[i..]) == LedgerTxs(old(Abs()), net.activation, b, b.txs)
      {
        PlaceNext(h, b, i);
        TxsNext(Abs(), net.activation, b, i);
        ok := ProcessTx(b, b.txs[i], h + Place(b.index, b.txs[..i]));
        k := i + 1;
        if !ok { return; }
      }
      ok := true;
    }

    /** `_distribute_epoch_rewards`, with the balances of the validators frozen before it. */
    method DistributeEpochRewards(epoch: int) returns (ghost r: Record)
      requires Positive(ledger.balances) && CanonicalStakes(staking.Abs().stakes) && CommissionsOk(staking.commission)
      requires Positive(Norm(epochRewards))
      modifies this`epochRewards, this`lastEpochDistributions, ledger`balances
      ensures Norm(ledger.balances) == EpochPayout.Payout(TermsOf(old(Abs())), Norm(old(ledger.balances)))
      ensures Norm(ledger.balances) == MovedBy(Norm(old(ledger.balances)), r)
      ensures Positive(ledger.balances) && Norm(epochRewards) == map[]
      ensures lastEpochDistributions == old(lastEpochDistributions)[epoch := r]
      ensures RecordOk(r) && (old(Norm(epochRewards)) == map[] ==> r == NO_RECORD)
    {
      TermsValid(Abs());
      NormOfPositive(ledger.balances);
      var after, credits, debits := EpochPayout.DistributeEpochRewards(TermsOf(Abs()), ledger.balances);
      NormOfPositive(after);
      ledger.balances := after;
      AllZero(epochRewards);
      epochRewards := map v | v in epochRewards :: 0;
      r := (credits, debits);
      lastEpochDistributions := lastEpochDistributions[epoch := (credits, debits)];
    }

    /** `_check_epoch_transition`: at a boundary the rewards of the ended epoch are shared out. */
    method CheckEpochTransition(idx: int) returns (ghost r: Record)
      requires Positive(ledger.balances) && CanonicalStakes(staking.Abs().stakes) && CommissionsOk(staking.commission)
      requires Positive(Norm(epochRewards))
      modifies this`epochRewards, this`currentEpoch, this`lastEpochDistributions, ledger`balances
      ensures Abs() == EpochStep(old(Abs()), idx) && Positive(ledger.balances)
      ensures Norm(ledger.balances) == MovedBy(Norm(old(ledger.balances)), r)
      ensures lastEpochDistributions == if AtBoundary(old(Abs()), idx)
              then old(lastEpochDistributions)[idx / EPOCH_LENGTH - 1 := r]
                                        else old(lastEpochDistributions)
      ensures RecordOk(r) && (old(Norm(epochRewards)) == map[] ==> r == NO_RECORD)
    {
      r := NO_RECORD;
      var newEpoch := idx / EPOCH_LENGTH;
      if newEpoch > currentEpoch {
        r := DistributeEpochRewards(newEpoch - 1);
        currentEpoch := newEpoch;
      }
    }

    method PayReward(b: Block)
      requires Positive(ledger.balances)
      modifies this`epochRewards, ledger
      ensures Abs() == Closing(old(Abs()), b) && Positive(ledger.balances)
    {
      hide Reward, Positive;
      AddAdd(Norm(epochRewards), b.validator, 0, 0);
      NormPut(epochRewards, b.validator, Get(epochRewards, b.validator) + BlockReward(b.index, ledger.totalMinted));
      var reward := ledger.MintReward(b);
      if reward > 0 {
        epochRewards := epochRewards[b.validator := Get(epochRewards, b.validator) + reward];
      }
    }

    /** What happens before the transactions of a block. */
    method OpenBlock(idx: int) returns (ghost r: Record)
      requires Working() && WellFormed(Abs(), idx - 1)
      modifies this`epochRewards, this`currentEpoch, this`lastEpochDistributions, ledger`balances, staking`unbonding
      ensures Working() && Abs() == Opening(old(Abs()), idx)
      ensures lastEpochDistributions == if AtBoundary(old(Abs()), idx)
              then old(lastEpochDistributions)[idx / EPOCH_LENGTH - 1 := r]
                                        else old(lastEpochDistributions)
      ensures RecordOk(r) && (old(Abs()).rewards == map[] ==> r == NO_RECORD) && ListsPayout(old(Abs()), idx, r)
    {
      NormOfPositive(ledger.balances);
      staking.ProcessMatureUnbondings(ledger, idx);
      NormOfPositive(ledger.balances);
      assert Abs() == Mature(old(Abs()), idx);
      r := CheckEpochTransition(idx);
    }

    /** The trie is rebuilt; the block is refused when its state root disagrees. */
    method CheckStateRoot(b: Block) returns (outcome: Outcome)
      requires Positive(ledger.balances) && SomethingShows(Abs())
      modifies trie
      ensures outcome == Verdict(Abs(), b)
      ensures outcome != Overflowed ==> trie.Valid() && Represents(trie.entries, TablesOf(Abs()))
    {
      ghost var s := Abs();
      var error := Rebuild();
      if error.Some? { return Overflowed; }
      var root := trie.RootHash();
      VerdictOf(s, b, trie.entries);
      outcome := if b.stateRoot.Some? && b.stateRoot.value != root then RootMismatch else Applied;
    }

    /** What happens after the transactions. */
    method CloseBlock(b: Block) returns (outcome: Outcome)
      requires Working() && SomethingShows(Closing(Abs(), b))
      modifies this`epochRewards, ledger, trie
      ensures Working() && Abs() == Closing(old(Abs()), b) && outcome == Verdict(Abs(), b)
      ensures outcome != Overflowed ==> trie.Valid() && Represents(trie.entries, TablesOf(Abs()))
    {
      PayReward(b);
      outcome := CheckStateRoot(b);
    }

    /** The snapshot of the new state, and the pruning of what can no longer be rolled back.
        Epoch numbers are compared with a height, so the record of a payout is always dropped
        by the very block that makes it. */
    method KeepAndPrune(idx: int)
      modifies this`stateSnapshots, this`lastEpochDistributions
      ensures stateSnapshots == old(stateSnapshots)[idx := trie.entries] - {idx - MAX_REORG_DEPTH - 1}
      ensures lastEpochDistributions.Keys ==
              set e | e in old(lastEpochDistributions) && (idx <= MAX_REORG_DEPTH || e >= idx - MAX_REORG_DEPTH - 1)
      ensures forall e <- lastEpochDistributions :: lastEpochDistributions[e] == old(lastEpochDistributions)[e]
    {
      var snapshot := trie.Snapshot();
      stateSnapshots := stateSnapshots[idx := snapshot];
      var before := idx - MAX_REORG_DEPTH - 1;
      stateSnapshots := stateSnapshots - {before};
      if before >= 0 {
        lastEpochDistributions := map e | e in lastEpochDistributions && e >= before :: lastEpochDistributions[e];
      }
    }

    /** The end of a block that is applied. */
    method Commit(b: Block, ghost before: seq<Block>, ghost r: Record)
      requires Working() && before != [] && chain == before + [b] && Grown(net, chain) && Abs() == Replay(net, chain)
      requires height == |before| && index.Lists(HistoryOf(chain)) && SnapshotsOk(net, before, stateSnapshots)
      requires trie.Valid() && Represents(trie.entries, TablesOf(Abs()))
      requires lastEpochDistributions == if height % EPOCH_LENGTH == 0 then map[height / EPOCH_LENGTH - 1 := r]
               else map[]
      modifies this`stateSnapshots, this`lastEpochDistributions
      ensures Valid() && stateSnapshots.Keys == old(stateSnapshots).Keys + {height} - {height - MAX_REORG_DEPTH - 1}
    {
      hide Abs, Working, TablesOf, Represents, Grown, Replay, SnapshotsOk, StateTrie.Valid, TxIndex.Lists, HistoryOf;
      SnapshotsExtend(net, before, b, stateSnapshots, trie.entries);
      KeepAndPrune(height);
      assert lastEpochDistributions.Keys == {};
    }

    /** All that a block does to the ledger and the trie. The last two results say how many
        transactions were looked at and what payout was recorded. */
    method ApplyBlock(b: Block, ghost h: seq<Placed>) returns (outcome: Outcome, ghost k: nat, ghost r: Record)
      requires Working() && WellFormed(Abs(), b.index - 1) && ValidPayloads(b.txs) && b.index > 0 && index.Lists(h)
      requires ShownOnceApplied(Abs(), net.activation, b)
      modifies this`epochRewards, this`currentEpoch, this`lastEpochDistributions, ledger, staking, tokens, notary,
        index, trie
      ensures Working() && (Abs(), outcome) == Apply(old(Abs()), net.activation, b)
      ensures k <= |b.txs| && (outcome != TxFailed ==> k == |b.txs|) && index.Lists(h + Place(b.index, b.txs[..k]))
      ensures lastEpochDistributions == if AtBoundary(old(Abs()), b.index)
              then old(lastEpochDistributions)[b.index / EPOCH_LENGTH - 1 := r]
                                        else old(lastEpochDistributions)
      ensures RecordOk(r) && (old(Abs()).rewards == map[] ==> r == NO_RECORD) && ListsPayout(old(Abs()), b.index, r)
      ensures outcome in {Applied, RootMismatch} ==> trie.Valid() && Represents(trie.entries, TablesOf(Abs()))
    {
      hide Abs, Working, WellFormed, Opening, Closing, Verdict, TablesOf, Represents, ValidPayloads, RecordOk;
      hide ListsPayout;
      hide StateTrie.Valid, TxIndex.Lists, Place;
      r := OpenBlock(b.index);
      var ok;
      ok, k := ProcessTxs(b, h);
      if !ok { return TxFailed, k, r; }
      outcome := CloseBlock(b);
    }

    /** `_append_block_inner`: the ledger moves as the specification says, and a block that is
        applied leaves the object in order. */
    method AppendBlockInner(b: Block) returns (outcome: Outcome, ghost k: nat, ghost r: Record)
      requires Valid() && Fits(chain, b)
      modifies this, ledger, staking, tokens, notary, index, trie
      ensures chain == old(chain) + [b] && height == |chain| - 1 && Working()
      ensures (Abs(), outcome) == Apply(old(Abs()), net.activation, b)
      ensures k <= |b.txs| && (outcome != TxFailed ==> k == |b.txs|)
      ensures index.Lists(HistoryOf(old(chain)) + Place(b.index, b.txs[..k]))
      ensures outcome == Applied ==>
                Valid() && stateSnapshots.Keys == old(stateSnapshots).Keys + {b.index} - {b.index - MAX_REORG_DEPTH - 1}
      ensures outcome != Applied ==> stateSnapshots == old(stateSnapshots)
      ensures outcome != Applied ==>
                lastEpochDistributions == if b.index % EPOCH_LENGTH == 0 then map[b.index / EPOCH_LENGTH - 1 := r]
                  else map[]
      ensures RecordOk(r) && (old(Abs()).rewards == map[] ==> r == NO_RECORD) && ListsPayout(old(Abs()), b.index, r)
    {
      hide Abs, Working, Apply, TablesOf, Represents, Grown, Replay, SnapshotsOk, WellFormed, ValidPayloads, RecordOk;
      hide ShownOnceApplied, ListsPayout;
      hide StateTrie.Valid, TxIndex.Lists, Place, HistoryOf;
      Appended(net, chain, b);
      ghost var before := chain;
      chain := chain + [b];
      height := height + 1;
      outcome, k, r := ApplyBlock(b, HistoryOf(before));
      if outcome == Applied {
        assert b.txs[..k] == b.txs;
        Commit(b, before, r);
      }
    }

    // ---- Reversal ----

    /** One transaction leaves the indexes and the tables. */
    method UndoTx(b: Block, i: nat, ghost before: seq<Placed>, ghost k: nat)
      requires tokens.Valid() && Tidy(staking.Abs()) && NotaryOk(notary.Abs())
      requires i < |b.txs| && Reversible(b.txs[i]) && ValidPayload(b.txs[i]) && FreshIds(before, b.txs) && k <= |b.txs|
      requires index.Lists(before + Left(b, i, k))
      modifies staking, tokens, notary, index`txsBySender, index`chainTxIds
      ensures tokens.Valid() && Tidy(staking.Abs()) && NotaryOk(notary.Abs())
      ensures index.Lists(before + Left(b, i + 1, k))
      ensures staking.Abs() == UndoStakingTx(old(staking.Abs()), b.index, b.txs[i])
      ensures tokens.Abs() == UndoTokenTx(old(tokens.Abs()), b.txs[i]) &&
              notary.Abs() == UndoNotaryTx(old(notary.Abs()), b.txs[i])
    {
      var tx := b.txs[i];
      UndoStakingTxGets(staking.Abs(), b.index, tx, "", "");
      UndoNotaryTxOk(notary.Abs(), tx);
      LeftNext(before, b, i, k);
      index.UndoTx(tx, before, Here(b, i, k), Left(b, i + 1, k));
      notary.UndoTx(tx);
      staking.UndoTx(b.index, tx);
      tokens.UndoTx(tx);
    }

    /** The loop over the transactions of a reverted block, k of which had been processed. */
    method UndoTables(b: Block, ghost before: seq<Placed>, ghost k: nat)
      requires tokens.Valid() && Tidy(staking.Abs()) && NotaryOk(notary.Abs())
      requires AllReversible(b.txs) && ValidPayloads(b.txs) && FreshIds(before, b.txs) && k <= |b.txs|
      requires index.Lists(before + Place(b.index, b.txs[..k]))
      modifies staking, tokens, notary, index`txsBySender, index`chainTxIds
      ensures tokens.Valid() && Tidy(staking.Abs()) && NotaryOk(notary.Abs()) && index.Lists(before)
      ensures staking.Abs() == UndoStakingTxs(old(staking.Abs()), b.index, b.txs)
      ensures tokens.Abs() == UndoTokenTxs(old(tokens.Abs()), b.txs) &&
              notary.Abs() == UndoNotaryTxs(old(notary.Abs()), b.txs)
    {
      hide StakeTable.Abs, TokenTable.Abs, NotaryTable.Abs, TokenTable.Valid, TxIndex.Lists, Tidy, NotaryOk, FreshIds;
      hide Left, Place;
      hide UndoStakingTx, UndoTokenTx, UndoNotaryTx;
      LeftEnds(before, b, k);
      for i := 0 to |b.txs|
        invariant tokens.Valid() && Tidy(staking.Abs()) && NotaryOk(notary.Abs()) && index.Lists(before + Left(b, i, k))
        invariant UndoStakingTxs(staking.Abs(), b.index, b.txs[i..])
                  == UndoStakingTxs(old(staking.Abs()), b.index, b.txs)
        invariant UndoTokenTxs(tokens.Abs(), b.txs[i..]) == UndoTokenTxs(old(tokens.Abs()), b.txs)
        invariant UndoNotaryTxs(notary.Abs(), b.txs[i..]) == UndoNotaryTxs(old(notary.Abs()), b.txs)
      {
        assert b.txs[i..][0] == b.txs[i] && b.txs[i..][1..] == b.txs[i + 1..];
        UndoTx(b, i, before, k);
      }
      assert b.txs[|b.txs|..] == [];
    }

    /** The reward of a block, recomputed and taken back. */
    method UndoRewardOf(b: Block) returns (ghost reward: int)
      requires Positive(Norm(epochRewards))
      modifies ledger, this`epochRewards
      ensures ledger.Abs() == UndoReward(old(ledger.Abs()), b) &&
              reward == BlockReward(b.index, old(ledger.totalMinted))
      ensures Norm(epochRewards)
              == Put(Norm(old(epochRewards)), b.validator, Max(0, Get(Norm(old(epochRewards)), b.validator) - reward))
      ensures old(Positive(ledger.balances)) && Get(old(ledger.balances), b.validator) >= reward ==>
              Positive(ledger.balances)
    {
      hide UndoReward, BlockReward, BalanceLedger.Abs;
      PutNothing(Norm(epochRewards), b.validator);
      var r := ledger.TakeBackReward(b);
      reward := r;
      if r > 0 {
        var left := Max(0, Get(epochRewards, b.validator) - r);
        NormPut(epochRewards, b.validator, left);
        epochRewards := epochRewards[b.validator := left];
      }
    }

    /** The financial part of the reversal. From the state the block led to no balance goes
        negative on the way. */
    method UndoMoneyOf(b: Block, ghost m: Money)
      requires ValidPayloads(b.txs) && FeesOk(net.activation, b, b.txs) && Positive(Norm(epochRewards))
      modifies ledger, this`epochRewards
      ensures ledger.Abs() == UndoMoneyTxs(UndoReward(old(ledger.Abs()), b), net.activation, b, b.txs)
      ensures Norm(epochRewards) == UndoClosing(old(Abs()), b).rewards
      ensures old(Positive(ledger.balances) && CameFrom(m, ledger.Abs(), net.activation, b)) ==>
              Positive(ledger.balances)
    {
      hide UndoReward, BlockReward, CameFrom, LedTo, FeesOk, ValidPayloads;
      NormOfPositiveIf(ledger.balances);
      if Positive(ledger.balances) && CameFrom(m, ledger.Abs(), net.activation, b) {
        RewardReturns(m, ledger.Abs(), net.activation, b);
      }
      ghost var reward := UndoRewardOf(b);
      ledger.ReturnTxs(net.activation, b, m);
    }

    /** The epoch part of the reversal. */
    method RevertEpoch(idx: int)
      requires idx > 0 && RecordOk(RecordAt(lastEpochDistributions, idx))
      modifies this`currentEpoch, this`lastEpochDistributions, ledger`balances
      ensures Abs() == UndoEpoch(old(Abs()), idx, RecordAt(old(lastEpochDistributions), idx))
      ensures lastEpochDistributions == if idx % EPOCH_LENGTH == 0
              then old(lastEpochDistributions) - {idx / EPOCH_LENGTH - 1}
                                        else old(lastEpochDistributions)
      ensures RecordAt(old(lastEpochDistributions), idx) == NO_RECORD ==> ledger.balances == old(ledger.balances)
    {
      if idx % EPOCH_LENGTH == 0 {
        var epoch := idx / EPOCH_LENGTH;
        if epoch > 0 {
          var record := RecordAt(lastEpochDistributions, idx);
          lastEpochDistributions := lastEpochDistributions - {epoch - 1};
          ledger.ReverseDistribution(record.0, record.1);
        }
        currentEpoch := Max(0, epoch - 1);
      }
    }

    /** The trie goes back to the snapshot of the block below, or is rebuilt without one. */
    method RevertTrie(idx: int)
      modifies this`stateSnapshots, trie
      ensures stateSnapshots == old(stateSnapshots) - {idx}
      ensures idx - 1 in old(stateSnapshots) && idx - 1 >= 0 ==>
              trie.Valid() && trie.entries == old(stateSnapshots)[idx - 1]
      ensures !(idx - 1 in old(stateSnapshots) && idx - 1 >= 0) && Positive(ledger.balances) &&
              SomethingShows(Abs()) && Encodable(TablesOf(Abs())) ==>
                trie.Valid() && Represents(trie.entries, TablesOf(Abs()))
    {
      hide Abs, TablesOf, Represents, Encodable, SomethingShows;
      stateSnapshots := stateSnapshots - {idx};
      if idx - 1 >= 0 && idx - 1 in stateSnapshots {
        trie.Restore(stateSnapshots[idx - 1]);
      } else {
        var _ := Rebuild();
      }
    }

    /** A state that a block led to, without zero entries and without a recorded payout. */
    ghost predicate CleanRun(m: Money, b: Block)
      reads ledger, this`lastEpochDistributions
    {
      && Positive(ledger.balances) && CameFrom(m, ledger.Abs(), net.activation, b)
      && RecordAt(lastEpochDistributions, b.index) == NO_RECORD
    }

    /** The part of the reversal that concerns the ledger. */
    method RollbackLedger(b: Block, ghost before: seq<Placed>, ghost k: nat, ghost m: Money)
      requires tokens.Valid() && Tidy(staking.Abs()) && NotaryOk(notary.Abs()) && Positive(Norm(epochRewards))
      requires AllReversible(b.txs) && ValidPayloads(b.txs) && FeesOk(net.activation, b, b.txs) &&
               FreshIds(before, b.txs)
      requires b.index > 0 && k <= |b.txs| && index.Lists(before + Place(b.index, b.txs[..k]))
      requires RecordOk(RecordAt(lastEpochDistributions, b.index))
      modifies this`epochRewards, this`currentEpoch, this`lastEpochDistributions, ledger, staking, tokens, notary, index
      ensures Abs() == Undo(old(Abs()), net.activation, b, UsersOf(before),
              RecordAt(old(lastEpochDistributions), b.index))
      ensures tokens.Valid() && Tidy(staking.Abs()) && NotaryOk(notary.Abs()) && index.Lists(before)
      ensures lastEpochDistributions == if b.index % EPOCH_LENGTH == 0
              then old(lastEpochDistributions) - {b.index / EPOCH_LENGTH - 1}
                                        else old(lastEpochDistributions)
      ensures old(CleanRun(m, b)) ==> Positive(ledger.balances)
    {
      hide CameFrom, FeesOk, FreshIds, ValidPayloads, AllReversible, RecordOk, RecordAt, TokenTable.Valid, Tidy;
      hide NotaryOk, Place;
      hide TxIndex.Lists, UndoReward, BalanceLedger.Abs, StakeTable.Abs, TokenTable.Abs, NotaryTable.Abs;
      UndoMoneyOf(b, m);
      UndoTables(b, before, k);
      index.RecomputeNonces(b.txs, before);
      RevertEpoch(b.index);
    }

    /** `_rollback_block`. The ledger goes back as the specification says, whatever state it
        was in; from the state the block led to, no balance goes negative on the way. */
    method RollbackBlock(b: Block, ghost before: seq<Placed>, ghost k: nat, ghost m: Money)
      requires tokens.Valid() && Tidy(staking.Abs()) && NotaryOk(notary.Abs()) && Positive(Norm(epochRewards))
      requires AllReversible(b.txs) && ValidPayloads(b.txs) && FeesOk(net.activation, b, b.txs) &&
               FreshIds(before, b.txs)
      requires b.index > 0 && k <= |b.txs| && index.Lists(before + Place(b.index, b.txs[..k]))
      requires RecordOk(RecordAt(lastEpochDistributions, b.index))
      modifies this, ledger, staking, tokens, notary, index, trie
      ensures Abs() == Undo(old(Abs()), net.activation, b, UsersOf(before),
              RecordAt(old(lastEpochDistributions), b.index))
      ensures tokens.Valid() && Tidy(staking.Abs()) && NotaryOk(notary.Abs()) && index.Lists(before)
      ensures chain == old(chain) && height == old(height) - 1 && stateSnapshots == old(stateSnapshots) - {b.index}
      ensures lastEpochDistributions == if b.index % EPOCH_LENGTH == 0
              then old(lastEpochDistributions) - {b.index / EPOCH_LENGTH - 1}
                                        else old(lastEpochDistributions)
      ensures old(CleanRun(m, b)) ==> Positive(ledger.balances)
      ensures b.index - 1 in old(stateSnapshots) ==> trie.Valid() && trie.entries == old(stateSnapshots)[b.index - 1]
      ensures b.index - 1 !in old(stateSnapshots) && Positive(ledger.balances) && SomethingShows(Abs()) &&
              Encodable(TablesOf(Abs())) ==>
                trie.Valid() && Represents(trie.entries, TablesOf(Abs()))
    {
      hide CleanRun, FeesOk, FreshIds, ValidPayloads, AllReversible, RecordOk, RecordAt, TokenTable.Valid, Tidy;
      hide NotaryOk, Place, Undo;
      hide TxIndex.Lists, StateTrie.Valid, Represents, Encodable, TablesOf, SomethingShows, Abs, StakeTable.Abs;
      hide NotaryTable.Abs;
      RollbackLedger(b, before, k, m);
      RevertTrie(b.index);
      height := height - 1;
    }

    /** A block was applied to a chain, where it can be undone. */
    ghost predicate AppliedTo(before: seq<Block>, b: Block)
      reads this`epochRewards, this`currentEpoch, this`lastEpochDistributions, this`height, this`stateSnapshots
      reads ledger, staking, tokens, notary, index
    {
      && Working() && before != [] && Grown(net, before) && Fits(before, b) && Undoable(net, before, b) &&
         height == |before|
      && Apply(Replay(net, before), net.activation, b).1 != TxFailed &&
         Abs() == Apply(Replay(net, before), net.activation, b).0
      && index.Lists(HistoryOf(before) + Place(b.index, b.txs)) && SnapshotsOk(net, before, stateSnapshots - {|before|})
      && RecordAt(lastEpochDistributions, b.index) == NO_RECORD
      && (lastEpochDistributions != map[] ==>
           b.index % EPOCH_LENGTH == 0 && lastEpochDistributions.Keys == {b.index / EPOCH_LENGTH - 1})
    }

    /** The reversal of the last block. When it can be undone, the object is in order for the
        shorter chain. */
    method RevertLast(b: Block, ghost before: seq<Block>, ghost k: nat, ghost scope: bool)
      requires scope ==> AppliedTo(before, b) && k == |b.txs|
      requires tokens.Valid() && Tidy(staking.Abs()) && NotaryOk(notary.Abs()) && Positive(Norm(epochRewards))
      requires AllReversible(b.txs) && ValidPayloads(b.txs) && FeesOk(net.activation, b, b.txs) &&
               FreshIds(HistoryOf(before), b.txs)
      requires b.index > 0 && k <= |b.txs| && index.Lists(HistoryOf(before) + Place(b.index, b.txs[..k]))
      requires RecordOk(RecordAt(lastEpochDistributions, b.index))
      modifies this, ledger, staking, tokens, notary, index, trie
      ensures chain == old(chain) && height == old(height) - 1 && (scope ==> Settled(before))
      ensures stateSnapshots == old(stateSnapshots) - {b.index}
      ensures tokens.Valid() && Tidy(staking.Abs()) && NotaryOk(notary.Abs()) && index.Lists(HistoryOf(before))
      ensures b.index - 1 in stateSnapshots ==> trie.Valid() && trie.entries == stateSnapshots[b.index - 1]
      ensures old(lastEpochDistributions) == map[] ==> lastEpochDistributions == map[]
      ensures Abs() == Undo(old(Abs()), net.activation, b, UsersOf(HistoryOf(before)),
              RecordAt(old(lastEpochDistributions), b.index))
    {
      hide Undo, Apply, CameFrom, FeesOk, FreshIds, Undoable, Grown, Replay, Represents, TablesOf, Encodable;
      hide SomethingShows, SnapshotsOk;
      hide StateTrie.Valid, TxIndex.Lists, TokenTable.Valid, HistoryOf, Place, Tidy, NotaryOk, WellFormed;
      hide AllReversible, RecordOk, ValidPayloads;
      ghost var m := ledger.Abs();
      ghost var kept := stateSnapshots - {|before|};
      if scope {
        UndoneExactly(net, before, b);
        ChainShows(net, before);
        m := Opening(Replay(net, before), b.index).money;
      }
      RollbackBlock(b, HistoryOf(before), k, m);
      if scope && |before| - 1 in kept { LastSnapshot(net, before, kept); }
    }

    lemma RefusedRecord(before: seq<Block>, b: Block, r: Record)
      requires Grown(net, before) && Fits(before, b) && ListsPayout(Replay(net, before), b.index, r)
      ensures var records := if b.index % EPOCH_LENGTH == 0 then map[b.index / EPOCH_LENGTH - 1 := r] else map[];
              ListsPayout(Replay(net, before), b.index, RecordAt(records, b.index))
    {
      hide Replay, ListsPayout, RecordAt;
      GrownOk(net, before);
      RecordedAt(Replay(net, before), |before| - 1, b, r);
    }

    /** What the wrapper does with a block that was refused. */
    method RollbackRefused(b: Block, ghost before: seq<Block>, ghost k: nat, ghost r: Record, ghost outcome: Outcome)
      requires Grown(net, before) && Fits(before, b) && FeesOk(net.activation, b, b.txs) && AllReversible(b.txs)
      requires Working() && chain == before + [b] && height == |before| && outcome in {TxFailed, RootMismatch}
      requires (Abs(), outcome) == Apply(Replay(net, before), net.activation, b)
      requires k <= |b.txs| && (outcome != TxFailed ==> k == |b.txs|)
      requires index.Lists(HistoryOf(before) + Place(b.index, b.txs[..k])) && SnapshotsOk(net, before, stateSnapshots)
      requires lastEpochDistributions == if b.index % EPOCH_LENGTH == 0 then map[b.index / EPOCH_LENGTH - 1 := r]
               else map[]
      requires RecordOk(r) && (Replay(net, before).rewards == map[] ==> r == NO_RECORD)
      requires ListsPayout(Replay(net, before), b.index, r)
      modifies this, ledger, staking, tokens, notary, index, trie
      ensures chain == before && height == |before| - 1
      ensures outcome == RootMismatch && Undoable(net, before, b) ==> Valid()
      ensures TakenBack(net, Replay(net, before), Abs(), b, UsersOf(HistoryOf(before))) && Scanned()
      ensures outcome == TxFailed ==>
                var minted := Replay(net, before).money.minted;
                ledger.totalMinted == minted - BlockReward(b.index, minted)
    {
      hide Apply, Undo, FeesOk, FreshIds, Undoable, Grown, Replay, Represents, TablesOf, Encodable, SnapshotsOk;
      hide WellFormed, ListsPayout;
      hide StateTrie.Valid, TxIndex.Lists, TokenTable.Valid, HistoryOf, Place, RecordOk, AllReversible, BlockReward;
      hide Settled, SettledWith, StakeTable.Abs, TokenTable.Abs, NotaryTable.Abs, Tidy, NotaryOk, ValidPayloads;
      FitsFresh(before, b);
      SplitBack(before, b);
      StillReversible(net, before, b);
      RefusedKeepsScan(net, before, b);
      assert k == |b.txs| ==> b.txs[..k] == b.txs;
      NoSnapshotYet(net, before, stateSnapshots);
      ghost var record := RecordAt(lastEpochDistributions, b.index);
      RefusedRecord(before, b, r);
      RevertLast(b, before, k, outcome == RootMismatch && Undoable(net, before, b));
      assert TakenBackWith(net, Replay(net, before), Abs(), b, UsersOf(HistoryOf(before)), record);
      chain := chain[..|chain| - 1];
    }

    /** `_append_block` with the wrapper that rolls a refused block back. A block refused for its
        state root leaves no trace when it can be undone; whatever it paid out at an epoch
        boundary is paid back, every balance included, and only the rewards it shared out stay
        forgotten. One refused because a transaction
        fails is rolled back as a whole from where it stopped, and the minted counter loses a reward that was never
        minted, so that it is restored exactly when the reward is zero. Applied or refused, the
        recorded nonces are those of a scan of the chain. */
    method AppendBlock(b: Block) returns (outcome: Outcome)
      requires Valid() && Fits(chain, b) && FeesOk(net.activation, b, b.txs)
      requires AllReversible(b.txs) || Apply(Abs(), net.activation, b).1 == Applied
      modifies this, ledger, staking, tokens, notary, index, trie
      ensures outcome == Apply(old(Abs()), net.activation, b).1
      ensures outcome == Applied ==> Valid() && chain == old(chain) + [b]
      ensures outcome == Applied ==>
                stateSnapshots.Keys == old(stateSnapshots).Keys + {b.index} - {b.index - MAX_REORG_DEPTH - 1}
      ensures outcome in {TxFailed, RootMismatch} ==> chain == old(chain) && height == old(height)
      ensures outcome in {TxFailed, RootMismatch} ==>
              TakenBack(net, old(Abs()), Abs(), b, UsersOf(HistoryOf(old(chain))))
      ensures outcome != Overflowed ==>
                forall s :: Validation.LastNonce(index.senderNonce, s) + 1 == Validation.ScanNext(chain, s)
      ensures outcome == RootMismatch && Undoable(net, old(chain), b) ==> Valid()
      ensures outcome == RootMismatch ==>
                (Abs() == ButForRewards(old(Abs()), b.index) <==> RestorableOnRecord(old(Abs()), b))
      ensures outcome == RootMismatch && Returns(old(Abs()), b) ==>
                && Norm(ledger.balances) == Norm(old(ledger.balances))
                && ledger.totalMinted == old(ledger.totalMinted) && ledger.totalBurned == old(ledger.totalBurned)
                && staking.Abs() == old(staking.Abs())
      ensures outcome == TxFailed ==>
              ledger.totalMinted == old(ledger.totalMinted) - BlockReward(b.index, old(ledger.totalMinted))
      ensures outcome == TxFailed ==>
                (ledger.totalMinted == old(ledger.totalMinted) <==> BlockReward(b.index, old(ledger.totalMinted)) == 0)
    {
      hide Apply, FeesOk, Undoable, Grown, Fits, Replay, Represents, TablesOf, SnapshotsOk, Working, BlockReward;
      hide AllReversible;
      hide StateTrie.Valid, TxIndex.Lists, HistoryOf, Place, RecordOk;
      hide TakenBack;
      ghost var before := chain;
      ghost var k, r;
      outcome, k, r := AppendBlockInner(b);
      if outcome == TxFailed || outcome == RootMismatch { RollbackRefused(b, before, k, r, outcome); }
      if outcome == RootMismatch { RefusedRestored(net, before, Abs(), b); }
      if outcome == Applied { ValidReverting(); }
      if outcome != Overflowed { NoncesScanned(); }
    }

    // ---- Rolling back to a height ----

    /** Balances, stakes, unbonding entries and burned coins less what was minted. */
    method SupplyInvariant() returns (x: int)
      ensures x == Accounted(Abs())
    {
      SumNorm(ledger.balances);
      SumNorm(staking.totalStake);
      var balances := EpochPayout.SumStakes(ledger.balances);
      var stakes := EpochPayout.SumStakes(staking.totalStake);
      var unbonding := 0;
      for i := 0 to |staking.unbonding|
        invariant unbonding == UnbondingSum(staking.unbonding[..i])
      {
        assert staking.unbonding[..i + 1] == staking.unbonding[..i] + [staking.unbonding[i]];
        UnbondingSumAppend(staking.unbonding[..i], [staking.unbonding[i]]);
        OneEntry(staking.unbonding[i]);
        unbonding := unbonding + staking.unbonding[i].amount;
      }
      assert staking.unbonding[..|staking.unbonding|] == staking.unbonding;
      x := balances + stakes + ledger.totalBurned + unbonding - ledger.totalMinted;
    }

    /** What holds between two blocks of a rollback, whatever the reversals made of the state. */
    ghost predicate Reverting()
      reads this, ledger, staking, tokens, notary, index
    {
      && Grown(net, chain) && height == |chain| - 1 && index.Lists(HistoryOf(chain)) && lastEpochDistributions == map[]
      && tokens.Valid() && Tidy(staking.Abs()) && NotaryOk(notary.Abs()) && Positive(Norm(epochRewards))
      && Scanned()
    }

    /** The nonce table is the one a scan of the chain gives. */
    ghost predicate Scanned()
      reads this`chain, index`senderNonce
    {
      Validation.Expected(index.senderNonce) == Validation.Bump(map[], Validation.UserTxs(chain))
    }

    /** The trie is the snapshot taken after the last block, if there is one. */
    ghost predicate TrieIsSnapshot()
      reads this`chain, this`stateSnapshots, trie
    {
      |chain| - 1 in stateSnapshots ==> trie.Valid() && trie.entries == stateSnapshots[|chain| - 1]
    }

    lemma ValidReverting()
      requires Valid()
      ensures Reverting() && TrieIsSnapshot()
    {
      hide Represents, TablesOf, Encodable, HistoryOf, SnapshotsOk, TxIndex.Lists, StateTrie.Valid, Replay, Grown;
      GrownOk(net, chain);
      if |chain| - 1 in stateSnapshots {
        LastSnapshot(net, chain, stateSnapshots);
        OneRepresentation(trie.entries, stateSnapshots[|chain| - 1], TablesOf(Abs()));
      }
    }

    /** What that means for each sender. */
    lemma NoncesScanned()
      requires Scanned() || Reverting()
      ensures forall s :: Validation.LastNonce(index.senderNonce, s) + 1 == Validation.ScanNext(chain, s)
    {
      forall s ensures Validation.LastNonce(index.senderNonce, s) + 1 == Validation.ScanNext(chain, s) {
        Validation.BumpGets(map[], Validation.UserTxs(chain), s);
      }
    }

    lemma LastAppliedTo(before: seq<Block>, b: Block)
      requires Valid() && |chain| > 1 && before == chain[..|chain| - 1] && b == chain[|chain| - 1] &&
               Undoable(net, before, b)
      ensures AppliedTo(before, b)
    {
      hide Apply, Replay, Undoable, Working, FeesOk, FreshIds, Place, HistoryOf, TxIndex.Lists, SnapshotsOk, Represents;
      hide TablesOf, StateTrie.Valid;
      LastApplied(net, chain);
      SnapshotsDrop(net, before, b, stateSnapshots);
    }

    lemma RevertingFacts()
      requires Reverting()
      ensures Grown(net, chain) && height == |chain| - 1 && index.Lists(HistoryOf(chain)) &&
              lastEpochDistributions == map[]
      ensures tokens.Valid() && Tidy(staking.Abs()) && NotaryOk(notary.Abs())
      ensures Positive(Norm(epochRewards)) && Abs().rewards == Norm(epochRewards)
      ensures Abs().next == Validation.Bump(map[], Validation.UserTxs(chain))
    {}

    lemma SnapshotAgain(b: Block)
      requires b.index == |chain|
      requires b.index - 1 in stateSnapshots ==> trie.Valid() && trie.entries == stateSnapshots[b.index - 1]
      ensures TrieIsSnapshot()
    {}

    lemma RevertingAgain()
      requires Grown(net, chain) && height == |chain| - 1 && index.Lists(HistoryOf(chain)) &&
               lastEpochDistributions == map[]
      requires tokens.Valid() && Tidy(staking.Abs()) && NotaryOk(notary.Abs()) && Positive(Abs().rewards)
      requires Abs().next == Validation.Bump(map[], Validation.UserTxs(chain))
      ensures Reverting()
    {}

    /** One block is popped and rolled back, from any state. When it can be undone from the state
        it led to, the object is in order for the shorter chain. */
    method PopBlock() returns (b: Block)
      requires Reverting() && |chain| > 1 && AllReversible(chain[|chain| - 1].txs)
      modifies this, ledger, staking, tokens, notary, index, trie
      ensures Reverting() && chain == old(chain)[..|old(chain)| - 1] && b == old(chain)[|old(chain)| - 1]
      ensures TrieIsSnapshot() && stateSnapshots == old(stateSnapshots) - {b.index}
      ensures Abs() == Undo(old(Abs()), net.activation, b, UsersOf(HistoryOf(chain)), NO_RECORD)
      ensures old(Valid()) && Undoable(net, chain, b) ==> Valid()
    {
      hide Undo, Apply, Fits, Replay, FeesOk, FreshIds, Undoable, AllReversible, RecordOk, RecordAt, AppliedTo, Settled;
      hide Grown, ValidPayloads;
      hide Reverting;
      hide StateTrie.Valid, TokenTable.Valid, TxIndex.Lists, HistoryOf, Place, Tidy, NotaryOk, Abs, StakeTable.Abs;
      hide NotaryTable.Abs, Positive, TrieIsSnapshot;
      ghost var before := chain[..|chain| - 1];
      b := chain[|chain| - 1];
      RevertingFacts();
      LastApplied(net, chain);
      NoRecordOk(b);
      UndoKeepsRewards(Abs(), net.activation, b, UsersOf(HistoryOf(before)), NO_RECORD);
      UndoKeepsScan(net, Abs(), before, b, NO_RECORD);
      ghost var scope := Valid() && Undoable(net, before, b);
      if scope { LastAppliedTo(before, b); }
      chain := chain[..|chain| - 1];
      RevertLast(b, before, |b.txs|, scope);
      RevertingAgain();
      SnapshotAgain(b);
    }

    /** The loop of `_rollback_to`. */
    method PopBlocks(target: nat) returns (displaced: seq<Tx>)
      requires Valid() && 0 < target <= |chain| && ReversibleFrom(chain, target)
      modifies this, ledger, staking, tokens, notary, index, trie
      ensures chain == old(chain)[..target] && displaced == Displaced(old(chain), target)
      ensures Abs() == UndoBlocks(net, old(Abs()), old(chain), target)
      ensures Reverting() && TrieIsSnapshot()
      ensures UndoableFrom(net, old(chain), target) ==> Valid()
    {
      hide Undo, Undoable, UndoableFrom, Settled, Abs, Reverting, AllReversible, Displaced, HistoryOf, UsersOf, Grown;
      hide Accounted;
      ValidReverting();
      displaced := [];
      ghost var scope := UndoableFrom(net, chain, target);
      while |chain| > target
        invariant Reverting() && TrieIsSnapshot() && target <= |chain| && chain <= old(chain)
        invariant displaced + Displaced(chain, target) == Displaced(old(chain), target)
        invariant UndoBlocks(net, Abs(), chain, target) == UndoBlocks(net, old(Abs()), old(chain), target)
        invariant scope ==> Valid() && UndoableFrom(net, chain, target)
        decreases |chain|
      {
        if scope { UndoableLast(net, chain, target); }
        DisplacedStep(chain, target, displaced);
        var b := PopBlock();
        displaced := displaced + b.txs;
      }
      NothingDisplaced(chain, target, displaced);
    }

    /** `_rollback_to`: the reversals of the blocks, the tip first, and the two checks after them.
        Whatever the reversals made of the rest, the nonces are those of a scan of the shorter
        chain, and the trie is the snapshot of its last block.
        When every popped block can be undone neither check fails, and the object is in order
        for the shorter chain. */
    method RollbackTo(target: nat) returns (ok: bool, displaced: seq<Tx>)
      requires Valid() && 0 < target <= |chain| && ReversibleFrom(chain, target)
      modifies this, ledger, staking, tokens, notary, index, trie
      ensures chain == old(chain)[..target] && displaced == Displaced(old(chain), target)
      ensures Abs() == UndoBlocks(net, old(Abs()), old(chain), target)
      ensures ok <==> (forall a :: Get(Abs().money.bal, a) >= 0) && Accounted(Abs()) == Accounted(old(Abs()))
      ensures forall s :: Validation.LastNonce(index.senderNonce, s) + 1 == Validation.ScanNext(chain, s)
      ensures Reverting() && TrieIsSnapshot()
      ensures UndoableFrom(net, old(chain), target) ==> ok && Valid()
    {
      hide UndoableFrom, Settled, Accounted, Abs, UndoBlocks, ReversibleFrom, Displaced, TrieIsSnapshot, Reverting;
      ValidFacts();
      var before := SupplyInvariant();
      displaced := PopBlocks(target);
      var after := SupplyInvariant();
      var debts := exists a | a in ledger.balances :: ledger.balances[a] < 0;
      DebtsShown();
      ok := !debts && after == before;
      NoncesScanned();
      if UndoableFrom(net, old(chain), target) { ChecksPass(old(chain), target, before); }
    }

    lemma DebtsShown()
      ensures (exists a | a in ledger.balances :: ledger.balances[a] < 0) <==>
              !(forall a :: Get(Abs().money.bal, a) >= 0)
    {
      var bal := Abs().money.bal;
      if a :| a in ledger.balances && ledger.balances[a] < 0 { assert Get(bal, a) == Get(ledger.balances, a); }
      if a :| Get(bal, a) < 0 { assert a in ledger.balances && ledger.balances[a] == Get(bal, a); }
    }

    lemma ChecksPass(whole: seq<Block>, target: nat, before: int)
      requires Valid() && Grown(net, whole) && UndoableFrom(net, whole, target) && 0 < target <= |whole| &&
               chain == whole[..target]
      requires before == Accounted(Replay(net, whole))
      ensures Accounted(Abs()) == before && forall a :: Get(Abs().money.bal, a) >= 0
    {
      hide Accounted, UndoableFrom;
      UndoableConservesFrom(net, whole, target);
    }

    lemma ValidFacts()
      requires Valid()
      ensures Abs() == Replay(net, chain) && Grown(net, chain) && height == |chain| - 1
      ensures ledger.balances == Abs().money.bal
    {
      NormOfPositive(ledger.balances);
    }

    // ---- Reorganisation ----

    /** `validate_block` against the chain the object holds. */
    method ValidateBlock(b: Block) returns (ok: bool)
      requires Valid()
      ensures chain != [] && (ok <==> BlockAccepted(net, signed, links, chain, b))
    {
      hide Validation.BodyOk, Working, Represents, TablesOf, Encodable, SnapshotsOk, WellFormed, NotaryWithin;
      hide StateTrie.Valid, HistoryOf;
      GrownOk(net, chain);
      HistoryIds(chain);
      var parent := chain[|chain| - 1];
      var error := Validation.ValidateBody(b, parent, net.activation, index.senderNonce, index.chainTxIds, signed);
      ok := b.headerOk && b.index == height + 1 && links(parent, b) && error.None?;
    }

    /** One block of a fork: it is validated and applied, or refused. */
    method ApplyForkBlock(b: Block) returns (ok: bool)
      requires Valid()
      requires chain != [] && b.stateRoot.Some? && BlockAccepted(net, signed, links, chain, b) ==>
                 var outcome := Apply(Replay(net, chain), net.activation, b).1;
                 && TokenIdsDerived(b.txs) && outcome in {Applied, RootMismatch}
                 && (outcome == RootMismatch ==> Undoable(net, chain, b))
      modifies this, ledger, staking, tokens, notary, index, trie
      ensures Valid() && old(chain) != [] && chain == if ok then old(chain) + [b] else old(chain)
      ensures ok <==> b.stateRoot.Some? && BlockAccepted(net, signed, links, old(chain), b)
                      && Apply(Replay(net, old(chain)), net.activation, b).1 == Applied
    {
      hide BlockAccepted, Fits, Apply, Undoable, Replay, TokenIdsDerived, FeesOk, Settled, AllReversible, Abs;
      ValidFacts();
      if b.index > 0 && b.stateRoot.None? { return false; }
      var valid := ValidateBlock(b);
      if !valid { return false; }
      AcceptedIndex(net, signed, links, chain, b);
      AcceptedFits(net, signed, links, chain, b);
      ScopeOf(net, chain, b);
      var outcome := AppendBlock(b);
      ok := outcome == Applied;
    }

    /** The loop of `try_reorg` over the fork: blocks are validated and applied until one is
        refused; n of them were applied. */
    method ApplyFork(fork: seq<Block>) returns (ok: bool, n: nat)
      requires Valid() && chain != []
      requires ForkInScope(net, signed, links, chain, fork, !ForkAccepted(net, signed, links, chain, fork))
      modifies this, ledger, staking, tokens, notary, index, trie
      ensures Valid() && n <= |fork| && chain == old(chain) + fork[..n]
      ensures ok <==> ForkAccepted(net, signed, links, old(chain), fork)
      ensures ok ==> n == |fork|
      ensures !ok ==> UndoableFrom(net, chain, |old(chain)|)
    {
      hide BlockAccepted, Fits, Apply, Undoable, UndoableFrom, Replay, TokenIdsDerived, Settled;
      ghost var undo := !ForkAccepted(net, signed, links, chain, fork);
      NoneAbove(net, chain);
      assert fork[0..] == fork && chain == chain + fork[..0];
      n := 0;
      while n < |fork|
        invariant n <= |fork| && Valid() && chain != [] && chain == old(chain) + fork[..n]
        invariant ForkInScope(net, signed, links, chain, fork[n..], undo)
        invariant undo <==> !ForkAccepted(net, signed, links, chain, fork[n..])
        invariant undo ==> UndoableFrom(net, chain, |old(chain)|)
      {
        ghost var before := chain;
        ForkNext(old(chain), fork, n);
        ok := ApplyForkBlock(fork[n]);
        if !ok { return; }
        if undo { UndoableMore(net, before, fork[n], |old(chain)|); }
        n := n + 1;
      }
      ok := true;
    }

    /** The displaced blocks are applied again. */
    method RestoreChain(saved: seq<Block>)
      requires Valid() && chain != [] && Grown(net, chain + saved)
      modifies this, ledger, staking, tokens, notary, index, trie
      ensures Valid() && chain == old(chain) + saved
    {
      hide Fits, Apply, Grown, Replay, FeesOk, Settled, Abs;
      assert chain + saved[..0] == chain;
      for i := 0 to |saved|
        invariant Valid() && chain == old(chain) + saved[..i]
      {
        NextSaved(net, old(chain), saved, i);
        ValidFacts();
        var outcome := AppendBlock(saved[i]);
        assert outcome == Applied;
      }
      assert saved[..|saved|] == saved;
    }

    /** The root of a snapshot against the root of the trie. */
    method RootsAgree(snapshot: Entries) returns (agree: bool)
      requires trie.Valid()
      modifies trie
      ensures trie.Valid() && trie.entries == old(trie.entries)
      ensures agree <==> RootOf(snapshot) == RootOf(trie.entries)
    {
      hide RootOf;
      var expected := new StateTrie();
      expected.Restore(snapshot);
      var expectedRoot := expected.RootHash();
      var root := trie.RootHash();
      agree := root == expectedRoot;
    }

    /** The check `try_reorg` makes after rolling back, of the trie against the snapshot of the
        common ancestor. `RollbackTo` leaves the trie equal to that snapshot whatever has become
        of the ledger, so the check cannot fail, and the branch behind it, which restores a deep
        copy of the tables, is never taken. */
    method AncestorRootMatches() returns (matches: bool)
      requires TrieIsSnapshot() && height == |chain| - 1
      modifies trie
      ensures matches && TrieIsSnapshot()
      ensures old(Valid()) ==> Valid()
    {
      hide SettledWith, StateTrie.Valid, RootOf;
      matches := true;
      if height in stateSnapshots {
        matches := RootsAgree(stateSnapshots[height]);
      }
    }

    /** The part of `try_reorg` that touches the chain. */
    method Reorganise(fork: seq<Block>, start: nat) returns (ok: bool)
      requires Valid() && 0 < start <= |chain| && UndoableFrom(net, chain, start)
      requires ForkInScope(net, signed, links, chain[..start], fork,
                           !ForkAccepted(net, signed, links, chain[..start], fork))
      modifies this, ledger, staking, tokens, notary, index, trie
      ensures Valid() && (ok <==> ForkAccepted(net, signed, links, old(chain)[..start], fork))
      ensures chain == if ok then old(chain)[..start] + fork else old(chain)
    {
      hide Fits, Apply, Undoable, UndoableFrom, ReversibleFrom, UndoBlocks, Displaced, Accounted, Replay, Settled;
      hide ForkInScope, ForkAccepted, Abs;
      ghost var before := chain;
      ValidFacts();
      var saved := chain[start..];
      Rejoined(net, chain, start);
      UndoableReverses(net, chain, start);
      var _, _ := RollbackTo(start);
      var matches := AncestorRootMatches();
      assert matches;
      var n;
      ok, n := ApplyFork(fork);
      JoinedPrefix(before[..start], fork, n);
      if !ok {
        UndoableReverses(net, chain, start);
        if n > 0 { var _, _ := RollbackTo(start); }
        RestoreChain(saved);
      }
    }

    /** `try_reorg`. It succeeds exactly when the fork is connected, not too deep, makes the chain
        longer, and is accepted block by block; the object then holds the ancestor and
        the fork, and the state that chain stands for. Otherwise it holds the chain it held
        before, and its state. So the chain never gets shorter, a tie keeps it as it is, and all
        but its last MAX_REORG_DEPTH blocks stay. */
    method TryReorg(fork: seq<Block>) returns (ok: bool)
      requires Valid()
      requires ReorgStarts(links, chain, fork) ==>
                 var base := chain[..fork[0].index];
                 && UndoableFrom(net, chain, fork[0].index)
                 && ForkInScope(net, signed, links, base, fork, !ForkAccepted(net, signed, links, base, fork))
      modifies this, ledger, staking, tokens, notary, index, trie
      ensures Valid()
      ensures ok <==>
                && ReorgStarts(links, old(chain), fork)
                && ForkAccepted(net, signed, links, old(chain)[..fork[0].index], fork)
      ensures chain == if ok then old(chain)[..fork[0].index] + fork else old(chain)
      ensures ok ==> |chain| > |old(chain)|
      ensures forall i | 0 <= i < |old(chain)| - MAX_REORG_DEPTH :: i < |chain| && chain[i] == old(chain)[i]
      ensures fork != [] && 0 < fork[0].index <= |old(chain)| <= fork[0].index + MAX_REORG_DEPTH ==>
                var base := old(chain)[..fork[0].index];
                ok <==> links(base[|base| - 1], fork[0]) && |base + fork| > |old(chain)|
                        && ForkAccepted(net, signed, links, base, fork)
    {
      hide UndoableFrom, ForkInScope, ForkAccepted, Settled;
      if fork == [] { return false; }
      var start := fork[0].index;
      HeightIs();
      var length := height + 1;
      if start == 0 || start > length { return false; }
      var depth := length - start;
      if depth > MAX_REORG_DEPTH { return false; }
      if !links(chain[start - 1], fork[0]) { return false; }
      if |fork| <= depth { return false; }
      ok := Reorganise(fork, start);
    }

    lemma HeightIs()
      requires Valid()
      ensures height == |chain| - 1 && chain != []
    {}
  }
}
