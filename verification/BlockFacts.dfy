/** Facts about blocks, histories and tries that block processing relies on. */
module BlockFacts {
  import opened Maps
  import opened Types
  import opened Hashing
  import opened StateTries
  import opened StateRoots
  import opened MoneyLedger
  import opened StakeLedger
  import opened StakingLaws
  import opened TokenLedger
  import opened NotaryLedger
  import opened Ledger
  import opened LedgerLaws
  import opened LedgerUndo
  import opened LedgerChain
  import opened BalanceLedgers
  import opened StakeTables
  import opened TxIndexes
  import Validation
  import EpochPayout
  import Fees

  lemma PlaceNext(h: seq<Placed>, b: Block, i: nat)
    requires i < |b.txs|
    ensures h + Place(b.index, b.txs[..i + 1]) == h + Place(b.index, b.txs[..i]) + [Placed(b.index, b.txs[i])]
  {}

  lemma TxsNext(s: State, activation: int, b: Block, i: nat)
    requires i < |b.txs|
    ensures LedgerTxs(s, activation, b, b.txs[i..]) ==
            (var (n, ok) := LedgerTx(s, activation, b, b.txs[i]);
             if ok then LedgerTxs(n, activation, b, b.txs[i + 1..]) else (n, false))
  {
    assert b.txs[i..][0] == b.txs[i] && b.txs[i..][1..] == b.txs[i + 1..];
  }

  predicate RecordOk(r: Record) { EpochPayout.AllPositive(r.0) && EpochPayout.AllPositive(r.1) }

  ghost predicate SnapshotOk(net: Network, chain: seq<Block>, i: int, e: Entries) {
    0 <= i < |chain| && Represents(e, TablesOf(Replay(net, chain[..i + 1])))
  }

  ghost predicate SnapshotsOk(net: Network, chain: seq<Block>, snapshots: map<int, Entries>) {
    forall i <- snapshots :: SnapshotOk(net, chain, i, snapshots[i])
  }

  /** The raw tables show what the ledger state shows: recorded nonces of -1 are skipped. */
  lemma RawShown(s: State, raw: Tables)
    requires s.money.bal == raw.bal && Positive(raw.bal) && s.next == Validation.Expected(raw.nonce)
    requires s.tokens.bal == raw.held && raw.supply == MintedTable(s.tokens)
    ensures forall k :: Value(raw, k) == Value(TablesOf(s), k)
  {}

  ghost predicate SomethingShows(s: State) { exists k :: Value(TablesOf(s), k).Some? }

  lemma ShownNotEmpty(e: Entries, t: Tables)
    requires Represents(e, t) && exists k :: Value(t, k).Some?
    ensures e != map[]
  {
    var k :| Value(t, k).Some?;
    assert Format(k) in e;
  }

  lemma GenesisShown(g: Addr)
    ensures Encodable(TablesOf(Genesis(g))) && SomethingShows(Genesis(g))
  {
    assert Value(TablesOf(Genesis(g)), BalanceOf(g)).Some?;
  }

  lemma GenesisChain(net: Network, chain: seq<Block>, e: Entries)
    requires |chain| == 1 && chain[0].index == 0 && |chain[0].txs| == 1 && Represents(e, TablesOf(Genesis(net.genesis)))
    ensures Grown(net, chain) && Replay(net, chain) == Genesis(net.genesis) && SnapshotsOk(net, chain, map[0 := e])
    ensures HistoryOf(chain) == [] + [Placed(0, chain[0].txs[0])]
  {
    assert chain[..1] == chain && chain[..0] == [];
    assert HistoryOf(chain) == HistoryOf([]) + Place(0, chain[0].txs);
  }

  lemma AllZero(rewards: map<Addr, int>)
    ensures Norm(map v | v in rewards :: 0) == map[]
  {}

  lemma GenesisTables(g: Addr)
    ensures Norm(map[g := GENESIS_BALANCE]) == map[g := GENESIS_BALANCE] &&
            Norm(map[g := MIN_STAKE]) == map[g := MIN_STAKE]
    ensures DropEmpty(map[g := map[g := MIN_STAKE]]) == map[g := map[g := MIN_STAKE]]
    ensures Norm<Addr>(map[]) == map[] && Validation.Expected(map[]) == map[]
    ensures Tidy(Genesis(g).staking) && NotaryOk(Genesis(g).notary) && Positive(map[g := GENESIS_BALANCE])
  {
    NormOfPositive(map[g := GENESIS_BALANCE]);
    NormOfPositive(map[g := MIN_STAKE]);
    GenesisOk(g);
  }

  /** The trie is not empty once the block has been applied. */
  ghost predicate ShownOnceApplied(s: State, activation: int, b: Block) {
    var (n, ok) := LedgerTxs(Opening(s, b.index), activation, b, b.txs);
    ok ==> SomethingShows(Closing(n, b))
  }

  lemma ShownAfter(net: Network, chain: seq<Block>, b: Block)
    requires Grown(net, chain) && Fits(chain, b)
    ensures ShownOnceApplied(Replay(net, chain), net.activation, b)
  {
    var (n, ok) := LedgerTxs(Opening(Replay(net, chain), b.index), net.activation, b, b.txs);
    if ok {
      GrownRuns(net, chain);
      Extended(net, chain, b);
      NeverEmpty(net, chain + [b]);
    }
  }

  lemma SnapshotsExtend(net: Network, chain: seq<Block>, b: Block, snapshots: map<int, Entries>, e: Entries)
    requires chain != [] && SnapshotsOk(net, chain, snapshots) && Represents(e, TablesOf(Replay(net, chain + [b])))
    ensures SnapshotsOk(net, chain + [b], snapshots[|chain| := e] - {|chain| - MAX_REORG_DEPTH - 1})
  {
    var kept := snapshots[|chain| := e] - {|chain| - MAX_REORG_DEPTH - 1};
    forall i | i in kept ensures SnapshotOk(net, chain + [b], i, kept[i]) {
      SnapshotKept(net, chain, b, i);
    }
  }

  lemma SnapshotKept(net: Network, chain: seq<Block>, b: Block, i: int)
    ensures (chain + [b])[..|chain| + 1] == chain + [b]
    ensures 0 <= i < |chain| ==> (chain + [b])[..i + 1] == chain[..i + 1]
  {}

  lemma VerdictOf(s: State, b: Block, e: Entries)
    requires Represents(e, TablesOf(s))
    ensures Verdict(s, b) == if b.stateRoot.Some? && b.stateRoot.value != RootOf(e) then RootMismatch else Applied
  {
    Rebuilt(e, TablesOf(s));
  }

  /** What is known of a block about to be appended. */
  lemma Appended(net: Network, chain: seq<Block>, b: Block)
    requires Grown(net, chain) && Fits(chain, b)
    ensures var s := Replay(net, chain);
            && WellFormed(s, |chain| - 1) && ShownOnceApplied(s, net.activation, b) &&
               (AtBoundary(s, b.index) <==> b.index % EPOCH_LENGTH == 0)
            && Replay(net, chain + [b]) == Apply(s, net.activation, b).0
            && (Apply(s, net.activation, b).1 == Applied ==> Grown(net, chain + [b]))
    ensures HistoryOf(chain + [b]) == HistoryOf(chain) + Place(b.index, b.txs)
  {
    GrownOk(net, chain);
    ShownAfter(net, chain, b);
    Extended(net, chain, b);
    HistoryExtends(chain, b);
    EpochReturns(|chain| - 1, b.index);
  }

  // ---- Reverting a block ----

  /** The ids of some transactions are distinct and not those of a history. */
  predicate FreshIds(before: seq<Placed>, txs: seq<Tx>) {
    DistinctIds(txs) && forall i | 0 <= i < |txs| :: txs[i].id !in Ids(before)
  }

  /** What the first k transactions of a block leave in the history once the first i are out. */
  function Left(b: Block, i: nat, k: nat): seq<Placed>
    requires k <= |b.txs|
  {
    if i < k then Place(b.index, b.txs[i..k]) else []
  }

  function Here(b: Block, i: nat, k: nat): seq<Placed>
    requires i < |b.txs|
  {
    if i < k then [Placed(b.index, b.txs[i])] else []
  }

  lemma LeftEnds(before: seq<Placed>, b: Block, k: nat)
    requires k <= |b.txs|
    ensures before + Left(b, 0, k) == before + Place(b.index, b.txs[..k])
    ensures before + Left(b, |b.txs|, k) == before
    ensures b.txs[0..] == b.txs
  {}

  lemma LeftNext(before: seq<Placed>, b: Block, i: nat, k: nat)
    requires i < |b.txs| && k <= |b.txs| && FreshIds(before, b.txs)
    ensures before + Left(b, i, k) == before + Here(b, i, k) + Left(b, i + 1, k)
    ensures b.txs[i].id !in Ids(before) && b.txs[i].id !in Ids(Left(b, i + 1, k))
  {
    var rest := Left(b, i + 1, k);
    forall j | 0 <= j < |rest| ensures rest[j].tx.id != b.txs[i].id { assert rest[j].tx == b.txs[i + 1 + j]; }
  }

  /** A state of the balances is the one a block led to, its reward included, and the reward
      can be recomputed from it. */
  predicate CameFrom(m: Money, after: Money, activation: int, b: Block) {
    && Positive(m.bal) && MoneyTxs(m, activation, b, b.txs).1 && after == Reward(MoneyTxs(m, activation, b, b.txs).0, b)
    && UndoReward(after, b) == MoneyTxs(m, activation, b, b.txs).0
  }

  lemma RewardReturns(m: Money, after: Money, activation: int, b: Block)
    requires CameFrom(m, after, activation, b)
    ensures LedTo(m, UndoReward(after, b), activation, b, b.txs)
    ensures Get(after.bal, b.validator) >= BlockReward(b.index, after.minted)
  {
    var mid := MoneyTxs(m, activation, b, b.txs).0;
    MoneyTxsPositive(m, activation, b, b.txs);
    AddPositive(mid.bal, b.validator, BlockReward(b.index, mid.minted));
  }

  lemma NormOfPositiveIf(m: map<Addr, int>)
    ensures Positive(m) ==> Norm(m) == m
  {}

  lemma PutNothing(m: map<Addr, int>, a: Addr)
    requires Positive(m)
    ensures Put(m, a, Max(0, Get(m, a) - 0)) == m
  {
    AddAdd(m, a, 0, 0);
  }

  /** The payout on record for the boundary at an index. */
  function RecordAt(records: map<int, Record>, idx: int): Record {
    if idx % EPOCH_LENGTH == 0 && idx / EPOCH_LENGTH - 1 in records then records[idx / EPOCH_LENGTH - 1] else NO_RECORD
  }

  /** Where nothing is paid out, nothing is on record. */
  lemma RecordedAt(s: State, height: int, b: Block, r: Record)
    requires height >= 0 && b.index == height + 1 && s.epoch == height / EPOCH_LENGTH
    requires AtBoundary(s, b.index) ==> ListsPayout(s, b.index, r)
    ensures var records := if b.index % EPOCH_LENGTH == 0 then map[b.index / EPOCH_LENGTH - 1 := r] else map[];
            ListsPayout(s, b.index, RecordAt(records, b.index))
  {
    hide Opening, EpochPayout.ApplyMoves;
    EpochReturns(height, b.index);
    if !AtBoundary(s, b.index) { NothingRecorded(s, b.index); }
  }

  lemma NoRecordOk(b: Block)
    ensures RecordOk(NO_RECORD) && RecordAt(map[], b.index) == NO_RECORD && b.txs[..|b.txs|] == b.txs
  {}

  /** A state n is what is left of a block that was applied to s, as far as that went, and taken
      back as a whole; r lists the payout it made. */
  ghost predicate TakenBackWith(net: Network, s: State, n: State, b: Block, remaining: seq<Tx>, r: Record) {
    && RecordOk(r) && ListsPayout(s, b.index, r)
    && (s.rewards == map[] || b.index % EPOCH_LENGTH != 0 ==> r == NO_RECORD)
    && n == Undo(Apply(s, net.activation, b).0, net.activation, b, remaining, r)
  }

  ghost predicate TakenBack(net: Network, s: State, n: State, b: Block, remaining: seq<Tx>) {
    exists r :: TakenBackWith(net, s, n, b, remaining, r)
  }

  /** What an applied and refused block leaves when it is taken back with its record. */
  lemma RefusedRestored(net: Network, chain: seq<Block>, n: State, b: Block)
    requires Grown(net, chain) && Fits(chain, b) && AllReversible(b.txs)
    requires Apply(Replay(net, chain), net.activation, b).1 != TxFailed
    requires TakenBack(net, Replay(net, chain), n, b, UsersOf(HistoryOf(chain)))
    ensures n == ButForRewards(Replay(net, chain), b.index) <==> RestorableOnRecord(Replay(net, chain), b)
    ensures var s := Replay(net, chain); Returns(s, b) ==> n.money == s.money && n.staking == s.staking
  {
    hide Undo, Apply, Replay, Grown, ListsPayout, RestorableOnRecord, ButForRewards, WellFormed, HistoryOf, UsersOf;
    hide RecordOk, Returns;
    var s := Replay(net, chain);
    GrownOk(net, chain);
    HistoryUsers(chain);
    NotaryFresh(s, chain, b);
    var r :| TakenBackWith(net, s, n, b, UsersOf(HistoryOf(chain)), r);
    UndoExactOnRecord(s, |chain| - 1, net.activation, b, Validation.UserTxs(chain), r);
    if Returns(s, b) { PayoutReturns(s, |chain| - 1, net.activation, b, Validation.UserTxs(chain), r); }
  }

  lemma NotaryFresh(s: State, chain: seq<Block>, b: Block)
    requires StateOk(s, chain) && Fits(chain, b)
    ensures WellFormed(s, |chain| - 1) && s.next == Validation.Bump(map[], Validation.UserTxs(chain))
    ensures AllReversible(b.txs) ==> InScope(s, b)
  {
    forall d | d in s.notary.byHash ensures NotIn(b.txs, s.notary.byHash[d]) {}
  }

  // ---- Undoing the last block ----

  lemma {:induction false} FeesPaid(m: Money, activation: int, b: Block, txs: seq<Tx>)
    requires MoneyTxs(m, activation, b, txs).1
    ensures FeesOk(activation, b, txs)
    decreases |txs|
  {
    if txs != [] {
      FeesPaid(MoneyTx(m, activation, b, txs[0]).0, activation, b, txs[1..]);
      forall i | 0 <= i < |txs| ensures FeeOf(activation, b, txs[i]) >= 0 {
        if i > 0 { assert txs[i] == txs[1..][i - 1]; }
      }
    }
  }

  lemma {:induction false} HistoryIds(chain: seq<Block>)
    ensures Ids(HistoryOf(chain)) == Validation.IdsOf(chain)
    decreases |chain|
  {
    if chain != [] {
      var n := |chain| - 1;
      HistoryIds(chain[..n]);
      IdsAppend(HistoryOf(chain[..n]), Place(n, chain[n].txs));
      PlaceIds(n, chain[n].txs);
      SplitLast(chain);
      IdsGrow(chain[..n], chain[n]);
    }
  }

  lemma FitsFresh(chain: seq<Block>, b: Block)
    requires Fits(chain, b)
    ensures FreshIds(HistoryOf(chain), b.txs)
  {
    HistoryIds(chain);
  }

  /** What is known of a block that was applied to a chain and can be undone. */
  lemma UndoneExactly(net: Network, chain: seq<Block>, b: Block)
    requires Grown(net, chain) && Fits(chain, b) && Undoable(net, chain, b)
    requires Apply(Replay(net, chain), net.activation, b).1 != TxFailed
    ensures Undo(Apply(Replay(net, chain), net.activation, b).0, net.activation, b, UsersOf(HistoryOf(chain)),
            NO_RECORD) == Replay(net, chain)
    ensures var s := Replay(net, chain);
            CameFrom(Opening(s, b.index).money, Apply(s, net.activation, b).0.money, net.activation, b)
    ensures Positive(Apply(Replay(net, chain), net.activation, b).0.rewards)
    ensures FeesOk(net.activation, b, b.txs) && FreshIds(HistoryOf(chain), b.txs) && AllReversible(b.txs) &&
            RecordOk(NO_RECORD)
  {
    hide Undo, Apply, Replay, Grown, Run, WellFormed, NotaryWithin, CameFrom, Opening, TablesOf, Encodable, FreshIds;
    hide Covered, Restorable, HistoryOf;
    hide FeesOk, AllReversible;
    GrownOk(net, chain);
    GrownRuns(net, chain);
    UndoOnChain(net, chain, b);
    HistoryUsers(chain);
    FitsFresh(chain, b);
    CoveredReward(Replay(net, chain), b);
    MoneyCameFrom(Replay(net, chain), |chain| - 1, net.activation, b);
    RewardsStay(Replay(net, chain), |chain| - 1, net.activation, b);
  }

  lemma CoveredReward(s: State, b: Block)
    requires Restorable(s, b)
    ensures RewardCovered(s, b)
  {}

  lemma MoneyCameFrom(s: State, height: int, activation: int, b: Block)
    requires WellFormed(s, height) && b.index == height + 1 && RewardCovered(s, b) &&
             Apply(s, activation, b).1 != TxFailed
    ensures CameFrom(Opening(s, b.index).money, Apply(s, activation, b).0.money, activation, b) &&
            FeesOk(activation, b, b.txs)
  {
    var o := Opening(s, b.index);
    OpeningKeeps(s, height);
    LedgerTxsParts(o, activation, b, b.txs);
    FeesPaid(o.money, activation, b, b.txs);
    MoneyTxsConserve(o.money, activation, b, b.txs);
    MoneyTxsPositive(o.money, activation, b, b.txs);
    UndoRewardExact(MoneyTxs(o.money, activation, b, b.txs).0, b);
  }

  lemma {:induction false} TxsKeepRewards(s: State, activation: int, b: Block, txs: seq<Tx>)
    ensures LedgerTxs(s, activation, b, txs).0.rewards == s.rewards
    decreases |txs|
  {
    if txs != [] {
      var (n, ok) := LedgerTx(s, activation, b, txs[0]);
      if ok { TxsKeepRewards(n, activation, b, txs[1..]); }
    }
  }

  lemma RewardsStay(s: State, height: int, activation: int, b: Block)
    requires WellFormed(s, height) && b.index == height + 1
    ensures Positive(Apply(s, activation, b).0.rewards)
  {
    var o := Opening(s, b.index);
    OpeningKeeps(s, height);
    TxsKeepRewards(o, activation, b, b.txs);
    var n := LedgerTxs(o, activation, b, b.txs).0;
    AddPositive(n.rewards, b.validator, BlockReward(b.index, n.money.minted));
  }

  /** The trie of a chain can always be rebuilt. */
  lemma ChainShows(net: Network, chain: seq<Block>)
    requires Grown(net, chain)
    ensures SomethingShows(Replay(net, chain)) && Encodable(TablesOf(Replay(net, chain)))
  {
    GrownRuns(net, chain);
    NeverEmpty(net, chain);
    GrownOk(net, chain);
    GenesisShown(net.genesis);
  }

  lemma SnapshotsDrop(net: Network, chain: seq<Block>, b: Block, snapshots: map<int, Entries>)
    requires SnapshotsOk(net, chain + [b], snapshots)
    ensures SnapshotsOk(net, chain, snapshots - {|chain|})
  {
    var kept := snapshots - {|chain|};
    forall i | i in kept ensures SnapshotOk(net, chain, i, kept[i]) {
      assert SnapshotOk(net, chain + [b], i, snapshots[i]);
      SnapshotKept(net, chain, b, i);
    }
  }

  lemma LastSnapshot(net: Network, chain: seq<Block>, snapshots: map<int, Entries>)
    requires chain != [] && SnapshotsOk(net, chain, snapshots) && |chain| - 1 in snapshots
    ensures Represents(snapshots[|chain| - 1], TablesOf(Replay(net, chain)))
  {
    assert SnapshotOk(net, chain, |chain| - 1, snapshots[|chain| - 1]);
    assert chain[..|chain|] == chain;
  }

  lemma SplitBack(chain: seq<Block>, b: Block)
    ensures (chain + [b])[..|chain|] == chain
  {}

  /** What the reversal of a refused block relies on. */
  lemma StillReversible(net: Network, chain: seq<Block>, b: Block)
    requires Grown(net, chain) && Fits(chain, b)
    ensures var s := Replay(net, chain);
            && Positive(Apply(s, net.activation, b).0.rewards)
            && (Undoable(net, chain, b) && b.index % EPOCH_LENGTH == 0 ==> s.rewards == map[])
            && RecordOk(NO_RECORD) && b.index > 0
            && (Apply(s, net.activation, b).1 == TxFailed ==>
                 forall remaining, record ::
                   Undo(Apply(s, net.activation, b).0, net.activation, b, remaining, record).money.minted ==
                                             s.money.minted - BlockReward(b.index, s.money.minted))
  {
    var s := Replay(net, chain);
    GrownOk(net, chain);
    RewardsStay(s, |chain| - 1, net.activation, b);
    EpochReturns(|chain| - 1, b.index);
    if Apply(s, net.activation, b).1 == TxFailed {
      forall remaining, record
        ensures Undo(Apply(s, net.activation, b).0, net.activation, b, remaining, record).money.minted ==
                s.money.minted - BlockReward(b.index, s.money.minted)
      {
        FailedBlockUnmints(s, |chain| - 1, net.activation, b, remaining, record);
      }
    }
  }

  lemma NoSnapshotYet(net: Network, chain: seq<Block>, snapshots: map<int, Entries>)
    requires SnapshotsOk(net, chain, snapshots)
    ensures snapshots - {|chain|} == snapshots
  {
    assert |chain| in snapshots ==> SnapshotOk(net, chain, |chain|, snapshots[|chain|]);
  }

  // ---- Rolling back to a height ----

  /** What is known of the last block of a chain. */
  lemma LastApplied(net: Network, chain: seq<Block>)
    requires Grown(net, chain) && |chain| > 1
    ensures var before, b := chain[..|chain| - 1], chain[|chain| - 1];
            && before + [b] == chain && Grown(net, before) && Fits(before, b) && b.index == |before| > 0
            && Apply(Replay(net, before), net.activation, b).1 == Applied
            && Replay(net, chain) == Apply(Replay(net, before), net.activation, b).0
            && HistoryOf(chain) == HistoryOf(before) + Place(b.index, b.txs)
            && FeesOk(net.activation, b, b.txs) && FreshIds(HistoryOf(before), b.txs) && ValidPayloads(b.txs)
  {
    var before, b := chain[..|chain| - 1], chain[|chain| - 1];
    SplitLast(chain);
    AppliedFees(net, before, b);
    FitsFresh(before, b);
  }

  /** The transactions of the blocks above a height, those of the tip first. */
  function Displaced(chain: seq<Block>, target: nat): seq<Tx> {
    if |chain| <= target then [] else chain[|chain| - 1].txs + Displaced(chain[..|chain| - 1], target)
  }

  /** These are exactly the transactions of those blocks. */
  lemma {:induction false} DisplacedMembers(chain: seq<Block>, target: nat, tx: Tx)
    ensures tx in Displaced(chain, target) <==> exists i :: target <= i < |chain| && tx in chain[i].txs
    decreases |chain|
  {
    if |chain| > target {
      var n := |chain| - 1;
      DisplacedMembers(chain[..n], target, tx);
      if i :| target <= i < |chain| && tx in chain[i].txs { assert i < n ==> tx in chain[..n][i].txs; }
      if i :| target <= i < n && tx in chain[..n][i].txs { assert tx in chain[i].txs; }
    }
  }

  lemma NothingDisplaced(chain: seq<Block>, target: nat, displaced: seq<Tx>)
    requires |chain| <= target
    ensures displaced + Displaced(chain, target) == displaced
  {}

  lemma DisplacedStep(chain: seq<Block>, target: nat, displaced: seq<Tx>)
    requires target < |chain|
    ensures displaced + Displaced(chain, target) ==
            displaced + chain[|chain| - 1].txs + Displaced(chain[..|chain| - 1], target)
  {}

  /** All the blocks from an index on can be undone. */
  ghost predicate UndoableFrom(net: Network, chain: seq<Block>, target: nat) {
    forall i | target <= i < |chain| :: Undoable(net, chain[..i], chain[i])
  }

  /** The types of all the blocks from an index on can be reversed. */
  predicate ReversibleFrom(chain: seq<Block>, target: nat) {
    forall i | target <= i < |chain| :: AllReversible(chain[i].txs)
  }

  lemma UndoableReverses(net: Network, chain: seq<Block>, target: nat)
    ensures UndoableFrom(net, chain, target) ==> ReversibleFrom(chain, target)
  {
    hide Replay, Restorable;
    if UndoableFrom(net, chain, target) {
      forall i | target <= i < |chain| ensures AllReversible(chain[i].txs) {
        assert Undoable(net, chain[..i], chain[i]);
      }
    }
  }

  /** What the reversal of all the blocks from a height on, the tip first, makes of a state. */
  function UndoBlocks(net: Network, s: State, chain: seq<Block>, target: nat): State
    decreases |chain|
  {
    if |chain| <= target then s else
    var before, b := chain[..|chain| - 1], chain[|chain| - 1];
    UndoBlocks(net, Undo(s, net.activation, b, UsersOf(HistoryOf(before)), NO_RECORD), before, target)
  }

  /** Taking back the last block of a chain leaves the nonce table a scan of the rest gives,
      whatever the state is otherwise. */
  lemma UndoKeepsScan(net: Network, s: State, before: seq<Block>, b: Block, record: Record)
    requires before != [] && s.next == Validation.Bump(map[], Validation.UserTxs(before + [b]))
    ensures Undo(s, net.activation, b, UsersOf(HistoryOf(before)), record).next ==
            Validation.Bump(map[], Validation.UserTxs(before))
  {
    Validation.UserTxsAppend(before, b);
    BumpAppend(map[], Validation.UserTxs(before), b.txs);
    HistoryUsers(before);
    RescanRestores(Validation.UserTxs(before), b.txs);
  }

  /** So does taking back a block that was refused, however far it got. */
  lemma RefusedKeepsScan(net: Network, chain: seq<Block>, b: Block)
    requires Grown(net, chain)
    ensures var after, remaining := Apply(Replay(net, chain), net.activation, b).0, UsersOf(HistoryOf(chain));
            forall record ::
              Undo(after, net.activation, b, remaining, record).next ==
              Validation.Bump(map[], Validation.UserTxs(chain))
  {
    hide Undo, Apply, Replay, Grown;
    var after, remaining := Apply(Replay(net, chain), net.activation, b).0, UsersOf(HistoryOf(chain));
    GrownOk(net, chain);
    HistoryUsers(chain);
    forall record
      ensures Undo(after, net.activation, b, remaining, record).next ==
              Validation.Bump(map[], Validation.UserTxs(chain))
    {
      TakenBackNonces(Replay(net, chain), net.activation, b, remaining, record);
    }
  }

  lemma UndoKeepsRewards(s: State, activation: int, b: Block, remaining: seq<Tx>, record: Record)
    requires Positive(s.rewards)
    ensures Positive(Undo(s, activation, b, remaining, record).rewards)
  {}

  lemma {:induction false} UndoableConservesFrom(net: Network, chain: seq<Block>, target: nat)
    requires Grown(net, chain) && UndoableFrom(net, chain, target) && 0 < target <= |chain|
    ensures Accounted(Replay(net, chain[..target])) == Accounted(Replay(net, chain))
    decreases |chain|
  {
    hide Apply, Replay, Undoable, UndoableFrom, Accounted, Fits, Grown, FeesOk, FreshIds;
    if target < |chain| {
      var before, b := chain[..|chain| - 1], chain[|chain| - 1];
      LastApplied(net, chain);
      UndoableLast(net, chain, target);
      GrownRuns(net, before);
      UndoableConserves(net, before, b);
      UndoableConservesFrom(net, before, target);
      assert before[..target] == chain[..target];
    } else {
      assert chain[..target] == chain;
    }
  }

  lemma UndoableLast(net: Network, chain: seq<Block>, target: nat)
    requires UndoableFrom(net, chain, target) && target < |chain|
    ensures Undoable(net, chain[..|chain| - 1], chain[|chain| - 1])
    ensures UndoableFrom(net, chain[..|chain| - 1], target)
  {
    var before := chain[..|chain| - 1];
    forall i | target <= i < |before| ensures Undoable(net, before[..i], before[i]) {
      assert before[..i] == chain[..i] && before[i] == chain[i];
    }
  }

  // ---- Forks ----

  /** What `validate_block` accepts on top of a chain. */
  ghost predicate BlockAccepted(net: Network, signed: Tx -> bool, links: (Block, Block) -> bool, chain: seq<Block>,
                                b: Block)
    requires chain != []
  {
    var parent := chain[|chain| - 1];
    && b.headerOk && b.index == |chain| && links(parent, b)
    && Validation.BodyOk(b, parent, net.activation, Validation.Bump(map[], Validation.UserTxs(chain)),
       Validation.IdsOf(chain), signed)
  }

  /** Every block of a fork carries a state root, is accepted on top of what is below it, and
      leads to that root. */
  ghost predicate ForkAccepted(net: Network, signed: Tx -> bool, links: (Block, Block) -> bool, base: seq<Block>,
                               fork: seq<Block>)
    requires base != []
    decreases |fork|
  {
    fork == [] ||
    (&& fork[0].stateRoot.Some? && BlockAccepted(net, signed, links, base, fork[0])
     && Apply(Replay(net, base), net.activation, fork[0]).1 == Applied
     && ForkAccepted(net, signed, links, base + [fork[0]], fork[1..]))
  }

  /** What it takes of one block of a fork, above what is below it: a sound header, the next index,
      a link to its parent, an accepted body, transactions that go through, and a state root that
      is the root of the state it leads to. */
  ghost predicate Extends(net: Network, signed: Tx -> bool, links: (Block, Block) -> bool, below: seq<Block>, b: Block)
    requires below != []
  {
    && b.headerOk && b.index == |below| && links(below[|below| - 1], b)
    && Validation.BodyOk(b, below[|below| - 1], net.activation, Validation.Bump(map[], Validation.UserTxs(below)),
                         Validation.IdsOf(below), signed)
    && Apply(Replay(net, below), net.activation, b).1 != TxFailed
    && HasRoot(Replay(net, below + [b]), b.stateRoot)
  }

  lemma OneExtends(net: Network, signed: Tx -> bool, links: (Block, Block) -> bool, below: seq<Block>, b: Block)
    requires below != []
    ensures Extends(net, signed, links, below, b) <==>
            b.stateRoot.Some? && BlockAccepted(net, signed, links, below, b)
            && Apply(Replay(net, below), net.activation, b).1 == Applied
  {
    hide Validation.BodyOk, Opening, LedgerTxs, Encodable, Closing, EntriesOf, RootOf;
    Extended(net, below, b);
  }

  /** A fork is accepted if and only if each of its blocks extends what is below it. */
  lemma {:induction false} ForkAcceptedIff(net: Network, signed: Tx -> bool, links: (Block, Block) -> bool,
                                           base: seq<Block>, fork: seq<Block>)
    requires base != []
    ensures ForkAccepted(net, signed, links, base, fork) <==>
            forall i | 0 <= i < |fork| :: Extends(net, signed, links, base + fork[..i], fork[i])
    decreases |fork|
  {
    hide Extends, Apply, Replay, BlockAccepted;
    if fork != [] {
      var more, rest := base + [fork[0]], fork[1..];
      assert base + fork[..0] == base;
      OneExtends(net, signed, links, base, fork[0]);
      ForkAcceptedIff(net, signed, links, more, rest);
      forall i | 0 < i < |fork| ensures base + fork[..i] == more + rest[..i - 1] && fork[i] == rest[i - 1] {}
      forall j | 0 <= j < |rest| ensures more + rest[..j] == base + fork[..j + 1] && rest[j] == fork[j + 1] {}
    }
  }

  /** The accepted blocks of a fork are refused, if at all, for their state root only; when some
      block of the fork will be refused (`undo`) they can be undone. */
  ghost predicate ForkInScope(net: Network, signed: Tx -> bool, links: (Block, Block) -> bool, base: seq<Block>,
                              fork: seq<Block>, undo: bool)
    requires base != []
    decreases |fork|
  {
    fork == [] ||
    (fork[0].stateRoot.Some? && BlockAccepted(net, signed, links, base, fork[0]) ==>
       var outcome := Apply(Replay(net, base), net.activation, fork[0]).1;
       && TokenIdsDerived(fork[0].txs) && outcome in {Applied, RootMismatch} && (undo ==> Undoable(net, base, fork[0]))
       && (outcome == Applied ==> ForkInScope(net, signed, links, base + [fork[0]], fork[1..], undo)))
  }

  lemma AcceptedFits(net: Network, signed: Tx -> bool, links: (Block, Block) -> bool, chain: seq<Block>, b: Block)
    requires chain != [] && BlockAccepted(net, signed, links, chain, b) && TokenIdsDerived(b.txs)
    ensures Fits(chain, b) && FeesOk(net.activation, b, b.txs)
  {
    var next, ids := Validation.Bump(map[], Validation.UserTxs(chain)), Validation.IdsOf(chain);
    var dynamic := b.index >= net.activation && b.index > 0;
    BumpPositive(map[], Validation.UserTxs(chain));
    forall i | 0 <= i < |b.txs|
      ensures ValidPayload(b.txs[i]) && b.txs[i].id !in ids && b.txs[i].nonce >= 0 &&
              FeeOf(net.activation, b, b.txs[i]) >= 0
    {
      assert Validation.TxOk(b.txs[i], signed, dynamic, b.baseFee, ids);
      assert Get(next, b.txs[i].sender) >= 0;
      FeeNonNegative(net.activation, chain[|chain| - 1], b, b.txs[i]);
    }
  }

  lemma FeeNonNegative(activation: int, parent: Block, b: Block, tx: Tx)
    requires b.index > 0 && (b.index >= activation ==> b.baseFee == Fees.ExpectedBaseFee(activation, parent))
    ensures FeeOf(activation, b, tx) >= 0
  {
    if b.index >= activation {
      var w := Weight(tx.payload);
      Fees.MulMono(0, b.baseFee, w);
      assert b.baseFee * w >= 0;
    }
  }

  lemma OneEntry(e: Entry)
    ensures UnbondingSum([e]) == e.amount
  {
    assert [e][1..] == [];
  }

  lemma NoneAbove(net: Network, chain: seq<Block>)
    ensures UndoableFrom(net, chain, |chain|)
  {}

  lemma ForkNext(base: seq<Block>, fork: seq<Block>, n: nat)
    requires n < |fork|
    ensures fork[n..] != [] && fork[n..][0] == fork[n] && fork[n..][1..] == fork[n + 1..]
    ensures base + fork[..n] + [fork[n]] == base + fork[..n + 1]
  {}

  lemma UndoableMore(net: Network, before: seq<Block>, b: Block, target: nat)
    requires Undoable(net, before, b) && UndoableFrom(net, before, target)
    ensures UndoableFrom(net, before + [b], target)
  {
    hide Undoable;
    var chain := before + [b];
    forall i | target <= i < |chain| ensures Undoable(net, chain[..i], chain[i]) {
      if i < |before| { assert chain[..i] == before[..i]; } else { assert chain[..i] == before; }
    }
  }

  lemma AcceptedIndex(net: Network, signed: Tx -> bool, links: (Block, Block) -> bool, chain: seq<Block>, b: Block)
    requires chain != [] && BlockAccepted(net, signed, links, chain, b)
    ensures b.index > 0
  {}

  lemma AppliedFees(net: Network, chain: seq<Block>, b: Block)
    requires Grown(net, chain) && Fits(chain, b) && Apply(Replay(net, chain), net.activation, b).1 != TxFailed
    ensures FeesOk(net.activation, b, b.txs)
  {
    var o := Opening(Replay(net, chain), b.index);
    LedgerTxsParts(o, net.activation, b, b.txs);
    FeesPaid(o.money, net.activation, b, b.txs);
  }

  lemma NextSaved(net: Network, base: seq<Block>, saved: seq<Block>, i: nat)
    requires base != [] && Grown(net, base + saved) && i < |saved|
    ensures var chain := base + saved[..i];
            && Fits(chain, saved[i]) && FeesOk(net.activation, saved[i], saved[i].txs)
            && Apply(Replay(net, chain), net.activation, saved[i]).1 == Applied
            && chain + [saved[i]] == base + saved[..i + 1]
  {
    var whole, k := base + saved, |base| + i;
    hide Apply, Replay, FeesOk;
    assert whole[..k] == base + saved[..i] && whole[k] == saved[i];
    GrownPrefix(net, whole, k);
    AppliedFees(net, whole[..k], whole[k]);
  }

  lemma OneRepresentation(e: Entries, f: Entries, t: Tables)
    requires Represents(e, t) && Represents(f, t)
    ensures e == f
  {
    RepresentsSame(e, f, t, t);
  }

  /** The structural conditions under which `try_reorg` touches the chain. */
  predicate ReorgStarts(links: (Block, Block) -> bool, chain: seq<Block>, fork: seq<Block>) {
    && fork != [] && 0 < fork[0].index <= |chain| && |chain| - fork[0].index <= MAX_REORG_DEPTH
    && links(chain[fork[0].index - 1], fork[0]) && |fork| > |chain| - fork[0].index
  }

  lemma Rejoined(net: Network, chain: seq<Block>, start: nat)
    requires 0 < start <= |chain|
    ensures chain[..start] + chain[start..] == chain && chain[..start] != []
  {}

  lemma JoinedPrefix(base: seq<Block>, fork: seq<Block>, n: nat)
    requires n <= |fork|
    ensures (base + fork[..n])[..|base|] == base && base + fork[..0] == base && (n == |fork| ==> fork[..n] == fork)
  {}

  /** What being undoable says of the types of a block. */
  lemma ScopeOf(net: Network, chain: seq<Block>, b: Block)
    ensures Undoable(net, chain, b) ==> AllReversible(b.txs)
    ensures chain != [] && Grown(net, chain) && b.index == |chain| ==> b.index > 0
  {}
}
