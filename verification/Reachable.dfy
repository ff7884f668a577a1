/** Blocks that validation accepts right after genesis and that show where laws of the ledger
    fail. */
module ReachableFailures {
  import opened Maps
  import opened Types
  import opened Hashing
  import opened MoneyLedger
  import opened StakeLedger
  import opened StakingLaws
  import opened TokenLedger
  import opened Ledger
  import opened LedgerLaws
  import opened LedgerUndo
  import opened LedgerChain
  import opened BlockFacts
  import opened PoolLaws
  import StateRoots
  import TxIndexes
  import Validation
  import Fees

  // ---- A block that is accepted and fails ----

  lemma PoorTransferFails(m: Money, activation: int, b: Block, tx: Tx)
    requires Get(m.bal, tx.sender) == 0 && tx.payload.Transfer? && tx.payload.amount > 0
    ensures !MoneyTx(m, activation, b, tx).1
  {
    PutGets(m.bal, tx.sender, 0, tx.sender);
    if FeeOf(activation, b, tx) == 0 && b.validator == tx.sender {
      PutGets(Add(m.bal, tx.sender, 0), tx.sender, 0, tx.sender);
    }
  }

  /** The block after genesis that holds a transfer of one coin by an account without coins. */
  function PoorBlock(from: Addr, to: Addr, validator: Addr, root: Digest): Block {
    Block(1, validator, INITIAL_BASE_FEE, [Tx("t", from, 0, INITIAL_BASE_FEE, 0, Transfer(to, 1))], Some(root), true)
  }

  /** Validation accepts such a block, its application fails, and the rollback leaves the minted
      counter five billion units too low. */
  lemma AcceptedBlockUnmints(net: Network, signed: Tx -> bool, links: (Block, Block) -> bool, g: Block,
                             from: Addr, to: Addr, validator: Addr, root: Digest, remaining: seq<Tx>, record: Record)
    requires from != net.genesis && from != validator && to != from && to != ""
    requires g.index == 0 && "t" !in Validation.IdsOf([g])
    requires var b := PoorBlock(from, to, validator, root); signed(b.txs[0]) && links(g, b)
    ensures var b, s := PoorBlock(from, to, validator, root), Replay(net, [g]);
            && Grown(net, [g]) && TokenIdsDerived(b.txs) && BlockAccepted(net, signed, links, [g], b)
            && Apply(s, net.activation, b).1 == TxFailed
            && Undo(Apply(s, net.activation, b).0, net.activation, b, remaining, record).money.minted
               == s.money.minted - 5_000_000_000
  {
    var b, s := PoorBlock(from, to, validator, root), Genesis(net.genesis);
    PoorBlockAccepted(net, signed, links, g, from, to, validator, root);
    GenesisOk(net.genesis);
    OpeningStill(s, 0, b);
    PoorTransferFails(s.money, net.activation, b, b.txs[0]);
    assert LedgerTxs(Opening(s, 1), net.activation, b, b.txs).1 == false;
    FailedBlockUnmints(s, 0, net.activation, b, remaining, record);
    FirstReward();
  }

  lemma FirstReward()
    ensures BlockReward(1, GENESIS_BALANCE) == 5_000_000_000
  {
    assert 1 / HALVING_INTERVAL == 0;
  }

  lemma WeightOfOne(tx: Tx, v: Addr)
    ensures Fees.TotalWeight([tx]) == Weight(tx.payload)
    ensures Validation.SelfWeight([tx], v) == if tx.sender == v then Weight(tx.payload) else 0
  {
    assert [tx][1..] == [];
    assert Fees.TotalWeight([]) == 0 && Validation.SelfWeight([], v) == 0;
  }

  lemma PoorBlockAccepted(net: Network, signed: Tx -> bool, links: (Block, Block) -> bool, g: Block,
                          from: Addr, to: Addr, validator: Addr, root: Digest)
    requires from != validator && to != from && to != "" && g.index == 0 && "t" !in Validation.IdsOf([g])
    requires var b := PoorBlock(from, to, validator, root); signed(b.txs[0]) && links(g, b)
    ensures BlockAccepted(net, signed, links, [g], PoorBlock(from, to, validator, root))
  {
    var b := PoorBlock(from, to, validator, root);
    WeightOfOne(b.txs[0], validator);
    assert Validation.UserTxs([g]) == [];
  }

  // ---- Blocks of the genesis account under the legacy model ----

  /** A block after genesis with transactions of the genesis account only. */
  function OwnBlock(validator: Addr, txs: seq<Tx>): Block { Block(1, validator, 0, txs, None, true) }

  predicate OwnTxs(net: Network, signed: Tx -> bool, g: Block, txs: seq<Tx>) {
    && txs != [] && |txs| <= 3 && DistinctIds(txs)
    && forall i | 0 <= i < |txs| ::
         && txs[i].sender == net.genesis && txs[i].nonce == i && signed(txs[i]) && ValidPayload(txs[i])
         && txs[i].id !in Validation.IdsOf([g]) && Amount(txs[i]) <= 1_000_000
  }

  lemma {:induction false} OwnCount(txs: seq<Tx>, i: nat, s: Addr)
    requires i <= |txs| && forall j | 0 <= j < |txs| :: txs[j].sender == s
    ensures Validation.CountBefore(txs, i, s) == i
    decreases i
  {
    if i > 0 { OwnCount(txs, i - 1, s); }
  }

  lemma OwnBlockAccepted(net: Network, signed: Tx -> bool, links: (Block, Block) -> bool, g: Block, validator: Addr,
                         txs: seq<Tx>)
    requires net.activation > 1 && g.index == 0 && OwnTxs(net, signed, g, txs) && links(g, OwnBlock(validator, txs))
    ensures BlockAccepted(net, signed, links, [g], OwnBlock(validator, txs))
  {
    var b := OwnBlock(validator, txs);
    assert Validation.UserTxs([g]) == [];
    forall i | 0 <= i < |txs|
      ensures Validation.TxOk(txs[i], signed, false, 0, Validation.IdsOf([g]))
      ensures txs[i].nonce == Get<Addr>(map[], txs[i].sender) + Validation.CountBefore(txs, i, txs[i].sender)
    {
      OwnCount(txs, i, net.genesis);
    }
  }

  lemma {:induction false} OwnCosts(txs: seq<Tx>, a: Addr, g: Addr)
    requires forall i | 0 <= i < |txs| :: txs[i].sender == g && Amount(txs[i]) <= 1_000_000
    ensures PendingOf(false, txs, a) <= if a == g then 1_001_000_000 * |txs| else 0
    decreases |txs|
  {
    if txs != [] { OwnCosts(txs[..|txs| - 1], a, g); }
  }

  /** The genesis account can pay for them. */
  lemma OwnBlockPaid(net: Network, signed: Tx -> bool, g: Block, validator: Addr, txs: seq<Tx>)
    requires net.activation > 1 && OwnTxs(net, signed, g, txs)
    ensures MoneyTxs(Genesis(net.genesis).money, net.activation, OwnBlock(validator, txs), txs).1
  {
    var m, b := Genesis(net.genesis).money, OwnBlock(validator, txs);
    forall a ensures PendingOf(false, txs, a) <= Get(m.bal, a) { OwnCosts(txs, a, net.genesis); }
    PaidTxs(m, net.activation, b, txs, net.genesis);
  }

  /** Such a block is applied when its token checks pass. */
  lemma OwnBlockApplied(net: Network, signed: Tx -> bool, links: (Block, Block) -> bool, g: Block, validator: Addr,
                        txs: seq<Tx>)
    requires net.activation > 1 && g.index == 0 && OwnTxs(net, signed, g, txs) && links(g, OwnBlock(validator, txs))
    requires TokenIdsDerived(txs) && TokenTxs(Tokens(map[], map[], map[]), 1, txs).1
    ensures BlockAccepted(net, signed, links, [g], OwnBlock(validator, txs))
    ensures Grown(net, [g] + [OwnBlock(validator, txs)])
    ensures Replay(net, [g]) == Genesis(net.genesis) && Fits([g], OwnBlock(validator, txs))
    ensures Apply(Genesis(net.genesis), net.activation, OwnBlock(validator, txs)).1 == Applied
  {
    var b, s := OwnBlock(validator, txs), Genesis(net.genesis);
    assert |txs| <= 3;
    hide Apply, Undo, Opening, MoneyTxs, Validation.BodyOk, OwnTxs;
    OwnBlockAccepted(net, signed, links, g, validator, txs);
    AcceptedFits(net, signed, links, [g], b);
    GenesisOpens(net.genesis, b);
    OwnBlockPaid(net, signed, g, validator, txs);
    LedgerTxsParts(s, net.activation, b, txs);
    ApplyFails(s, net.activation, b);
    Extended(net, [g], b);
    assert Run(net, [g]);
    OwnBlockFits(net, signed, links, g, b);
    AppliedWhenFits(s, net.activation, b);
  }

  lemma GenesisOpens(a: Addr, b: Block)
    requires b.index == 1
    ensures Opening(Genesis(a), 1) == Genesis(a)
  {
    GenesisOk(a);
    OpeningStill(Genesis(a), 0, b);
  }

  lemma OwnBlockFits(net: Network, signed: Tx -> bool, links: (Block, Block) -> bool, g: Block, b: Block)
    requires g.index == 0 && Run(net, [g] + [b]) && BlockAccepted(net, signed, links, [g], b)
    requires |b.txs| <= MAX_TX_PER_BLOCK
    ensures StateRoots.Encodable(TablesOf(Replay(net, [g] + [b])))
  {
    var chain := [g] + [b];
    assert chain[..1] == [g] && chain[1] == b;
    assert Validation.Accepted([g], net.activation, signed);
    Validation.UserTxsAppend([g], b);
    assert Validation.UserTxs([g]) == [];
    assert [] + b.txs == b.txs;
    NeverOverflows(net, chain, signed);
  }

  lemma AppliedWhenFits(s: State, activation: int, b: Block)
    requires Apply(s, activation, b).1 != TxFailed && b.stateRoot == None
    requires StateRoots.Encodable(TablesOf(Apply(s, activation, b).0))
    ensures Apply(s, activation, b).1 == Applied
  {}

  // ---- Coins out of nothing ----

  function UnstakeTx(from: Addr, v: Addr): Tx { Tx("unstake", from, 0, 0, 0, Unstake(v, 5)) }

  /** Validation compares no UNSTAKE with a stake: the genesis account takes five coins from a
      validator without stakes, and the accounted coins rise by five. */
  lemma AcceptedUnstakeCreates(net: Network, signed: Tx -> bool, links: (Block, Block) -> bool, g: Block, v: Addr,
                               validator: Addr)
    requires net.activation > 1 && g.index == 0 && v != net.genesis && v != "" && "unstake" !in Validation.IdsOf([g])
    requires var b := OwnBlock(validator, [UnstakeTx(net.genesis, v)]); signed(b.txs[0]) && links(g, b)
    ensures var b := OwnBlock(validator, [UnstakeTx(net.genesis, v)]);
            && BlockAccepted(net, signed, links, [g], b) && Grown(net, [g] + [b])
            && Accounted(Replay(net, [g] + [b])) == Accounted(Replay(net, [g])) + 5
  {
    var tx := UnstakeTx(net.genesis, v);
    var b, s := OwnBlock(validator, [tx]), Genesis(net.genesis);
    hide Apply, Accounted, Grown;
    assert [tx][1..] == [];
    OwnBlockApplied(net, signed, links, g, validator, [tx]);
    GenesisOk(net.genesis);
    ApplyConserves(s, 0, net.activation, b);
    Extended(net, [g], b);
    assert Mature(s, 1) == s;
    assert UncoveredBy(s.staking, 1, [tx]) == 5 && SlashedBy(s.staking, 1, [tx]) == 0;
  }

  // ---- A rollback that comes out wrong unnoticed ----

  /** A token is issued, ten of it are minted and moved on, all in one block. */
  function TokenTxsOf(from: Addr, id: TokenId, to: Addr): seq<Tx> {
    [Tx("issue", from, 0, 0, 0, IssueToken(id, "Q", 0, true)), Tx("mint", from, 1, 0, 0, MintToken(id, from, 10)),
     Tx("move", from, 2, 0, 0, TransferToken(id, to, 10))]
  }

  lemma ThreeSteps(t: Tokens, txs: seq<Tx>)
    requires |txs| == 3
    ensures var (t1, ok1) := TokenTx(t, 1, txs[0]);
            var (t2, ok2) := TokenTx(t1, 1, txs[1]);
            ok1 && ok2 ==> TokenTxs(t, 1, txs) == TokenTx(t2, 1, txs[2])
    ensures UndoTokenTxs(t, txs) == UndoTokenTx(UndoTokenTx(UndoTokenTx(t, txs[0]), txs[1]), txs[2])
  {
    hide TokenTx, UndoTokenTx;
    var rest := txs[1..];
    assert rest[0] == txs[1] && rest[1..] == [txs[2]] && [txs[2]][1..] == [];
    var (t1, ok1) := TokenTx(t, 1, txs[0]);
    var (t2, ok2) := TokenTx(t1, 1, txs[1]);
    var (t3, ok3) := TokenTx(t2, 1, txs[2]);
    assert TokenTxs(t2, 1, [txs[2]]) == (t3, ok3);
    assert ok2 ==> TokenTxs(t1, 1, rest) == TokenTxs(t2, 1, [txs[2]]);
    var u1 := UndoTokenTx(t, txs[0]);
    var u2 := UndoTokenTx(u1, txs[1]);
    assert UndoTokenTxs(u2, [txs[2]]) == UndoTokenTx(u2, txs[2]);
    assert UndoTokenTxs(u1, rest) == UndoTokenTxs(u2, [txs[2]]);
  }

  /** Taken back in the original order, the three leave ten of a token that does not exist. */
  lemma TokensComeBackWrong(from: Addr, id: TokenId, to: Addr)
    requires from != to
    ensures var (after, ok) := TokenTxs(Tokens(map[], map[], map[]), 1, TokenTxsOf(from, id, to));
            var n := UndoTokenTxs(after, TokenTxsOf(from, id, to));
            ok && n.registry == map[] && Get(n.bal, (id, from)) == 10
  {
    var txs, none := TokenTxsOf(from, id, to), Tokens(map[], map[], map[]);
    var t1 := TokenTx(none, 1, txs[0]).0;
    var t2 := TokenTx(t1, 1, txs[1]).0;
    var t3 := TokenTx(t2, 1, txs[2]).0;
    ThreeSteps(none, txs);
    ThreeSteps(t3, txs);
    assert id in t1.registry && t1.registry.Keys == {id};
    assert Get(t2.bal, (id, from)) == 10 && t2.registry.Keys == {id};
    var u1 := UndoTokenTx(t3, txs[0]);
    assert u1.registry == map[] && u1.bal == map[];
    var u2 := UndoTokenTx(u1, txs[1]);
    assert u2.registry == map[] && u2.bal == map[];
  }

  lemma GenesisBalanced(g: Addr)
    ensures Balanced(Genesis(g).staking)
  {
    SumPut<Addr>(map[], g, MIN_STAKE);
    assert map[][g := MIN_STAKE] == map[g := MIN_STAKE];
  }

  /** An accepted and applied block whose rollback passes both checks of `_rollback_to`, and so,
      as the trie is restored from its snapshot, also the root check of `try_reorg`, and yet
      leaves its sender with ten of a token that no longer exists. */
  lemma WrongTokensPass(net: Network, signed: Tx -> bool, links: (Block, Block) -> bool, g: Block, validator: Addr,
                        id: TokenId, to: Addr)
    requires net.activation > 1 && g.index == 0 && net.genesis != "" && to != "" && to != net.genesis
    requires StateRoots.ValidTokenId(id) && {"issue", "mint", "move"} !! Validation.IdsOf([g])
    requires var txs := TokenTxsOf(net.genesis, id, to);
             (forall i | 0 <= i < 3 :: signed(txs[i])) && links(g, OwnBlock(validator, txs))
    ensures var b := OwnBlock(validator, TokenTxsOf(net.genesis, id, to));
            var chain := [g] + [b];
            var n := UndoBlocks(net, Replay(net, chain), chain, 1);
            && BlockAccepted(net, signed, links, [g], b) && Grown(net, chain) && ReversibleFrom(chain, 1)
            && (forall a :: Get(n.money.bal, a) >= 0) && Accounted(n) == Accounted(Replay(net, chain))
            && Replay(net, [g]).tokens == Tokens(map[], map[], map[])
            && n.tokens.registry == map[] && Get(n.tokens.bal, (id, net.genesis)) == 10
  {
    hide TokenTxsOf, OwnTxs, Apply, Replay, Undo, UndoBlocks, Accounted, Grown, BlockAccepted, TokenTxs, UndoTokenTxs;
    hide TokenIdsDerived, AllReversible, Fits;
    var txs := TokenTxsOf(net.genesis, id, to);
    var b, s := OwnBlock(validator, txs), Genesis(net.genesis);
    TokenTxsFit(net, signed, g, id, to);
    TokensComeBackWrong(net.genesis, id, to);
    OwnBlockApplied(net, signed, links, g, validator, txs);
    Extended(net, [g], b);
    WrongTokensChecked(net, g, b);
    GenesisOk(net.genesis);
    ApplyIndexes(s, 0, net.activation, b);
    LastUndone(net, g, b);
  }

  lemma TokenTxsFit(net: Network, signed: Tx -> bool, g: Block, id: TokenId, to: Addr)
    requires net.genesis != "" && to != "" && to != net.genesis && StateRoots.ValidTokenId(id)
    requires {"issue", "mint", "move"} !! Validation.IdsOf([g])
    requires forall i | 0 <= i < 3 :: signed(TokenTxsOf(net.genesis, id, to)[i])
    ensures var txs := TokenTxsOf(net.genesis, id, to);
            && OwnTxs(net, signed, g, txs) && TokenIdsDerived(txs) && AllReversible(txs)
            && forall i | 0 <= i < |txs| :: !txs[i].payload.Unstake?
  {
    hide Validation.IdsOf;
    assert "issue" !in Validation.IdsOf([g]) && "mint" !in Validation.IdsOf([g]) && "move" !in Validation.IdsOf([g]);
  }

  lemma WrongTokensChecked(net: Network, g: Block, b: Block)
    requires Grown(net, [g]) && Fits([g], b) && Apply(Genesis(net.genesis), net.activation, b).1 != TxFailed
    requires AllReversible(b.txs) && forall i | 0 <= i < |b.txs| :: !b.txs[i].payload.Unstake?
    ensures var after := Apply(Genesis(net.genesis), net.activation, b).0;
            var n := Undo(after, net.activation, b, Validation.UserTxs([g]), NO_RECORD);
            (forall a :: Get(n.money.bal, a) >= 0) && Accounted(n) == Accounted(after)
  {
    hide Apply, Undo, Accounted;
    var s := Genesis(net.genesis);
    GrownRuns(net, [g]);
    GenesisOk(net.genesis);
    GenesisBalanced(net.genesis);
    NothingUnstaked(s.staking, b.index, b.txs);
    OneSidedNoClamp(s.staking, b.index, b.txs);
    FirstReward();
    assert RewardCovered(s, b) by { FirstRewardCovered(net.genesis, b); }
    ChecksMiss(net, [g], b);
  }

  lemma FirstRewardCovered(g: Addr, b: Block)
    requires b.index == 1
    ensures RewardCovered(Genesis(g), b)
  {
    FirstReward();
    assert 1 / HALVING_INTERVAL == 0;
  }

  lemma {:induction false} NothingUnstaked(k: Staking, index: int, txs: seq<Tx>)
    requires forall i | 0 <= i < |txs| :: !txs[i].payload.Unstake?
    ensures Covered(k, index, txs) && OneSided(txs)
    decreases |txs|
  {
    if txs != [] { NothingUnstaked(StakingTx(k, index, txs[0]), index, txs[1..]); }
  }

  lemma LastUndone(net: Network, g: Block, b: Block)
    ensures var s := Replay(net, [g] + [b]);
            var n := UndoBlocks(net, s, [g] + [b], 1);
            && n == Undo(s, net.activation, b, Validation.UserTxs([g]), NO_RECORD)
            && n.tokens == UndoTokenTxs(s.tokens, b.txs)
  {
    var chain := [g] + [b];
    assert chain[..1] == [g] && chain[1] == b;
    TxIndexes.HistoryUsers([g]);
  }
}
