/** The ledger of a whole chain: what every run keeps, what its state root commits to, and
    what rolling blocks back does. */
module LedgerChain {
  import opened Maps
  import opened Types
  import opened Hashing
  import opened StateTries
  import opened StateRoots
  import opened MoneyLedger
  import opened StakeLedger
  import opened StakingLaws
  import opened TokenLedger
  import opened NotaryLedger
  import opened Ledger
  import opened LedgerLaws
  import opened LedgerUndo
  import opened Validation

  /** After `init_chain` and `activate_financial_layer`: the genesis validator is registered,
      holds the genesis balance and has staked the minimum. */
  function Genesis(g: Addr): State {
    State(Money(map[g := GENESIS_BALANCE], GENESIS_BALANCE, 0),
          Staking(map[g := map[g := MIN_STAKE]], map[g := MIN_STAKE], [], {g}, map[], {}),
          Tokens(map[], map[], map[]), Notary(map[], map[], map[]), map[], map[], 0)
  }

  /** The state a chain stands for, and the parameters of the network. */
  datatype Network = Network(activation: int, genesis: Addr)

  ghost function Replay(net: Network, chain: seq<Block>): State {
    if |chain| <= 1 then Genesis(net.genesis)
    else Apply(Replay(net, chain[..|chain| - 1]), net.activation, chain[|chain| - 1]).0
  }

  /** Token ids are 32 hex digits of a hash. */
  predicate TokenIdsDerived(txs: seq<Tx>) {
    forall i | 0 <= i < |txs| && txs[i].payload.IssueToken? :: ValidTokenId(txs[i].payload.tokenId)
  }

  /** What the validation of a block gives whatever the state is. */
  predicate Fits(before: seq<Block>, b: Block) {
    && b.index == |before| && ValidPayloads(b.txs) && DistinctIds(b.txs) && TokenIdsDerived(b.txs)
    && forall i | 0 <= i < |b.txs| :: b.txs[i].id !in IdsOf(before) && b.txs[i].nonce >= 0
  }

  /** A chain all of whose transactions went through; its last state may still have been
      refused. */
  ghost predicate Run(net: Network, chain: seq<Block>) {
    && chain != [] && chain[0].index == 0
    && (|chain| > 1 ==>
          var before, b := chain[..|chain| - 1], chain[|chain| - 1];
          Run(net, before) && Fits(before, b) && Apply(Replay(net, before), net.activation, b).1 != TxFailed)
  }

  /** A chain built by appending blocks that were applied. */
  ghost predicate Grown(net: Network, chain: seq<Block>) {
    && chain != [] && chain[0].index == 0
    && (|chain| > 1 ==>
          var before, b := chain[..|chain| - 1], chain[|chain| - 1];
          Grown(net, before) && Fits(before, b) && Apply(Replay(net, before), net.activation, b).1 == Applied)
  }

  lemma {:induction false} GrownRuns(net: Network, chain: seq<Block>)
    requires Grown(net, chain)
    ensures Run(net, chain)
    decreases |chain|
  {
    if |chain| > 1 { GrownRuns(net, chain[..|chain| - 1]); }
  }

  lemma Extended(net: Network, chain: seq<Block>, b: Block)
    requires chain != []
    ensures Replay(net, chain + [b]) == Apply(Replay(net, chain), net.activation, b).0
    ensures Grown(net, chain + [b]) <==>
            Grown(net, chain) && Fits(chain, b) && Apply(Replay(net, chain), net.activation, b).1 == Applied
    ensures Run(net, chain + [b]) <==>
            Run(net, chain) && Fits(chain, b) && Apply(Replay(net, chain), net.activation, b).1 != TxFailed
  {
    assert (chain + [b])[..|chain|] == chain;
  }

  lemma {:induction false} GrownPrefix(net: Network, chain: seq<Block>, k: nat)
    requires Grown(net, chain) && 0 < k <= |chain|
    ensures Grown(net, chain[..k])
    ensures k < |chain| ==>
            Fits(chain[..k], chain[k]) && Apply(Replay(net, chain[..k]), net.activation, chain[k]).1 == Applied
    decreases |chain|
  {
    Prefixes(chain, k);
    if k < |chain| - 1 { GrownPrefix(net, chain[..|chain| - 1], k); }
  }

  lemma Prefixes(chain: seq<Block>, k: nat)
    requires 0 < k <= |chain|
    ensures k == |chain| ==> chain[..k] == chain
    ensures k < |chain| - 1 ==> chain[..|chain| - 1][..k] == chain[..k]
  {}

  // ---- Invariants of every run ----

  ghost predicate NotaryWithin(n: Notary, ids: set<TxId>) {
    forall d <- n.byHash :: forall id <- n.byHash[d] :: id in ids
  }

  lemma {:induction false} NotaryGrows(n: Notary, txs: seq<Tx>, ids: set<TxId>)
    requires NotaryWithin(n, ids) && forall i | 0 <= i < |txs| :: txs[i].id in ids
    ensures NotaryWithin(NotaryTxs(n, txs), ids)
    decreases |txs|
  {
    if txs != [] {
      var m := NotaryTx(n, txs[0]);
      forall d, id | d in m.byHash && id in m.byHash[d] ensures id in ids {
        assert id in ListOf(n, d) || id == txs[0].id;
      }
      NotaryGrows(m, txs[1..], ids);
    }
  }

  lemma GenesisOk(g: Addr)
    ensures WellFormed(Genesis(g), 0) && Accounted(Genesis(g)) == MIN_STAKE
  {
    var s := Genesis(g);
    forall id ensures Sum(HoldingsOf(s.tokens.bal, id)) == MintedOf(s.tokens, id) {
      assert HoldingsOf(s.tokens.bal, id) == map[];
    }
    SumPut<Addr>(map[], g, GENESIS_BALANCE);
    SumPut<Addr>(map[], g, MIN_STAKE);
    assert map[][g := GENESIS_BALANCE] == s.money.bal && map[][g := MIN_STAKE] == s.staking.total;
  }

  /** What block application does to the nonces and to the notarization index. */
  lemma ApplyIndexes(s: State, height: int, activation: int, b: Block)
    requires WellFormed(s, height) && b.index == height + 1 && Apply(s, activation, b).1 != TxFailed
    ensures var n := Apply(s, activation, b).0;
            n.next == Bump(s.next, b.txs) && n.notary == NotaryTxs(s.notary, b.txs) &&
              n.tokens == TokenTxs(s.tokens, b.index, b.txs).0
  {
    OpeningKeeps(s, height);
    LedgerTxsParts(Opening(s, b.index), activation, b, b.txs);
  }

  lemma {:induction false} BumpAppend(next: map<Addr, int>, a: seq<Tx>, b: seq<Tx>)
    ensures Bump(next, a + b) == Bump(Bump(next, a), b)
    decreases |a|
  {
    if a == [] {
      assert a + b == b;
    } else {
      assert (a + b)[1..] == a[1..] + b;
      BumpAppend(Put(next, a[0].sender, Max(Get(next, a[0].sender), a[0].nonce + 1)), a[1..], b);
    }
  }

  /** The state is well formed, the nonce table is what a scan of the chain finds, and the
      notarization index holds only ids of the chain. */
  ghost predicate StateOk(s: State, chain: seq<Block>) {
    WellFormed(s, |chain| - 1) && s.next == Bump(map[], UserTxs(chain)) && NotaryWithin(s.notary, IdsOf(chain))
  }

  lemma IndexesExtend(next: map<Addr, int>, notary: Notary, chain: seq<Block>, b: Block)
    requires chain != [] && next == Bump(map[], UserTxs(chain)) && NotaryWithin(notary, IdsOf(chain))
    ensures Bump(next, b.txs) == Bump(map[], UserTxs(chain + [b]))
    ensures NotaryWithin(NotaryTxs(notary, b.txs), IdsOf(chain + [b]))
  {
    UserTxsAppend(chain, b);
    BumpAppend(map[], UserTxs(chain), b.txs);
    IdsGrow(chain, b);
    NotaryGrows(notary, b.txs, IdsOf(chain + [b]));
  }

  /** What a block that is applied keeps. */
  lemma StateOkExtends(s: State, chain: seq<Block>, activation: int, b: Block)
    requires chain != [] && StateOk(s, chain) && Fits(chain, b) && Apply(s, activation, b).1 != TxFailed
    ensures StateOk(Apply(s, activation, b).0, chain + [b])
  {
    hide Apply, WellFormed, Bump, NotaryWithin, IdsOf, UserTxs;
    var h := |chain| - 1;
    assert |chain + [b]| == h + 2;
    ApplyKeepsWellFormed(s, h, activation, b);
    ApplyIndexes(s, h, activation, b);
    IndexesExtend(s.next, s.notary, chain, b);
  }

  lemma SplitLast(chain: seq<Block>)
    requires chain != []
    ensures chain == chain[..|chain| - 1] + [chain[|chain| - 1]]
  {}

  /** The invariant of every run. */
  lemma {:induction false} ReplayOk(net: Network, chain: seq<Block>)
    requires Run(net, chain)
    ensures StateOk(Replay(net, chain), chain)
    decreases |chain|
  {
    if |chain| == 1 {
      GenesisOk(net.genesis);
      assert UserTxs(chain) == [];
    } else {
      var before, b := chain[..|chain| - 1], chain[|chain| - 1];
      ReplayOk(net, before);
      StateOkExtends(Replay(net, before), before, net.activation, b);
      SplitLast(chain);
    }
  }

  lemma IdsGrow(chain: seq<Block>, b: Block)
    ensures IdsOf(chain) <= IdsOf(chain + [b])
    ensures forall i | 0 <= i < |b.txs| :: b.txs[i].id in IdsOf(chain + [b])
    ensures forall id <- IdsOf(chain + [b]) :: id in IdsOf(chain) || exists i | 0 <= i < |b.txs| :: b.txs[i].id == id
  {
    var longer := chain + [b];
    forall id | id in IdsOf(chain) ensures id in IdsOf(longer) {
      var i, j :| 0 <= i < |chain| && 0 <= j < |chain[i].txs| && chain[i].txs[j].id == id;
      assert longer[i].txs[j].id == id;
    }
    forall i | 0 <= i < |b.txs| ensures b.txs[i].id in IdsOf(longer) {
      assert longer[|chain|].txs[i].id == b.txs[i].id;
    }
    forall id | id in IdsOf(longer) ensures id in IdsOf(chain) || exists i | 0 <= i < |b.txs| :: b.txs[i].id == id {
      var i, j :| 0 <= i < |longer| && 0 <= j < |longer[i].txs| && longer[i].txs[j].id == id;
      if i < |chain| { assert chain[i].txs[j].id == id; }
    }
  }

  // ---- Conservation over whole runs ----

  ghost function CreatedOn(net: Network, chain: seq<Block>): int {
    if |chain| <= 1 then 0 else
    var before, b := chain[..|chain| - 1], chain[|chain| - 1];
    CreatedOn(net, before) + Created(Replay(net, before), b)
  }

  ghost function DestroyedOn(net: Network, chain: seq<Block>): int {
    if |chain| <= 1 then 0 else
    var before, b := chain[..|chain| - 1], chain[|chain| - 1];
    DestroyedOn(net, before) + Destroyed(Replay(net, before), b)
  }

  /** On every chain, whatever its blocks hold, balances, stakes, unbonding entries and burned
      coins sum to what was minted plus the genesis stake, plus what uncovered UNSTAKEs
      created, less what evidence slashed. */
  lemma {:induction false} ChainConserves(net: Network, chain: seq<Block>)
    requires Run(net, chain)
    ensures Accounted(Replay(net, chain)) == MIN_STAKE + CreatedOn(net, chain) - DestroyedOn(net, chain)
    decreases |chain|
  {
    if |chain| == 1 {
      GenesisOk(net.genesis);
    } else {
      var before := chain[..|chain| - 1];
      ChainConserves(net, before);
      LastBlockConserves(net, chain);
    }
  }

  lemma LastBlockConserves(net: Network, chain: seq<Block>)
    requires Run(net, chain) && |chain| > 1
    ensures var before, b := chain[..|chain| - 1], chain[|chain| - 1];
            Accounted(Replay(net, chain)) ==
            Accounted(Replay(net, before)) + Created(Replay(net, before), b) - Destroyed(Replay(net, before), b)
  {
    var before, b := chain[..|chain| - 1], chain[|chain| - 1];
    ReplayOk(net, before);
    ApplyConserves(Replay(net, before), |chain| - 2, net.activation, b);
  }

  lemma {:induction false} SlashedNonNegative(k: Staking, index: int, txs: seq<Tx>)
    requires Tidy(k)
    ensures SlashedBy(k, index, txs) >= 0 && UncoveredBy(k, index, txs) >= 0
    decreases |txs|
  {
    if txs != [] {
      StakingTxTidy(k, index, txs[0]);
      SlashedNonNegative(StakingTx(k, index, txs[0]), index, txs[1..]);
      if txs[0].payload.Evidence? { StakeNonNegative(k, txs[0].payload.validator, ""); }
    }
  }

  lemma {:induction false} DestroyedNonNegative(net: Network, chain: seq<Block>)
    requires Run(net, chain)
    ensures DestroyedOn(net, chain) >= 0 && CreatedOn(net, chain) >= 0
    decreases |chain|
  {
    if |chain| > 1 {
      var before, b := chain[..|chain| - 1], chain[|chain| - 1];
      ReplayOk(net, before);
      DestroyedNonNegative(net, before);
      SlashedNonNegative(Mature(Replay(net, before), b.index).staking, b.index, b.txs);
    }
  }

  lemma {:induction false} UnbondingNonNegative(es: seq<Entry>)
    requires forall e <- es :: e.amount > 0
    ensures UnbondingSum(es) >= 0
  {
    if es != [] { UnbondingNonNegative(es[1..]); }
  }

  /** Each balance, each total stake and each minted amount lies between zero and the supply
      cap plus the genesis stake, as long as no UNSTAKE created coins. */
  lemma BalanceBounds(net: Network, chain: seq<Block>, a: Addr)
    requires Run(net, chain)
    ensures 0 <= Get(Replay(net, chain).money.bal, a) <= MAX_SUPPLY + MIN_STAKE + CreatedOn(net, chain)
    ensures 0 <= Get(Replay(net, chain).staking.total, a) <= MAX_SUPPLY + MIN_STAKE + CreatedOn(net, chain)
  {
    var s := Replay(net, chain);
    ReplayOk(net, chain);
    ChainConserves(net, chain);
    DestroyedNonNegative(net, chain);
    SumBounds(s.money.bal);
    SumBounds(s.staking.total);
    UnbondingNonNegative(s.staking.unbonding);
  }

  // ---- The nonce table ----

  /** The recorded nonce of each sender is the greatest one a scan of the chain finds. */
  lemma NonceTableIsScan(net: Network, chain: seq<Block>, s: Addr)
    requires Run(net, chain)
    ensures Get(Replay(net, chain).next, s) == ScanNext(chain, s)
  {
    ReplayOk(net, chain);
    BumpGets(map[], UserTxs(chain), s);
  }

  lemma {:induction false} NoncesOfLength(txs: seq<Tx>, s: Addr)
    ensures |NoncesOf(txs, s)| <= |txs|
  {
    if txs != [] { NoncesOfLength(txs[1..], s); }
  }

  // ---- The state root ----

  predicate RegistryIdsOk(t: Tokens) { forall id <- t.registry :: ValidTokenId(id) }

  lemma {:induction false} RegistryIdsKept(t: Tokens, index: int, txs: seq<Tx>)
    requires RegistryIdsOk(t) && TokenIdsDerived(txs)
    ensures RegistryIdsOk(TokenTxs(t, index, txs).0)
    decreases |txs|
  {
    if txs != [] {
      var (n, ok) := TokenTx(t, index, txs[0]);
      if ok {
        assert TokenIdsDerived(txs[1..]);
        RegistryIdsKept(n, index, txs[1..]);
      }
    }
  }

  lemma {:induction false} RegistryIds(net: Network, chain: seq<Block>)
    requires Run(net, chain)
    ensures RegistryIdsOk(Replay(net, chain).tokens)
    decreases |chain|
  {
    if |chain| > 1 {
      var before, b := chain[..|chain| - 1], chain[|chain| - 1];
      RegistryIds(net, before);
      ReplayOk(net, before);
      ApplyIndexes(Replay(net, before), |before| - 1, net.activation, b);
      RegistryIdsKept(Replay(net, before).tokens, b.index, b.txs);
    }
  }

  /** A token balance is at most what was minted of a registered token. */
  lemma HeldBounds(t: Tokens, h: Account)
    requires TokensOk(t) && h in t.bal
    ensures h.0 in t.registry && 0 < t.bal[h] <= MAX_TOKEN_AMOUNT
  {
    var m := HoldingsOf(t.bal, h.0);
    SumBounds(m);
    assert Get(m, h) == t.bal[h];
    assert Sum(m) == MintedOf(t, h.0);
  }

  lemma NonceFits(net: Network, chain: seq<Block>, activation: int, signed: Tx -> bool, a: Addr)
    requires Run(net, chain) && Accepted(chain, activation, signed) && |UserTxs(chain)| <= LIMIT
    ensures 0 <= Get(Replay(net, chain).next, a) <= LIMIT
  {
    NonceTableIsScan(net, chain, a);
    NoncesGapFree(chain, activation, signed, a);
    NoncesOfLength(UserTxs(chain), a);
  }

  /** A state fits its encoding as long as what uncovered UNSTAKEs created leaves room. */
  lemma FitsWithCreated(net: Network, chain: seq<Block>, signed: Tx -> bool)
    requires Run(net, chain) && Accepted(chain, net.activation, signed)
    requires |UserTxs(chain)| <= LIMIT && MAX_SUPPLY + MIN_STAKE + CreatedOn(net, chain) < LIMIT
    ensures Encodable(TablesOf(Replay(net, chain)))
  {
    var s := Replay(net, chain);
    var t := TablesOf(s);
    RegistryIds(net, chain);
    ReplayOk(net, chain);
    forall k | Value(t, k).Some? ensures Encodes(k, Value(t, k).value) {
      match k
      case BalanceOf(a) => BalanceBounds(net, chain, a);
      case NonceOf(a) => NonceFits(net, chain, net.activation, signed, a);
      case HoldingOf(id, a) => HeldBounds(s.tokens, (id, a));
      case SupplyOf(id) =>
    }
  }

  /** An UNSTAKE creates at most its amount. */
  lemma {:induction false} UncoveredBound(k: Staking, index: int, txs: seq<Tx>)
    requires Tidy(k) && ValidPayloads(txs)
    ensures UncoveredBy(k, index, txs) <= MAX_STAKE * |txs|
    decreases |txs|
  {
    if txs != [] {
      StakingTxTidy(k, index, txs[0]);
      assert ValidPayload(txs[0]);
      if txs[0].payload.Unstake? { StakeNonNegative(k, txs[0].payload.validator, ""); }
      UncoveredBound(StakingTx(k, index, txs[0]), index, txs[1..]);
    }
  }

  lemma {:induction false} CreatedBound(net: Network, chain: seq<Block>)
    requires Run(net, chain)
    ensures CreatedOn(net, chain) <= MAX_STAKE * |UserTxs(chain)|
    decreases |chain|
  {
    if |chain| > 1 {
      var before, b := chain[..|chain| - 1], chain[|chain| - 1];
      ReplayOk(net, before);
      CreatedBound(net, before);
      UncoveredBound(Mature(Replay(net, before), b.index).staking, b.index, b.txs);
    }
  }

  /** So many transactions, 2^44, cannot make a balance overflow, whatever they unstake. */
  const MAX_RUN := 0x1000_0000_0000

  /** No state of an accepted run overflows the encoding: balances, nonces, token balances and
      supplies fit their 8 bytes. */
  lemma NeverOverflows(net: Network, chain: seq<Block>, signed: Tx -> bool)
    requires Run(net, chain) && Accepted(chain, net.activation, signed) && |UserTxs(chain)| <= MAX_RUN
    ensures Encodable(TablesOf(Replay(net, chain)))
  {
    CreatedBound(net, chain);
    FitsWithCreated(net, chain, signed);
  }

  /** What the trie shows determines the tables, as none of them holds a zero. */
  lemma ShownDetermines(s: State, n: State)
    requires Positive(s.money.bal) && Positive(s.next) && Positive(s.tokens.bal)
    requires Positive(n.money.bal) && Positive(n.next) && Positive(n.tokens.bal)
    requires forall k :: Value(TablesOf(s), k) == Value(TablesOf(n), k)
    ensures s.money.bal == n.money.bal && s.next == n.next && s.tokens.bal == n.tokens.bal
    ensures MintedTable(s.tokens) == MintedTable(n.tokens)
  {
    var t, u := TablesOf(s), TablesOf(n);
    forall a ensures Get(s.money.bal, a) == Get(n.money.bal, a) {
      assert Value(t, BalanceOf(a)) == Value(u, BalanceOf(a));
    }
    Ext(s.money.bal, n.money.bal);
    forall a ensures Get(s.next, a) == Get(n.next, a) { assert Value(t, NonceOf(a)) == Value(u, NonceOf(a)); }
    Ext(s.next, n.next);
    forall h ensures Get(s.tokens.bal, h) == Get(n.tokens.bal, h) {
      assert Value(t, HoldingOf(h.0, h.1)) == Value(u, HoldingOf(h.0, h.1));
    }
    Ext(s.tokens.bal, n.tokens.bal);
    var x, y := MintedTable(s.tokens), MintedTable(n.tokens);
    forall id ensures id in x <==> id in y { assert Value(t, SupplyOf(id)) == Value(u, SupplyOf(id)); }
    forall id | id in x ensures x[id] == y[id] { assert Value(t, SupplyOf(id)) == Value(u, SupplyOf(id)); }
  }

  /** The state root commits to the ledger: two chains, of whatever blocks, have equal state
      roots exactly when they lead to equal balances, nonces, token balances and supplies. */
  lemma RootsCommitToLedger(net: Network, chain: seq<Block>, net': Network, chain': seq<Block>)
    requires Grown(net, chain) && Grown(net', chain')
    ensures var s, n := Replay(net, chain), Replay(net', chain');
            && Encodable(TablesOf(s)) && Encodable(TablesOf(n))
            && (RootOf(EntriesOf(TablesOf(s))) == RootOf(EntriesOf(TablesOf(n))) <==>
                s.money.bal == n.money.bal && s.next == n.next && s.tokens.bal == n.tokens.bal &&
                MintedTable(s.tokens) == MintedTable(n.tokens))
  {
    var s, n := Replay(net, chain), Replay(net', chain');
    GrownOk(net, chain);
    GrownOk(net', chain');
    StateRootCommits(TablesOf(s), TablesOf(n));
    if RootOf(EntriesOf(TablesOf(s))) == RootOf(EntriesOf(TablesOf(n))) { ShownDetermines(s, n); }
  }

  /** A state has a root, and it is this one. */
  ghost predicate HasRoot(s: State, root: Option<Digest>) {
    Encodable(TablesOf(s)) && root == Some(RootOf(EntriesOf(TablesOf(s))))
  }

  /** A state root in a block is the root of the state the chain up to it stands for. */
  lemma RootsOfChain(net: Network, chain: seq<Block>, i: nat)
    requires Grown(net, chain) && 0 < i < |chain| && chain[i].stateRoot.Some?
    ensures HasRoot(Replay(net, chain[..i + 1]), chain[i].stateRoot)
  {
    hide HasRoot, Replay, Grown, Apply, Fits, Run;
    GrownPrefix(net, chain, i);
    assert chain[..i + 1] == chain[..i] + [chain[i]];
    Extended(net, chain[..i], chain[i]);
    AppliedRoot(Replay(net, chain[..i]), net.activation, chain[i]);
  }

  /** A block is applied if and only if its transactions go through and lead to a state that fits
      its encoding and has the root the block carries, if it carries one. */
  lemma AppliedRoot(s: State, activation: int, b: Block)
    ensures var n := Apply(s, activation, b).0;
            Apply(s, activation, b).1 == Applied <==>
              && LedgerTxs(Opening(s, b.index), activation, b, b.txs).1
              && if b.stateRoot.Some? then HasRoot(n, b.stateRoot) else Encodable(TablesOf(n))
  {
    hide RootOf, EntriesOf, TablesOf, Encodable, LedgerTxs, Opening, Closing;
  }

  /** A state root in a block header stands for the ledger: two chains whose last blocks carry the
      same one, whatever the chains hold, lead to equal balances, nonces, token balances and
      supplies. */
  lemma HeaderCommits(net: Network, chain: seq<Block>, net': Network, chain': seq<Block>)
    requires Grown(net, chain) && Grown(net', chain') && |chain| > 1 && |chain'| > 1
    requires chain[|chain| - 1].stateRoot == chain'[|chain'| - 1].stateRoot != None
    ensures var s, n := Replay(net, chain), Replay(net', chain');
            s.money.bal == n.money.bal && s.next == n.next && s.tokens.bal == n.tokens.bal &&
              MintedTable(s.tokens) == MintedTable(n.tokens)
  {
    hide RootOf, EntriesOf, TablesOf, Encodable, Grown, Replay;
    RootsOfChain(net, chain, |chain| - 1);
    RootsOfChain(net', chain', |chain'| - 1);
    assert chain[..|chain|] == chain && chain'[..|chain'|] == chain';
    RootsCommitToLedger(net, chain, net', chain');
  }

  lemma GenesisFits(g: Addr)
    ensures Encodable(TablesOf(Genesis(g)))
  {}

  lemma GrownOk(net: Network, chain: seq<Block>)
    requires Grown(net, chain)
    ensures StateOk(Replay(net, chain), chain)
    ensures Encodable(TablesOf(Replay(net, chain)))
  {
    GrownRuns(net, chain);
    ReplayOk(net, chain);
    if |chain| == 1 { GenesisFits(net.genesis); }
  }

  // ---- The trie is never empty ----

  lemma BumpShows(next: map<Addr, int>, txs: seq<Tx>)
    requires Positive(next) && forall i | 0 <= i < |txs| :: txs[i].nonce >= 0
    requires next != map[] || txs != []
    ensures Bump(next, txs) != map[]
  {
    if a :| a in next {
      BumpGets(next, txs, a);
      NextAfterGrows(Get(next, a), txs, a);
    } else {
      BumpGets(next, txs, txs[0].sender);
      NextAfterGrows(Max(0, txs[0].nonce + 1), txs[1..], txs[0].sender);
    }
  }

  lemma {:induction false} NextAfterGrows(next: int, txs: seq<Tx>, s: Addr)
    ensures NextAfter(next, txs, s) >= next
    decreases |txs|
  {
    if txs != [] { NextAfterGrows(if txs[0].sender == s then Max(next, txs[0].nonce + 1) else next, txs[1..], s); }
  }

  lemma EmptyBlockKeepsSum(s: State, height: int, activation: int, b: Block)
    requires WellFormed(s, height) && b.index == height + 1 && b.txs == []
    ensures Sum(Apply(s, activation, b).0.money.bal) >= Sum(s.money.bal)
  {
    var o := Opening(s, b.index);
    MatureCreditsKeep(s.money.bal, s.staking.unbonding, b.index);
    WaitingSum(s.staking.unbonding, b.index);
    EpochStepKeeps(Mature(s, b.index), b.index);
    ClosingKeeps(o, b);
  }

  lemma {:induction false} WaitingSum(es: seq<Entry>, index: int)
    requires forall e <- es :: e.amount > 0
    ensures UnbondingSum(Waiting(es, index)) <= UnbondingSum(es)
  {
    if es != [] {
      WaitingSum(es[1..], index);
      UnbondingSumAppend(if es[0].release <= index then [] else [es[0]], Waiting(es[1..], index));
    }
  }

  /** With the financial layer active from genesis some balance or nonce is always shown, so
      the branch of the rebuild that could serve a stale root is never taken. */
  lemma {:induction false} NeverEmpty(net: Network, chain: seq<Block>)
    requires Run(net, chain)
    ensures Replay(net, chain).next != map[] || Sum(Replay(net, chain).money.bal) > 0
    ensures exists k :: Value(TablesOf(Replay(net, chain)), k).Some?
    decreases |chain|
  {
    ReplayOk(net, chain);
    if |chain| == 1 {
      GenesisOk(net.genesis);
      SumBounds(Genesis(net.genesis).money.bal);
      assert Get(Genesis(net.genesis).money.bal, net.genesis) == GENESIS_BALANCE;
    } else {
      var before, b := chain[..|chain| - 1], chain[|chain| - 1];
      NeverEmpty(net, before);
      NeverEmptyStep(net, before, b);
    }
    SomethingShown(Replay(net, chain));
  }

  lemma NeverEmptyStep(net: Network, chain: seq<Block>, b: Block)
    requires Run(net, chain) && Fits(chain, b) && Apply(Replay(net, chain), net.activation, b).1 != TxFailed
    requires Replay(net, chain).next != map[] || Sum(Replay(net, chain).money.bal) > 0
    ensures var n := Apply(Replay(net, chain), net.activation, b).0; n.next != map[] || Sum(n.money.bal) > 0
  {
    hide Apply, Replay, Run, Bump;
    var s := Replay(net, chain);
    ReplayOk(net, chain);
    ApplyIndexes(s, |chain| - 1, net.activation, b);
    if s.next != map[] || b.txs != [] {
      BumpShows(s.next, b.txs);
    } else {
      EmptyBlockKeepsSum(s, |chain| - 1, net.activation, b);
    }
  }

  lemma SomethingShown(s: State)
    requires Positive(s.money.bal) && Positive(s.next) && (s.next != map[] || Sum(s.money.bal) > 0)
    ensures exists k :: Value(TablesOf(s), k).Some?
  {
    if s.next != map[] {
      var a :| a in s.next;
      assert Value(TablesOf(s), NonceOf(a)).Some?;
    } else {
      ShownBalance(s);
    }
  }

  lemma ShownBalance(s: State)
    requires Positive(s.money.bal) && Sum(s.money.bal) > 0
    ensures exists k :: Value(TablesOf(s), k).Some?
  {
    var a :| a in s.money.bal;
    assert Value(TablesOf(s), BalanceOf(a)).Some?;
  }

  // ---- Rolling back ----

  /** The last block of a chain is undone exactly when it is restorable: the state after its
      reversal is the state of the shorter chain. */
  lemma UndoOnChain(net: Network, chain: seq<Block>, b: Block)
    requires Run(net, chain) && Fits(chain, b) && Apply(Replay(net, chain), net.activation, b).1 != TxFailed
    requires AllReversible(b.txs)
    ensures Undo(Apply(Replay(net, chain), net.activation, b).0, net.activation, b, UserTxs(chain), NO_RECORD)
            == Replay(net, chain) <==>
            Restorable(Replay(net, chain), b)
  {
    hide Undo, Apply, Replay, Run, Restorable, WellFormed;
    var s := Replay(net, chain);
    ReplayOk(net, chain);
    forall d | d in s.notary.byHash ensures NotIn(b.txs, s.notary.byHash[d]) {}
    UndoExact(s, |chain| - 1, net.activation, b, UserTxs(chain));
  }

  /** A block of the types the reversal is written for that can be undone from where it was
      applied. */
  ghost predicate Undoable(net: Network, before: seq<Block>, b: Block) {
    var s := Replay(net, before);
    AllReversible(b.txs) && Restorable(s, b)
  }

  lemma {:induction false} CoveredCreatesNothing(k: Staking, index: int, txs: seq<Tx>)
    requires Covered(k, index, txs) && AllReversible(txs)
    ensures UncoveredBy(k, index, txs) == 0 && SlashedBy(k, index, txs) == 0
    decreases |txs|
  {
    if txs != [] { CoveredCreatesNothing(StakingTx(k, index, txs[0]), index, txs[1..]); }
  }

  /** Such a block leaves the accounted coins as they were, so that the conservation check of
      `_rollback_to` cannot fail. */
  lemma UndoableConserves(net: Network, before: seq<Block>, b: Block)
    requires Run(net, before) && Fits(before, b) && Undoable(net, before, b)
    requires Apply(Replay(net, before), net.activation, b).1 != TxFailed
    ensures Accounted(Apply(Replay(net, before), net.activation, b).0) == Accounted(Replay(net, before))
  {
    var s := Replay(net, before);
    ReplayOk(net, before);
    ApplyConserves(s, |before| - 1, net.activation, b);
    WaitingStays(s.money.bal, s.staking.unbonding, b.index);
    assert Mature(s, b.index) == s;
    CoveredCreatesNothing(s.staking, b.index, b.txs);
  }

  /** What the two checks of `_rollback_to` see of a block that is taken back: they pass for every
      block in which nothing matured, whose reward the supply covers, and whose stakes were
      covered and not clamped. What they do not see are epoch payouts and token balances: the
      state comes back right exactly when there was nothing to pay and no token was clamped. */
  lemma ChecksMiss(net: Network, before: seq<Block>, b: Block)
    requires Run(net, before) && Fits(before, b) && AllReversible(b.txs)
    requires Apply(Replay(net, before), net.activation, b).1 != TxFailed
    requires Returns(Replay(net, before), b)
    ensures var s := Replay(net, before);
            var after := Apply(s, net.activation, b).0;
            var n := Undo(after, net.activation, b, UserTxs(before), NO_RECORD);
            && (forall a :: Get(n.money.bal, a) >= 0) && Accounted(n) == Accounted(after)
            && (n == s <==> NothingToPay(s, b) && TokensRestored(TokenTxs(s.tokens, b.index, b.txs).0, b.txs))
  {
    hide Undo, Apply, Replay, Run, NoClamp, TokensRestored, WellFormed, Covered, AllReversible, NothingToPay;
    hide RewardCovered;
    var s := Replay(net, before);
    ReplayOk(net, before);
    forall d | d in s.notary.byHash ensures NotIn(b.txs, s.notary.byHash[d]) {}
    UndoOnChain(net, before, b);
    MoneyAndStakesReturn(s, |before| - 1, net.activation, b, UserTxs(before));
    ReturnedAccounted(s, |before| - 1, net.activation, b, UserTxs(before));
  }

  lemma ReturnedAccounted(s: State, height: int, activation: int, b: Block, before: seq<Tx>)
    requires WellFormed(s, height) && b.index == height + 1 && ValidPayloads(b.txs) && AllReversible(b.txs)
    requires Apply(s, activation, b).1 != TxFailed && NothingMatures(s, b) && Covered(s.staking, b.index, b.txs)
    requires var n := Undo(Apply(s, activation, b).0, activation, b, before, NO_RECORD);
             n.money == Opening(s, b.index).money && n.staking == s.staking
    ensures var n := Undo(Apply(s, activation, b).0, activation, b, before, NO_RECORD);
            (forall a :: Get(n.money.bal, a) >= 0) && Accounted(n) == Accounted(Apply(s, activation, b).0)
  {
    hide Undo, Apply, Covered;
    WaitingStays(s.money.bal, s.staking.unbonding, b.index);
    assert Mature(s, b.index) == s;
    OpeningKeeps(s, height);
    ApplyConserves(s, height, activation, b);
    CoveredCreatesNothing(s.staking, b.index, b.txs);
  }

  /** Plain conditions on a block that make it restorable: it does not both stake and unstake,
      nor both credit and debit a token, for one account. */
  lemma PlainBlockRestorable(s: State, height: int, b: Block)
    requires WellFormed(s, height) && b.index == height + 1 && InScope(s, b) && Balanced(s.staking)
    requires NothingMatures(s, b) && NothingToPay(s, b) && RewardCovered(s, b) && Covered(s.staking, b.index, b.txs)
    requires OneSided(b.txs) && TokensOneSided(b.txs) && TokenTxs(s.tokens, b.index, b.txs).1
    ensures Restorable(s, b)
  {
    OneSidedNoClamp(s.staking, b.index, b.txs);
    forall k ensures HoldingRestored(TokenTxs(s.tokens, b.index, b.txs).0, b.txs, k) {
      OneSidedRestored(s.tokens, b.index, b.txs, k);
    }
  }

  // ---- Blocks refused halfway ----

  lemma {:induction false} LedgerTxsMinted(s: State, activation: int, b: Block, txs: seq<Tx>)
    ensures LedgerTxs(s, activation, b, txs).0.money.minted == s.money.minted
    decreases |txs|
  {
    if txs != [] {
      var (n, ok) := LedgerTx(s, activation, b, txs[0]);
      if ok { LedgerTxsMinted(n, activation, b, txs[1..]); }
    }
  }

  lemma UndoMinted(n: State, activation: int, b: Block, remaining: seq<Tx>, record: Record)
    ensures Undo(n, activation, b, remaining, record).money.minted
            == n.money.minted - BlockReward(b.index, n.money.minted)
  {
    UndoMoneyTxsMinted(UndoReward(n.money, b), activation, b, b.txs);
  }

  /** A block refused because one of its transactions fails is rolled back as a whole, the
      reward it never minted included: the minted counter comes out too low by that reward, and
      so right exactly when the reward is zero. */
  lemma FailedBlockUnmints(s: State, height: int, activation: int, b: Block, remaining: seq<Tx>, record: Record)
    requires WellFormed(s, height) && b.index == height + 1 && Apply(s, activation, b).1 == TxFailed
    ensures Undo(Apply(s, activation, b).0, activation, b, remaining, record).money.minted ==
            s.money.minted - BlockReward(b.index, s.money.minted)
    ensures Undo(Apply(s, activation, b).0, activation, b, remaining, record).money.minted == s.money.minted <==>
            BlockReward(b.index, s.money.minted) == 0
  {
    var o := Opening(s, b.index);
    OpeningKeeps(s, height);
    LedgerTxsMinted(o, activation, b, b.txs);
    UndoMinted(LedgerTxs(o, activation, b, b.txs).0, activation, b, remaining, record);
  }
}
