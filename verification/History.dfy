/** What the tables of a chain say about the transactions on it: commissions, registrations,
    unbonding entries, tokens and their holders are those a reader of the blocks would find. */
module Histories {
  import opened Maps
  import opened Types
  import opened MoneyLedger
  import opened StakeLedger
  import opened TokenLedger
  import opened NotaryLedger
  import opened StateRoots
  import opened Ledger
  import opened LedgerLaws
  import opened LedgerChain
  import opened Statements
  import Validation
  import EpochPayout
  import Fees

  /** What a block that goes through makes of stakes and tokens. */
  lemma PartsOfBlock(s: State, height: int, activation: int, b: Block)
    requires WellFormed(s, height) && b.index == height + 1 && Apply(s, activation, b).1 != TxFailed
    ensures var n, k := Apply(s, activation, b).0, s.staking.(unbonding := Waiting(s.staking.unbonding, b.index));
            && n.staking == StakingTxs(k, b.index, b.txs)
            && TokenTxs(s.tokens, b.index, b.txs) == (n.tokens, true) && n.notary == NotaryTxs(s.notary, b.txs)
  {
    var o := Opening(s, b.index);
    OpeningKeeps(s, height);
    LedgerTxsParts(o, activation, b, b.txs);
    ApplyFails(s, activation, b);
  }

  /** The same for the last block of a run. */
  lemma PartsOfLast(net: Network, chain: seq<Block>)
    requires Run(net, chain) && |chain| > 1
    ensures var before, b := chain[..|chain| - 1], chain[|chain| - 1];
            var s, n := Replay(net, before), Replay(net, chain);
            && Run(net, before) && b.index == |before| > 0 && ValidPayloads(b.txs)
            && n.staking == StakingTxs(s.staking.(unbonding := Waiting(s.staking.unbonding, b.index)), b.index, b.txs)
            && TokenTxs(s.tokens, b.index, b.txs) == (n.tokens, true) && n.notary == NotaryTxs(s.notary, b.txs)
            && Validation.UserTxs(chain) == Validation.UserTxs(before) + b.txs
  {
    hide Apply, Replay, Run, WellFormed;
    var before, b := chain[..|chain| - 1], chain[|chain| - 1];
    LastOfRun(net, chain);
    PartsOfBlock(Replay(net, before), |before| - 1, net.activation, b);
    SplitLast(chain);
    Validation.UserTxsAppend(before, b);
  }

  // ---- Commissions and registrations ----

  /** The last commission v has registered. */
  function LastCommission(txs: seq<Tx>, v: Addr): Option<int> {
    if txs == [] then None else
    var later := LastCommission(txs[1..], v);
    if later.Some? then later
    else if txs[0].sender == v && txs[0].payload.RegisterValidator? then txs[0].payload.commission else None
  }

  /** The last thing v has said about being a validator: a registration, or the revocation of its
      validator key. */
  function LastWord(txs: seq<Tx>, v: Addr): Option<bool> {
    if txs == [] then None else
    var later := LastWord(txs[1..], v);
    if later.Some? || txs[0].sender != v then later
    else if txs[0].payload.RegisterValidator? then Some(true)
    else if txs[0].payload == RevokeKey("validator") then Some(false) else None
  }

  lemma {:induction false} LastAppend(a: seq<Tx>, b: seq<Tx>, v: Addr)
    ensures var c, w := LastCommission(b, v), LastWord(b, v);
            && LastCommission(a + b, v) == (if c.Some? then c else LastCommission(a, v))
            && LastWord(a + b, v) == (if w.Some? then w else LastWord(a, v))
    decreases |a|
  {
    if a == [] {
      assert a + b == b;
    } else {
      assert (a + b)[0] == a[0] && (a + b)[1..] == a[1..] + b;
      LastAppend(a[1..], b, v);
    }
  }

  function CommissionIn(k: Staking, v: Addr): Option<int> {
    if v in k.commission then Some(k.commission[v]) else None
  }

  lemma {:induction false} RegistryOfTxs(k: Staking, index: int, txs: seq<Tx>, v: Addr)
    requires ValidPayloads(txs)
    ensures var n, c, w := StakingTxs(k, index, txs), LastCommission(txs, v), LastWord(txs, v);
            && CommissionIn(n, v) == (if c.Some? then c else CommissionIn(k, v))
            && (v in n.registered <==> if w.Some? then w.value else v in k.registered)
    decreases |txs|
  {
    if txs != [] {
      assert ValidPayload(txs[0]) && ValidPayloads(txs[1..]);
      RegistryOfTx(k, index, txs[0], v);
      RegistryOfTxs(StakingTx(k, index, txs[0]), index, txs[1..], v);
    }
  }

  lemma RegistryOfTx(k: Staking, index: int, tx: Tx, v: Addr)
    requires ValidPayload(tx)
    ensures var n, c, w := StakingTx(k, index, tx), LastCommission([tx], v), LastWord([tx], v);
            && CommissionIn(n, v) == (if c.Some? then c else CommissionIn(k, v))
            && (v in n.registered <==> if w.Some? then w.value else v in k.registered)
  {
    hide AddStake, CutStake, SlashValidator, Punishes;
    assert [tx][1..] == [];
    StakingTxRegistry(k, index, tx);
  }

  lemma StakingTxRegistry(k: Staking, index: int, tx: Tx)
    ensures var n := StakingTx(k, index, tx);
            && (!tx.payload.RegisterValidator? ==> n.commission == k.commission)
            && (!tx.payload.RegisterValidator? && !tx.payload.RevokeKey? ==> n.registered == k.registered)
  {}

  /** The commission of a validator is the last one it registered on the chain, and who is
      registered is whoever said so last, or the genesis validator. */
  lemma {:induction false} RegistryOfChain(net: Network, chain: seq<Block>, v: Addr)
    requires Run(net, chain)
    ensures var k, txs := Replay(net, chain).staking, Validation.UserTxs(chain);
            && CommissionIn(k, v) == LastCommission(txs, v)
            && (v in k.registered <==> if LastWord(txs, v).Some? then LastWord(txs, v).value else v == net.genesis)
    decreases |chain|
  {
    hide Apply, Replay, Run, StakingTxs, TokenTxs, LastCommission, LastWord;
    if |chain| > 1 {
      var before, b := chain[..|chain| - 1], chain[|chain| - 1];
      PartsOfLast(net, chain);
      RegistryOfChain(net, before, v);
      var s := Replay(net, before);
      RegistryOfTxs(s.staking.(unbonding := Waiting(s.staking.unbonding, b.index)), b.index, b.txs, v);
      LastAppend(Validation.UserTxs(before), b.txs, v);
    } else {
      StartOfRun(net, chain);
      NothingSaid(v);
      assert Validation.UserTxs(chain) == [];
    }
  }

  lemma NothingSaid(v: Addr)
    ensures LastCommission([], v) == None && LastWord([], v) == None
  {}

  /** What v owes its delegators at the boundary after a chain: what it has earned there since the
      last one, less the last commission it registered, ten percent without one, as far as its
      balance covers it. */
  function OwedOn(chain: seq<Block>, v: Addr, balance: int): int {
    var r, c := EarnedInEpoch(chain, v), LastCommission(Validation.UserTxs(chain), v);
    var due := r - r * (if c.Some? then c.value else 10) / 100;
    if due <= balance then due else balance
  }

  /** A payout uses the commission a validator has registered: at the boundary after a chain it
      pays what it owes, but for less than one coin for each of its delegators, who get their part
      by stake, rounded down. */
  lemma PayoutOnChain(net: Network, chain: seq<Block>, v: Addr, d: Addr)
    requires Run(net, chain)
    requires var st := Replay(net, chain).staking.stakes; v in st && d in st[v] && d != v
    ensures var s := Replay(net, chain);
            var t, others := TermsOf(Mature(s, |chain|)), s.staking.stakes[v] - {v};
            var owed := OwedOn(chain, v, Get(s.money.bal, v) + Matured(s.staking.unbonding, |chain|, v));
            && owed - |others| < EpochPayout.Paid(t, v) <= owed
            && Sum(others) * EpochPayout.ShareFor(t, v, d) <= owed * s.staking.stakes[v][d]
            && owed * s.staking.stakes[v][d] < Sum(others) * (EpochPayout.ShareFor(t, v, d) + 1)
  {
    hide Apply, Replay, Run, Matured, EpochPayout.Paid, EpochPayout.ShareFor, EarnedInEpoch, LastCommission, Mature;
    hide EpochPayout.Owed;
    var s := Replay(net, chain);
    var t := TermsOf(Mature(s, |chain|));
    TermsOfChain(net, chain, v);
    EpochPayout.PaysItsCommission(t, v, d);
  }

  lemma TermsOfChain(net: Network, chain: seq<Block>, v: Addr)
    requires Run(net, chain) && v in Replay(net, chain).staking.stakes
    ensures var s := Replay(net, chain);
            var t := TermsOf(Mature(s, |chain|));
            && EpochPayout.ValidTerms(t) && t.stakes == s.staking.stakes
            && EpochPayout.Owed(t, v) ==
               OwedOn(chain, v, Get(s.money.bal, v) + Matured(s.staking.unbonding, |chain|, v))
  {
    hide Apply, Replay, Run, Matured, EarnedInEpoch, LastCommission, Mature, MatureCredits, EpochPayout.Owed, OwedOn;
    hide WellFormed, CanonicalStakes, CommissionsOk, Positive;
    var s := Replay(net, chain);
    ReplayOk(net, chain);
    MatureOk(s, |chain| - 1);
    TermsValid(Mature(s, |chain|));
    TermsBefore(s, |chain|, v);
    RegistryOfChain(net, chain, v);
    RewardsOfEpoch(net, chain, v);
    OwedAlike(TermsOf(Mature(s, |chain|)), chain, v);
  }

  lemma OwedAlike(t: EpochPayout.Terms, chain: seq<Block>, v: Addr)
    requires Get(t.rewards, v) == EarnedInEpoch(chain, v)
    requires LastCommission(Validation.UserTxs(chain), v) ==
             if v in t.commission then Some(t.commission[v]) else None
    ensures EpochPayout.Owed(t, v) == OwedOn(chain, v, Get(t.snapshot, v))
  {
    hide EarnedInEpoch, LastCommission;
    var r := Get(t.rewards, v);
    Fees.DivUnique(r * 10, 100, r / 10);
  }

  lemma MatureOk(s: State, height: int)
    requires WellFormed(s, height)
    ensures var m := Mature(s, height + 1);
            && Positive(m.money.bal) && CanonicalStakes(m.staking.stakes) && CommissionsOk(m.staking.commission)
            && Positive(m.rewards)
  {
    MatureCreditsKeep(s.money.bal, s.staking.unbonding, height + 1);
  }

  // ---- Unbonding ----

  /** The entries the UNSTAKEs of a block make: their coins come back UNBONDING_PERIOD blocks later. */
  function EntriesIn(index: int, txs: seq<Tx>): seq<Entry> {
    if txs == [] then [] else
    (if txs[0].payload.Unstake?
     then [Entry(txs[0].sender, txs[0].payload.validator, txs[0].payload.amount, index + UNBONDING_PERIOD)]
     else [])
    + EntriesIn(index, txs[1..])
  }

  /** The entries of all blocks after genesis from a height on. */
  function EntriesFrom(chain: seq<Block>, from: int): seq<Entry> {
    if |chain| <= Max(1, from) then [] else
    var h := |chain| - 1;
    EntriesFrom(chain[..h], from) + EntriesIn(h, chain[h].txs)
  }

  lemma {:induction false} UnbondingOfTxs(k: Staking, index: int, txs: seq<Tx>)
    requires ValidPayloads(txs)
    ensures StakingTxs(k, index, txs).unbonding == k.unbonding + EntriesIn(index, txs)
    decreases |txs|
  {
    if txs != [] {
      assert ValidPayload(txs[0]) && ValidPayloads(txs[1..]);
      UnbondingOfTxs(StakingTx(k, index, txs[0]), index, txs[1..]);
      UnbondingOfTx(k, index, txs[0], EntriesIn(index, txs[1..]));
    }
  }

  lemma UnbondingOfTx(k: Staking, index: int, tx: Tx, rest: seq<Entry>)
    requires ValidPayload(tx)
    ensures StakingTx(k, index, tx).unbonding + rest ==
            k.unbonding + ((if tx.payload.Unstake?
                            then [Entry(tx.sender, tx.payload.validator, tx.payload.amount, index + UNBONDING_PERIOD)]
                            else []) + rest)
  {}

  lemma {:induction false} WaitingAppend(a: seq<Entry>, b: seq<Entry>, index: int)
    ensures Waiting(a + b, index) == Waiting(a, index) + Waiting(b, index)
    decreases |a|
  {
    if a == [] {
      assert a + b == b;
    } else {
      assert (a + b)[0] == a[0] && (a + b)[1..] == a[1..] + b;
      WaitingAppend(a[1..], b, index);
    }
  }

  lemma {:induction false} WaitingOfBlock(index: int, txs: seq<Tx>, now: int)
    ensures Waiting(EntriesIn(index, txs), now) ==
            if index + UNBONDING_PERIOD <= now then [] else EntriesIn(index, txs)
    decreases |txs|
  {
    if txs != [] {
      var rest := EntriesIn(index, txs[1..]);
      WaitingOfBlock(index, txs[1..], now);
      if txs[0].payload.Unstake? {
        var e := Entry(txs[0].sender, txs[0].payload.validator, txs[0].payload.amount, index + UNBONDING_PERIOD);
        assert Waiting([e], now) == if e.release <= now then [] else [e];
        WaitingAppend([e], rest, now);
      } else {
        assert EntriesIn(index, txs) == rest;
      }
    }
  }

  /** What has matured by a height are the entries of the blocks far enough below it. */
  lemma {:induction false} WaitingFrom(chain: seq<Block>, from: int, now: int)
    requires from <= now + 1 - UNBONDING_PERIOD
    ensures Waiting(EntriesFrom(chain, from), now) == EntriesFrom(chain, now + 1 - UNBONDING_PERIOD)
    decreases |chain|
  {
    if |chain| > Max(1, from) {
      var h := |chain| - 1;
      WaitingFrom(chain[..h], from, now);
      WaitingAppend(EntriesFrom(chain[..h], from), EntriesIn(h, chain[h].txs), now);
      WaitingOfBlock(h, chain[h].txs, now);
      NothingYet(chain[..h], now + 1 - UNBONDING_PERIOD);
    }
  }

  lemma NothingYet(chain: seq<Block>, from: int)
    ensures |chain| <= from ==> EntriesFrom(chain, from) == []
  {}

  /** The unbonding queue holds exactly what was unstaked in the last UNBONDING_PERIOD blocks, in
      order. */
  lemma {:induction false} QueueOfChain(net: Network, chain: seq<Block>)
    requires Run(net, chain)
    ensures Replay(net, chain).staking.unbonding == EntriesFrom(chain, |chain| - UNBONDING_PERIOD)
    decreases |chain|
  {
    hide Apply, Replay, Run, StakingTxs, TokenTxs, EntriesFrom;
    if |chain| > 1 {
      var h := |chain| - 1;
      var before, b := chain[..h], chain[h];
      PartsOfLast(net, chain);
      QueueOfChain(net, before);
      var s := Replay(net, before);
      WaitingFrom(before, h - UNBONDING_PERIOD, h);
      UnbondingOfTxs(s.staking.(unbonding := Waiting(s.staking.unbonding, h)), h, b.txs);
      EntriesGrow(chain);
    } else {
      StartOfRun(net, chain);
      NoEntries(chain);
    }
  }

  lemma EntriesGrow(chain: seq<Block>)
    requires |chain| > 1
    ensures var h := |chain| - 1;
            EntriesFrom(chain, h + 1 - UNBONDING_PERIOD) ==
            EntriesFrom(chain[..h], h + 1 - UNBONDING_PERIOD) + EntriesIn(h, chain[h].txs)
  {}

  lemma NoEntries(chain: seq<Block>)
    requires |chain| <= 1
    ensures EntriesFrom(chain, |chain| - UNBONDING_PERIOD) == []
  {}

  /** What a has unstaked in a list of transactions. */
  function UnstakedBy(txs: seq<Tx>, a: Addr): int {
    if txs == [] then 0 else
    (if txs[0].payload.Unstake? && txs[0].sender == a then txs[0].payload.amount else 0) + UnstakedBy(txs[1..], a)
  }

  lemma {:induction false} MaturedAppend(a: seq<Entry>, b: seq<Entry>, index: int, x: Addr)
    ensures Matured(a + b, index, x) == Matured(a, index, x) + Matured(b, index, x)
    decreases |a|
  {
    if a == [] {
      assert a + b == b;
    } else {
      assert (a + b)[0] == a[0] && (a + b)[1..] == a[1..] + b;
      MaturedAppend(a[1..], b, index, x);
    }
  }

  lemma {:induction false} MaturedOfBlock(index: int, txs: seq<Tx>, now: int, a: Addr)
    ensures Matured(EntriesIn(index, txs), now, a) ==
            if index + UNBONDING_PERIOD <= now then UnstakedBy(txs, a) else 0
    decreases |txs|
  {
    if txs != [] {
      var rest := EntriesIn(index, txs[1..]);
      MaturedOfBlock(index, txs[1..], now, a);
      if txs[0].payload.Unstake? {
        var e := Entry(txs[0].sender, txs[0].payload.validator, txs[0].payload.amount, index + UNBONDING_PERIOD);
        assert Matured([e], now, a) == if e.staker == a && e.release <= now then e.amount else 0;
        MaturedAppend([e], rest, now, a);
      } else {
        assert EntriesIn(index, txs) == rest;
      }
    }
  }

  lemma {:induction false} MaturedFrom(chain: seq<Block>, from: int, a: Addr)
    requires from >= 1 && |chain| <= from + UNBONDING_PERIOD
    ensures Matured(EntriesFrom(chain, from), from + UNBONDING_PERIOD, a) ==
            if from < |chain| then UnstakedBy(chain[from].txs, a) else 0
    decreases |chain|
  {
    if |chain| > from {
      var h := |chain| - 1;
      MaturedFrom(chain[..h], from, a);
      MaturedAppend(EntriesFrom(chain[..h], from), EntriesIn(h, chain[h].txs), from + UNBONDING_PERIOD, a);
      MaturedOfBlock(h, chain[h].txs, from + UNBONDING_PERIOD, a);
    }
  }

  /** What an account gets back in a block is what it has unstaked in the block UNBONDING_PERIOD
      below, no sooner and no later. */
  lemma MaturesOnTime(net: Network, chain: seq<Block>, a: Addr)
    requires Run(net, chain)
    ensures Matured(Replay(net, chain).staking.unbonding, |chain|, a) ==
            if |chain| > UNBONDING_PERIOD then UnstakedBy(chain[|chain| - UNBONDING_PERIOD].txs, a) else 0
  {
    hide Replay, Run;
    QueueOfChain(net, chain);
    var from := |chain| - UNBONDING_PERIOD;
    if from >= 1 { MaturedFrom(chain, from, a); } else { NoneMatured(chain, from, |chain|, a); }
  }

  lemma {:induction false} NoneMatured(chain: seq<Block>, from: int, now: int, a: Addr)
    requires from < 1 && now <= UNBONDING_PERIOD
    ensures Matured(EntriesFrom(chain, from), now, a) == 0
    decreases |chain|
  {
    if |chain| > 1 {
      var h := |chain| - 1;
      NoneMatured(chain[..h], from, now, a);
      MaturedAppend(EntriesFrom(chain[..h], from), EntriesIn(h, chain[h].txs), now, a);
      MaturedOfBlock(h, chain[h].txs, now, a);
    }
  }

  // ---- Tokens ----

  lemma {:induction false} TotalAppend(a: seq<int>, b: seq<int>)
    ensures Total(a + b) == Total(a) + Total(b)
    decreases |a|
  {
    if a == [] {
      assert a + b == b;
    } else {
      assert (a + b)[0] == a[0] && (a + b)[1..] == a[1..] + b;
      TotalAppend(a[1..], b);
    }
  }

  lemma DeltasAppend(a: seq<Tx>, b: seq<Tx>, k: Account, id: TokenId)
    ensures Total(HoldingDeltas(a + b, k)) == Total(HoldingDeltas(a, k)) + Total(HoldingDeltas(b, k))
    ensures Total(MintDeltas(a + b, id)) == Total(MintDeltas(a, id)) + Total(MintDeltas(b, id))
    ensures IdIssuedIn(a + b, id) <==> IdIssuedIn(a, id) || IdIssuedIn(b, id)
  {
    assert HoldingDeltas(a + b, k) == HoldingDeltas(a, k) + HoldingDeltas(b, k);
    assert MintDeltas(a + b, id) == MintDeltas(a, id) + MintDeltas(b, id);
    TotalAppend(HoldingDeltas(a, k), HoldingDeltas(b, k));
    TotalAppend(MintDeltas(a, id), MintDeltas(b, id));
    IssuedAppend(a, b, id);
  }

  lemma IssuedAppend(a: seq<Tx>, b: seq<Tx>, id: TokenId)
    ensures IdIssuedIn(a + b, id) <==> IdIssuedIn(a, id) || IdIssuedIn(b, id)
  {
    if i :| 0 <= i < |a| && IssuesId(a[i], id) { assert IssuesId((a + b)[i], id); }
    if i :| 0 <= i < |b| && IssuesId(b[i], id) { assert IssuesId((a + b)[|a| + i], id); }
  }

  lemma {:induction false} MintedByTxs(t: Tokens, index: int, txs: seq<Tx>, id: TokenId)
    requires TokenTxs(t, index, txs).1
    ensures MintedOf(TokenTxs(t, index, txs).0, id) == MintedOf(t, id) + Total(MintDeltas(txs, id))
    decreases |txs|
  {
    if txs != [] {
      HoldingStep(txs, ("", ""), id);
      WalkStep(0, MintDelta(txs[0], id), MintDeltas(txs[1..], id));
      MintedByTxs(TokenTx(t, index, txs[0]).0, index, txs[1..], id);
    }
  }

  /** The tokens of a chain are those issued on it, each balance and each supply is what was minted
      and sent there, every mint came from the issuer, and nothing was sent of a token that is not
      transferable. */
  ghost predicate TokensAreThose(t: Tokens, txs: seq<Tx>) {
    && (forall id :: id in t.registry <==> IdIssuedIn(txs, id))
    && (forall id :: MintedOf(t, id) == Total(MintDeltas(txs, id)))
    && (forall k :: Get(t.bal, k) == Total(HoldingDeltas(txs, k)))
    && (forall i | 0 <= i < |txs| :: Authorized(t.registry, txs[i]))
  }

  lemma TokensExtend(t: Tokens, before: seq<Tx>, index: int, txs: seq<Tx>)
    requires TokensAreThose(t, before) && Positive(t.bal) && ValidPayloads(txs) && TokenTxs(t, index, txs).1
    ensures TokensAreThose(TokenTxs(t, index, txs).0, before + txs)
  {
    hide TokenTxs, HoldingDeltas, MintDeltas, IdIssuedIn, Authorized, Bears, Persists, Total;
    var n, all := TokenTxs(t, index, txs).0, before + txs;
    TxsAuthorized(t, index, txs);
    forall i | 0 <= i < |all| ensures Authorized(n.registry, all[i]) {
      if i < |before| {
        StillAuthorized(t.registry, n.registry, before[i]);
      } else {
        BearsAuthorized(n.registry, txs[i - |before|], index);
      }
    }
    forall k ensures Get(n.bal, k) == Total(HoldingDeltas(all, k)) {
      TokenTxsGets(t, index, txs, k, "", "");
      DeltasAppend(before, txs, k, "");
    }
    forall id
      ensures id in n.registry <==> IdIssuedIn(all, id)
      ensures MintedOf(n, id) == Total(MintDeltas(all, id))
    {
      TokenTxsGets(t, index, txs, ("", ""), id, "");
      MintedByTxs(t, index, txs, id);
      DeltasAppend(before, txs, ("", ""), id);
    }
  }

  lemma StillAuthorized(before: map<TokenId, TokenInfo>, after: map<TokenId, TokenInfo>, tx: Tx)
    requires Persists(before, after) && Authorized(before, tx)
    ensures Authorized(after, tx)
  {}

  lemma BearsAuthorized(registry: map<TokenId, TokenInfo>, tx: Tx, index: int)
    requires Bears(registry, tx, index)
    ensures Authorized(registry, tx)
  {}

  lemma {:induction false} TokensOfChain(net: Network, chain: seq<Block>)
    requires Run(net, chain)
    ensures TokensAreThose(Replay(net, chain).tokens, Validation.UserTxs(chain))
    decreases |chain|
  {
    hide Apply, Replay, Run, StakingTxs, TokenTxs, TokensAreThose, WellFormed, TokensOk;
    if |chain| > 1 {
      var before, b := chain[..|chain| - 1], chain[|chain| - 1];
      PartsOfLast(net, chain);
      TokensOfChain(net, before);
      LastOfRun(net, chain);
      HoldingsPositive(Replay(net, before), |before| - 1);
      TokensExtend(Replay(net, before).tokens, Validation.UserTxs(before), b.index, b.txs);
    } else {
      StartOfRun(net, chain);
      NoTokens();
      assert Validation.UserTxs(chain) == [];
    }
  }

  lemma HoldingsPositive(s: State, height: int)
    requires WellFormed(s, height)
    ensures Positive(s.tokens.bal)
  {}

  lemma NoTokens()
    ensures TokensAreThose(Tokens(map[], map[], map[]), [])
  {
    forall k ensures Total(HoldingDeltas([], k)) == 0 { assert HoldingDeltas([], k) == []; }
    forall id ensures Total(MintDeltas([], id)) == 0 { assert MintDeltas([], id) == []; }
  }

  // ---- Notarizations ----

  lemma {:induction false} IdsForAppend(a: seq<Tx>, b: seq<Tx>, d: DocHash, s: Addr)
    ensures IdsFor(a + b, d) == IdsFor(a, d) + IdsFor(b, d)
    ensures NotarizedBy(a + b, s) == NotarizedBy(a, s) + NotarizedBy(b, s)
    decreases |a|
  {
    if a == [] {
      assert a + b == b;
    } else {
      assert (a + b)[0] == a[0] && (a + b)[1..] == a[1..] + b;
      IdsForAppend(a[1..], b, d, s);
      var head := if Records(a[0], d) then [a[0].id] else [];
      assert IdsFor(a + b, d) == head + (IdsFor(a[1..], d) + IdsFor(b, d));
    }
  }

  /** The index of a document lists all notarizations of it on the chain, in order, and the first
      of them is the one on record. */
  lemma {:induction false} NotaryOfChain(net: Network, chain: seq<Block>, d: DocHash, s: Addr)
    requires Run(net, chain)
    ensures var n, txs := Replay(net, chain).notary, Validation.UserTxs(chain);
            && NotaryOk(n) && ListOf(n, d) == IdsFor(txs, d) && Get(n.count, s) == NotarizedBy(txs, s)
            && (if IdsFor(txs, d) == [] then d !in n.first else d in n.first && n.first[d] == IdsFor(txs, d)[0])
    decreases |chain|
  {
    hide Apply, Replay, Run, StakingTxs, TokenTxs, NotaryTxs, IdsFor, NotarizedBy;
    if |chain| > 1 {
      var before, b := chain[..|chain| - 1], chain[|chain| - 1];
      PartsOfLast(net, chain);
      NotaryOfChain(net, before, d, s);
      NotaryTxsGets(Replay(net, before).notary, b.txs, d, s);
      IdsForAppend(Validation.UserTxs(before), b.txs, d, s);
    } else {
      StartOfRun(net, chain);
      NothingNotarized(d, s);
      assert Validation.UserTxs(chain) == [];
    }
  }

  lemma NothingNotarized(d: DocHash, s: Addr)
    ensures IdsFor([], d) == [] && NotarizedBy([], s) == 0
  {}

  // ---- What the trie shows ----

  /** The trie of a chain shows each balance there is, the last nonce of each sender, each holding
      of a token and the supply of every token issued, and nothing else. */
  lemma TrieOfChain(net: Network, chain: seq<Block>, signed: Tx -> bool, a: Addr, id: TokenId)
    requires Run(net, chain) && Validation.Accepted(chain, net.activation, signed)
    ensures var s, txs := Replay(net, chain), Validation.UserTxs(chain);
            var t, sent, held := TablesOf(s), |Validation.NoncesOf(txs, a)|, Total(HoldingDeltas(txs, (id, a)));
            && Value(t, BalanceOf(a)) == (if Get(s.money.bal, a) > 0 then Some(Get(s.money.bal, a)) else None)
            && Value(t, NonceOf(a)) == (if sent > 0 then Some(sent - 1) else None)
            && Value(t, HoldingOf(id, a)) == (if held > 0 then Some(held) else None)
            && Value(t, SupplyOf(id)) == (if IdIssuedIn(txs, id) then Some(Total(MintDeltas(txs, id))) else None)
  {
    hide Replay, Run, HoldingDeltas, MintDeltas, IdIssuedIn, Validation.Accepted;
    var s := Replay(net, chain);
    ReplayOk(net, chain);
    TokensOfChain(net, chain);
    NonceTableIsScan(net, chain, a);
    Validation.NoncesGapFree(chain, net.activation, signed, a);
    ShownBy(s, |chain| - 1, a, id);
  }

  lemma ShownBy(s: State, height: int, a: Addr, id: TokenId)
    requires WellFormed(s, height)
    ensures var t := TablesOf(s);
            && Value(t, BalanceOf(a)) == (if Get(s.money.bal, a) > 0 then Some(Get(s.money.bal, a)) else None)
            && Value(t, NonceOf(a)) == (if Get(s.next, a) > 0 then Some(Get(s.next, a) - 1) else None)
            && Value(t, HoldingOf(id, a)) ==
               (if Get(s.tokens.bal, (id, a)) > 0 then Some(Get(s.tokens.bal, (id, a))) else None)
            && Value(t, SupplyOf(id)) == (if id in s.tokens.registry then Some(MintedOf(s.tokens, id)) else None)
  {}
}
