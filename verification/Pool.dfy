/** What the transactions of a pool may cost their senders, and why a block drawn from a
    solvent pool can always be paid for: qbit_network/core/ledger.py and tx_pool.py. */
module PoolLaws {
  import opened Maps
  import opened Types
  import opened MoneyLedger
  import opened Ledger
  import opened LedgerLaws
  import opened StakeLedger
  import opened TokenLedger
  import EpochPayout
  import Fees
  import NotaryLedger
  import Validation

  function Amount(tx: Tx): int {
    match tx.payload
    case Transfer(_, a) => a
    case Stake(_, a) => a
    case Delegate(_, a) => a
    case _ => 0
  }

  /** `_calc_tx_debit`: the most a transaction can cost. */
  function MaxDebit(dynamic: bool, tx: Tx): int {
    (if dynamic then tx.maxFee * Weight(tx.payload) else LegacyFee(tx.payload)) + Amount(tx)
  }

  /** What is added up per sender: maximal debits, or one for each transaction. */
  datatype Measure = Debits(dynamic: bool) | Ones

  function Weigh(m: Measure, tx: Tx): int {
    match m
    case Debits(dynamic) => MaxDebit(dynamic, tx)
    case Ones => 1
  }

  function SumOf(m: Measure, txs: seq<Tx>, s: Addr): int {
    if txs == [] then 0 else
    SumOf(m, txs[..|txs| - 1], s) + if txs[|txs| - 1].sender == s then Weigh(m, txs[|txs| - 1]) else 0
  }

  /** What the transactions of one sender can cost. */
  function PendingOf(dynamic: bool, txs: seq<Tx>, s: Addr): int { SumOf(Debits(dynamic), txs, s) }

  /** Under the dynamic model a pool transaction that pays a fee offers a positive one. */
  predicate Payable(dynamic: bool, tx: Tx) {
    ValidPayload(tx) && (dynamic && Weight(tx.payload) > 0 ==> tx.maxFee > 0)
  }

  predicate AllPayable(dynamic: bool, txs: seq<Tx>) { forall i | 0 <= i < |txs| :: Payable(dynamic, txs[i]) }

  lemma DebitNonNegative(dynamic: bool, tx: Tx)
    requires Payable(dynamic, tx)
    ensures MaxDebit(dynamic, tx) >= 0
  {
    if dynamic && Weight(tx.payload) > 0 { Fees.MulMono(0, tx.maxFee, Weight(tx.payload)); }
  }

  lemma {:induction false} SumAppend(m: Measure, a: seq<Tx>, b: seq<Tx>, s: Addr)
    ensures SumOf(m, a + b, s) == SumOf(m, a, s) + SumOf(m, b, s)
    decreases |b|
  {
    if b == [] {
      assert a + b == a;
    } else {
      var n := |b| - 1;
      assert (a + b)[..|a| + n] == a + b[..n] && (a + b)[|a| + n] == b[n];
      SumAppend(m, a, b[..n], s);
    }
  }

  lemma {:induction false} PendingNonNegative(dynamic: bool, txs: seq<Tx>, s: Addr)
    requires AllPayable(dynamic, txs)
    ensures PendingOf(dynamic, txs, s) >= 0
    decreases |txs|
  {
    if txs != [] {
      PendingNonNegative(dynamic, txs[..|txs| - 1], s);
      DebitNonNegative(dynamic, txs[|txs| - 1]);
    }
  }

  lemma SumFirst(m: Measure, txs: seq<Tx>, s: Addr)
    requires txs != []
    ensures SumOf(m, txs, s) == (if txs[0].sender == s then Weigh(m, txs[0]) else 0) + SumOf(m, txs[1..], s)
  {
    assert txs == [txs[0]] + txs[1..];
    SumAppend(m, [txs[0]], txs[1..], s);
    assert [txs[0]][..0] == [];
  }

  lemma SumOneMore(m: Measure, txs: seq<Tx>, tx: Tx, s: Addr)
    ensures SumOf(m, txs + [tx], s) == SumOf(m, txs, s) + if tx.sender == s then Weigh(m, tx) else 0
  {
    assert (txs + [tx])[..|txs|] == txs;
  }

  // ---- Removing mined transactions ----

  /** A pool without the transactions that carry one of the ids, in the same order. */
  function Without(txs: seq<Tx>, ids: set<TxId>): seq<Tx> {
    if txs == [] then [] else
    Without(txs[..|txs| - 1], ids) + if txs[|txs| - 1].id in ids then [] else [txs[|txs| - 1]]
  }

  function IdSet(txs: seq<Tx>): set<TxId> { set i | 0 <= i < |txs| :: txs[i].id }

  lemma {:induction false} WithoutMembers(txs: seq<Tx>, ids: set<TxId>)
    ensures forall tx :: tx in Without(txs, ids) <==> tx in txs && tx.id !in ids
    ensures DistinctIds(txs) ==> DistinctIds(Without(txs, ids))
    decreases |txs|
  {
    if txs != [] {
      var n := |txs| - 1;
      WithoutMembers(txs[..n], ids);
      assert txs == txs[..n] + [txs[n]];
      if DistinctIds(txs) {
        var kept := Without(txs[..n], ids);
        forall i | 0 <= i < |kept| ensures kept[i].id != txs[n].id {
          assert kept[i] in txs[..n];
          var j :| 0 <= j < n && txs[..n][j] == kept[i];
        }
      }
    }
  }

  lemma {:induction false} WithoutTwice(txs: seq<Tx>, a: set<TxId>, b: set<TxId>)
    ensures Without(Without(txs, a), b) == Without(txs, a + b)
    decreases |txs|
  {
    if txs != [] {
      var n := |txs| - 1;
      WithoutTwice(txs[..n], a, b);
      if txs[n].id !in a {
        var kept := Without(txs[..n], a);
        assert Without(txs, a) == kept + [txs[n]];
        assert (kept + [txs[n]])[..|kept|] == kept;
      } else {
        assert Without(txs, a) == Without(txs[..n], a);
      }
    }
  }

  lemma {:induction false} WithoutNone(txs: seq<Tx>, ids: set<TxId>)
    requires forall i | 0 <= i < |txs| :: txs[i].id !in ids
    ensures Without(txs, ids) == txs
    decreases |txs|
  {
    if txs != [] {
      var n := |txs| - 1;
      WithoutNone(txs[..n], ids);
      assert txs == txs[..n] + [txs[n]];
    }
  }

  lemma WithoutLast(front: seq<Tx>, last: Tx, ids: set<TxId>)
    ensures Without(front + [last], ids) == if last.id in ids then Without(front, ids) else Without(front, ids) + [last]
  {
    assert (front + [last])[..|front|] == front;
  }

  /** Taking one transaction out takes exactly its share out. */
  lemma {:induction false} WithoutOne(m: Measure, txs: seq<Tx>, tx: Tx, s: Addr)
    requires DistinctIds(txs) && tx in txs
    ensures SumOf(m, Without(txs, {tx.id}), s) == SumOf(m, txs, s) - if tx.sender == s then Weigh(m, tx) else 0
    decreases |txs|
  {
    hide Without, SumOf, Weigh;
    var n := |txs| - 1;
    var last, front := txs[n], txs[..n];
    assert txs == front + [last];
    WithoutLast(front, last, {tx.id});
    SumOneMore(m, front, last, s);
    if last.id == tx.id {
      var i :| 0 <= i < |txs| && txs[i] == tx;
      assert i == n;
      WithoutNone(front, {tx.id});
    } else {
      assert tx in front;
      WithoutOne(m, front, tx, s);
      SumOneMore(m, Without(front, {tx.id}), last, s);
    }
  }

  /** The transactions of a block are all in the pool. */
  predicate Drawn(pool: seq<Tx>, txs: seq<Tx>) {
    DistinctIds(txs) && forall i | 0 <= i < |txs| :: txs[i] in pool
  }

  /** Draining a block takes exactly the shares of its transactions out. */
  lemma {:induction false} DrainedSum(m: Measure, pool: seq<Tx>, txs: seq<Tx>, s: Addr)
    requires DistinctIds(pool) && Drawn(pool, txs)
    ensures SumOf(m, Without(pool, IdSet(txs)), s) == SumOf(m, pool, s) - SumOf(m, txs, s)
    decreases |txs|
  {
    if txs == [] {
      assert IdSet(txs) == {};
      WithoutNone(pool, {});
    } else {
      var tx, rest := txs[0], txs[1..];
      var left := Without(pool, {tx.id});
      WithoutMembers(pool, {tx.id});
      WithoutOne(m, pool, tx, s);
      forall i | 0 <= i < |rest| ensures rest[i] in left { assert rest[i] == txs[i + 1]; }
      DrainedSum(m, left, rest, s);
      WithoutTwice(pool, {tx.id}, IdSet(rest));
      IdSetFirst(txs);
      SumFirst(m, txs, s);
    }
  }

  lemma IdSetFirst(txs: seq<Tx>)
    requires txs != []
    ensures IdSet(txs) == {txs[0].id} + IdSet(txs[1..])
  {
    forall id ensures id in IdSet(txs) <==> id == txs[0].id || id in IdSet(txs[1..]) {
      if id in IdSet(txs[1..]) { var i :| 0 <= i < |txs[1..]| && txs[1..][i].id == id; assert txs[i + 1].id == id; }
      if i :| 1 <= i < |txs| && txs[i].id == id { assert txs[1..][i - 1].id == id; }
    }
  }

  // ---- Paying for a block ----

  /** The base fee of the block is within what each of its transactions offers. */
  predicate FeeWithin(activation: int, b: Block, tx: Tx) {
    IsDynamic(activation, b) ==> b.baseFee >= 0 && (Weight(tx.payload) > 0 ==> b.baseFee <= tx.maxFee)
  }

  lemma FeeWithinDebit(activation: int, b: Block, tx: Tx)
    requires FeeWithin(activation, b, tx) && Payable(IsDynamic(activation, b), tx)
    ensures 0 <= FeeOf(activation, b, tx) <= MaxDebit(IsDynamic(activation, b), tx) - Amount(tx)
    ensures Amount(tx) == Spent(tx) >= 0 && 0 <= ShareOf(activation, b, FeeOf(activation, b, tx))
  {
    if IsDynamic(activation, b) {
      Fees.MulMono(0, b.baseFee, Weight(tx.payload));
    }
  }

  /** The maximal debit is not more than needed: a block whose base fee is all that the transaction
      offers, or any block under the legacy model, takes just that. */
  lemma MaxDebitReached(activation: int, b: Block, tx: Tx)
    requires Payable(IsDynamic(activation, b), tx) && (IsDynamic(activation, b) ==> b.baseFee == tx.maxFee)
    ensures FeeOf(activation, b, tx) + Spent(tx) == MaxDebit(IsDynamic(activation, b), tx)
  {}

  /** A transaction whose sender can cover its maximal debit goes through, and takes no more. */
  lemma PaidTx(m: Money, activation: int, b: Block, tx: Tx, s: Addr)
    requires FeeWithin(activation, b, tx) && Payable(IsDynamic(activation, b), tx)
    requires MaxDebit(IsDynamic(activation, b), tx) <= Get(m.bal, tx.sender)
    ensures MoneyTx(m, activation, b, tx).1
    ensures Get(MoneyTx(m, activation, b, tx).0.bal, s) >=
            Get(m.bal, s) - if tx.sender == s then MaxDebit(IsDynamic(activation, b), tx) else 0
  {
    FeeWithinDebit(activation, b, tx);
    var fee := FeeOf(activation, b, tx);
    var share := ShareOf(activation, b, fee);
    var debited := Add(m.bal, tx.sender, -fee);
    PutGets(m.bal, tx.sender, Get(m.bal, tx.sender) - fee, s);
    PutGets(m.bal, tx.sender, Get(m.bal, tx.sender) - fee, b.validator);
    PutGets(m.bal, tx.sender, Get(m.bal, tx.sender) - fee, tx.sender);
    var paid := Add(debited, b.validator, share);
    PutGets(debited, b.validator, Get(debited, b.validator) + share, s);
    PutGets(debited, b.validator, Get(debited, b.validator) + share, tx.sender);
    SpendTakes(m.(bal := paid), tx, s);
    SpendTakes(PayFee(m, activation, b, tx).0, tx, s);
  }

  lemma SpendTakes(m: Money, tx: Tx, s: Addr)
    requires Spent(tx) >= 0 && Spent(tx) <= Get(m.bal, tx.sender)
    ensures Spend(m, tx).1 && Get(Spend(m, tx).0.bal, s) >= Get(m.bal, s) - if tx.sender == s then Spent(tx) else 0
  {
    PutGets(m.bal, tx.sender, Get(m.bal, tx.sender) - Spent(tx), s);
    if tx.payload.Transfer? {
      var left := Add(m.bal, tx.sender, -Spent(tx));
      PutGets(left, tx.payload.recipient, Get(left, tx.payload.recipient) + Spent(tx), s);
    }
  }

  /** No debit of a block fails when each sender can cover what its transactions may cost at
      most, and no one is left with less than that. */
  lemma {:induction false} PaidTxs(m: Money, activation: int, b: Block, txs: seq<Tx>, a: Addr)
    requires AllPayable(IsDynamic(activation, b), txs) && forall i | 0 <= i < |txs| :: FeeWithin(activation, b, txs[i])
    requires forall s :: PendingOf(IsDynamic(activation, b), txs, s) <= Get(m.bal, s)
    ensures MoneyTxs(m, activation, b, txs).1
    ensures Get(MoneyTxs(m, activation, b, txs).0.bal, a) >= Get(m.bal, a) - PendingOf(IsDynamic(activation, b), txs, a)
    decreases |txs|
  {
    if txs != [] {
      var dynamic := IsDynamic(activation, b);
      var n := MoneyTx(m, activation, b, txs[0]).0;
      SumFirst(Debits(dynamic), txs, txs[0].sender);
      PendingNonNegative(dynamic, txs[1..], txs[0].sender);
      forall s ensures PendingOf(dynamic, txs[1..], s) <= Get(n.bal, s) {
        SumFirst(Debits(dynamic), txs, s);
        PaidTx(m, activation, b, txs[0], s);
      }
      PaidTx(m, activation, b, txs[0], a);
      SumFirst(Debits(dynamic), txs, a);
      PaidTxs(n, activation, b, txs[1..], a);
    }
  }

  // ---- Over a whole block ----

  lemma {:induction false} MatureNeverTakes(bal: map<Addr, int>, es: seq<Entry>, index: int, a: Addr)
    requires forall e <- es :: e.amount > 0
    ensures Get(MatureCredits(bal, es, index), a) >= Get(bal, a)
    decreases |es|
  {
    if es != [] {
      var next := if es[0].release <= index then Add(bal, es[0].staker, es[0].amount) else bal;
      PutGets(bal, es[0].staker, Get(bal, es[0].staker) + es[0].amount, a);
      MatureNeverTakes(next, es[1..], index, a);
    }
  }

  /** What an account pays out at the epoch boundary that a block crosses, if it crosses one. */
  ghost function PaidAt(s: State, index: int, a: Addr): int {
    if AtBoundary(s, index) && a in s.staking.stakes then EpochPayout.Paid(TermsOf(Mature(s, index)), a) else 0
  }

  lemma OpeningTakes(s: State, height: int, a: Addr)
    requires WellFormed(s, height)
    ensures PaidAt(s, height + 1, a) >= 0
    ensures Get(Opening(s, height + 1).money.bal, a) >= Get(s.money.bal, a) - PaidAt(s, height + 1, a)
  {
    var m := Mature(s, height + 1);
    MatureNeverTakes(s.money.bal, s.staking.unbonding, height + 1, a);
    MatureCreditsKeep(s.money.bal, s.staking.unbonding, height + 1);
    TermsValid(m);
    EpochPayout.PaidNonNegative(TermsOf(m), a);
    if AtBoundary(s, height + 1) {
      EpochPayout.PayAllGets(TermsOf(m), m.money.bal, m.staking.stakes.Keys, a);
      EpochPayout.ReceivedNonNegative(TermsOf(m), a, m.staking.stakes.Keys);
    }
  }

  /** The balance of an account covers what it pays out at the boundary and what its transactions
      may cost. */
  ghost predicate Affords(s: State, index: int, dynamic: bool, txs: seq<Tx>, a: Addr) {
    PendingOf(dynamic, txs, a) + PaidAt(s, index, a) <= Get(s.money.bal, a)
  }

  /** Every sender of some transactions affords them. */
  ghost predicate AllAfford(s: State, index: int, dynamic: bool, txs: seq<Tx>) {
    forall a :: PendingOf(dynamic, txs, a) > 0 ==> Affords(s, index, dynamic, txs, a)
  }

  lemma DrawnPayable(dynamic: bool, pool: seq<Tx>, txs: seq<Tx>)
    requires AllPayable(dynamic, pool) && Drawn(pool, txs)
    ensures AllPayable(dynamic, txs) && AllPayable(dynamic, Without(pool, IdSet(txs)))
  {
    WithoutMembers(pool, IdSet(txs));
    forall i | 0 <= i < |txs| ensures Payable(dynamic, txs[i]) { assert txs[i] in pool; }
    var kept := Without(pool, IdSet(txs));
    forall i | 0 <= i < |kept| ensures Payable(dynamic, kept[i]) { assert kept[i] in pool; }
  }

  /** After the opening of a block the balances still cover what it may cost those who afford it. */
  lemma OpeningCovers(s: State, height: int, dynamic: bool, txs: seq<Tx>, a: Addr)
    requires WellFormed(s, height) && AllAfford(s, height + 1, dynamic, txs)
    ensures PendingOf(dynamic, txs, a) <= Get(Opening(s, height + 1).money.bal, a)
  {
    OpeningKeeps(s, height);
    OpeningTakes(s, height, a);
  }

  lemma DrainedCovers(s: State, height: int, dynamic: bool, txs: seq<Tx>, pool: seq<Tx>, a: Addr)
    requires WellFormed(s, height) && DistinctIds(pool) && Drawn(pool, txs)
    requires Affords(s, height + 1, dynamic, pool, a)
    ensures PendingOf(dynamic, Without(pool, IdSet(txs)), a) <=
            Get(Opening(s, height + 1).money.bal, a) - PendingOf(dynamic, txs, a)
  {
    DrainedSum(Debits(dynamic), pool, txs, a);
    OpeningTakes(s, height, a);
  }

  /** Away from epoch boundaries a solvent pool affords whatever is drawn from it. */
  lemma SolventAffords(s: State, index: int, dynamic: bool, pool: seq<Tx>, txs: seq<Tx>)
    requires !AtBoundary(s, index) && DistinctIds(pool) && Drawn(pool, txs) && AllPayable(dynamic, pool)
    requires forall a :: PendingOf(dynamic, pool, a) <= Get(s.money.bal, a)
    ensures AllAfford(s, index, dynamic, txs) && forall a :: Affords(s, index, dynamic, pool, a)
  {
    DrawnPayable(dynamic, pool, txs);
    forall a | PendingOf(dynamic, txs, a) > 0 ensures Affords(s, index, dynamic, txs, a) {
      DrainedSum(Debits(dynamic), pool, txs, a);
      PendingNonNegative(dynamic, Without(pool, IdSet(txs)), a);
    }
  }

  lemma ClosingNeverTakes(s: State, b: Block, a: Addr)
    ensures Get(Closing(s, b).money.bal, a) >= Get(s.money.bal, a)
  {
    PutGets(s.money.bal, b.validator, Get(s.money.bal, b.validator) + BlockReward(b.index, s.money.minted), a);
  }

  /** Pool solvency: a block drawn from a pool never fails for want of money, only for its token
      checks, when its own senders afford it; and whoever affords all it has in the pool can
      still cover what is left of it in the drained pool. */
  lemma SolventThroughBlock(s: State, height: int, activation: int, b: Block, pool: seq<Tx>, a: Addr)
    requires WellFormed(s, height) && b.index == height + 1 && DistinctIds(pool) && Drawn(pool, b.txs)
    requires AllPayable(IsDynamic(activation, b), pool)
    requires forall i | 0 <= i < |b.txs| :: FeeWithin(activation, b, b.txs[i])
    requires AllAfford(s, b.index, IsDynamic(activation, b), b.txs)
    ensures Apply(s, activation, b).1 == TxFailed <==> !TokenTxs(s.tokens, b.index, b.txs).1
    ensures Apply(s, activation, b).1 != TxFailed && Affords(s, b.index, IsDynamic(activation, b), pool, a) ==>
              PendingOf(IsDynamic(activation, b), Without(pool, IdSet(b.txs)), a) <=
              Get(Apply(s, activation, b).0.money.bal, a)
  {
    hide Apply, WellFormed, AllAfford, Affords, FeeWithin, Opening, Closing, Drawn, IsDynamic, AllPayable;
    ApplyFails(s, activation, b);
    var dynamic, o := IsDynamic(activation, b), Opening(s, b.index);
    DrawnPayable(dynamic, pool, b.txs);
    forall x ensures PendingOf(dynamic, b.txs, x) <= Get(o.money.bal, x) {
      OpeningCovers(s, height, dynamic, b.txs, x);
    }
    if Affords(s, b.index, dynamic, pool, a) { DrainedCovers(s, height, dynamic, b.txs, pool, a); }
    PaidTxs(o.money, activation, b, b.txs, a);
    OpeningTokens(s, height);
    LedgerTxsParts(o, activation, b, b.txs);
    ClosingNeverTakes(LedgerTxs(o, activation, b, b.txs).0, b, a);
  }

  // ---- Where solvency does not help ----

  /** A state just before an epoch boundary: v has one delegator, rewards to share, and just the
      legacy fee of a notarization on its balance. */
  function Payer(v: Addr, d: Addr): State {
    State(Money(map[v := 10_000_000], 0, 0), Staking(map[v := map[d := 1]], map[v := 1], [], {v}, map[], {}),
          Tokens(map[], map[], map[]), NotaryLedger.Notary(map[], map[], map[]), map[], map[v := 10], 0)
  }

  lemma PayerOk(v: Addr, d: Addr)
    ensures WellFormed(Payer(v, d), EPOCH_LENGTH - 1)
  {
    var s := Payer(v, d);
    assert d in map[d := 1];
    forall id ensures Sum(HoldingsOf(s.tokens.bal, id)) == MintedOf(s.tokens, id) {
      assert HoldingsOf(s.tokens.bal, id) == map[];
    }
  }

  lemma PayerTerms(v: Addr, d: Addr)
    ensures Mature(Payer(v, d), EPOCH_LENGTH) == Payer(v, d)
    ensures TermsOf(Payer(v, d)) ==
            EpochPayout.Terms(map[v := map[d := 1]], map[], map[v := 10], map[v := 10_000_000])
  {
    assert TermsOf(Payer(v, d)).snapshot == map[v := 10_000_000];
  }

  /** What v pays in that state: nine of its ten coins of rewards, the rest is its commission. */
  lemma PayerPays(v: Addr, d: Addr)
    requires v != d
    ensures PaidAt(Payer(v, d), EPOCH_LENGTH, v) == 9
    ensures Get(Opening(Payer(v, d), EPOCH_LENGTH).money.bal, v) == 9_999_991
  {
    hide WellFormed, EpochPayout.ValidTerms, EpochPayout.Paid, EpochPayout.Received, EpochPayout.Payout;
    hide Mature, TermsOf;
    var s := Payer(v, d);
    var t := TermsOf(s);
    PayerTerms(v, d);
    PayerShares(t, v, d);
    assert s.staking.stakes.Keys == {v};
    PayerPayout(t, s.money.bal, v);
  }

  lemma PayerPayout(t: EpochPayout.Terms, bal: map<Addr, int>, v: Addr)
    requires t.stakes.Keys == {v} && Canonical(bal)
    ensures Get(EpochPayout.Payout(t, bal), v) == Get(bal, v) + EpochPayout.Received(t, v, {v}) - EpochPayout.Paid(t, v)
  {
    EpochPayout.PayAllGets(t, bal, {v}, v);
  }

  lemma PayerShares(t: EpochPayout.Terms, v: Addr, d: Addr)
    requires v != d && t == EpochPayout.Terms(map[v := map[d := 1]], map[], map[v := 10], map[v := 10_000_000])
    ensures EpochPayout.Paid(t, v) == 9 && EpochPayout.Received(t, v, {v}) == 0
  {
    assert EpochPayout.Delegators(t, v) == map[d := 1];
    SumPut<Addr>(map[], d, 1);
    assert map[][d := 1] == map[d := 1];
    assert EpochPayout.PoolOf(t, v) == 9 && EpochPayout.ShareFor(t, v, d) == 9;
    SumPut<Addr>(map[], d, 9);
    assert EpochPayout.Shares(t, v) == map[][d := 9];
    SumPut<Addr>(map[], v, 0);
    assert EpochPayout.ReceivedFrom(t, v, {v}) == map[][v := 0];
  }

  function Notarization(v: Addr): Tx { Tx("t", v, 0, 0, 0, Notarize("doc")) }

  lemma NotarizationCosts(v: Addr, a: Addr)
    ensures PendingOf(false, [Notarization(v)], a) == if a == v then 10_000_000 else 0
  {
    SumOneMore(Debits(false), [], Notarization(v), a);
    assert [] + [Notarization(v)] == [Notarization(v)];
  }

  lemma NotarizationFails(m: Money, activation: int, b: Block, v: Addr)
    requires Get(m.bal, v) < 10_000_000 && b.txs == [Notarization(v)] && b.index < activation
    ensures !MoneyTxs(m, activation, b, b.txs).1
  {
    assert !MoneyTx(m, activation, b, b.txs[0]).1;
  }

  /** A solvent pool at an epoch boundary: the payout comes before the transactions, so the one
      the validator could pay for when it was admitted fails. */
  lemma PayoutComesFirst(v: Addr, d: Addr, activation: int, proposer: Addr)
    requires v != d && activation > EPOCH_LENGTH
    ensures var tx := Notarization(v);
            var s, b := Payer(v, d), Block(EPOCH_LENGTH, proposer, 0, [tx], None, true);
            && WellFormed(s, EPOCH_LENGTH - 1) && AllPayable(false, [tx]) && Drawn([tx], b.txs)
            && FeeWithin(activation, b, tx) && (forall a :: PendingOf(false, [tx], a) <= Get(s.money.bal, a))
            && Apply(s, activation, b).1 == TxFailed && TokenTxs(s.tokens, b.index, b.txs).1
  {
    hide Opening, PendingOf, WellFormed, MoneyTxs;
    var tx := Notarization(v);
    var s, b := Payer(v, d), Block(EPOCH_LENGTH, proposer, 0, [tx], None, true);
    PayerOk(v, d);
    PayerPays(v, d);
    forall a ensures PendingOf(false, [tx], a) <= Get(s.money.bal, a) { NotarizationCosts(v, a); }
    NotarizationFails(Opening(s, EPOCH_LENGTH).money, activation, b, v);
    LedgerTxsParts(Opening(s, EPOCH_LENGTH), activation, b, b.txs);
    ApplyFails(s, activation, b);
    assert [tx][1..] == [];
  }

  lemma OpeningTokens(s: State, height: int)
    requires WellFormed(s, height)
    ensures Opening(s, height + 1).tokens == s.tokens
  {
    OpeningKeeps(s, height);
  }

  // ---- Token admission ----

  function PendingMint(txs: seq<Tx>, id: TokenId): int {
    if txs == [] then 0 else
    var last := txs[|txs| - 1];
    PendingMint(txs[..|txs| - 1], id) + if last.payload.MintToken? &&
      last.payload.tokenId == id then last.payload.amount else 0
  }

  function PendingSent(txs: seq<Tx>, id: TokenId, s: Addr): int {
    if txs == [] then 0 else
    var last := txs[|txs| - 1];
    PendingSent(txs[..|txs| - 1], id, s)
    + if last.payload.TransferToken? && last.payload.tokenId == id && last.sender == s then last.payload.amount else 0
  }

  /** A symbol no one has or is about to have, a mint by the issuer within its cap, a transfer
      of what is not yet promised. */
  predicate TokenAdmissible(t: Tokens, pool: seq<Tx>, tx: Tx) {
    match tx.payload
    case IssueToken(_, symbol, _, _) => symbol !in t.bySymbol && !SymbolIssuedIn(pool, symbol)
    case MintToken(id, _, a) =>
      && id in t.registry && t.registry[id].issuer == tx.sender
      && (t.registry[id].maxSupply > 0 ==>
         t.registry[id].minted + PendingMint(pool, id) + a <= t.registry[id].maxSupply)
    case TransferToken(id, _, a) =>
      id in t.registry && t.registry[id].transferable &&
        Get(t.bal, (id, tx.sender)) - PendingSent(pool, id, tx.sender) >= a
    case _ => true
  }

  /** What a list of transactions takes from one holding, and what it adds to one supply. */
  function TakenFrom(txs: seq<Tx>, k: Account): int {
    if txs == [] then 0 else
    TakenFrom(txs[..|txs| - 1], k) + Max(0, -HoldingDelta(txs[|txs| - 1], k))
  }

  function AddedTo(txs: seq<Tx>, id: TokenId): int {
    if txs == [] then 0 else AddedTo(txs[..|txs| - 1], id) + MintDelta(txs[|txs| - 1], id)
  }

  /** The pending amounts are those a block of the same transactions would move. */
  lemma {:induction false} PendingIsMoved(txs: seq<Tx>, id: TokenId, s: Addr)
    requires ValidPayloads(txs)
    ensures PendingSent(txs, id, s) == TakenFrom(txs, (id, s)) && PendingMint(txs, id) == AddedTo(txs, id)
    decreases |txs|
  {
    if txs != [] {
      var last := txs[|txs| - 1];
      PendingIsMoved(txs[..|txs| - 1], id, s);
      assert ValidPayload(last);
    }
  }

  /** The same of the pool with the transaction in it: no symbol is issued twice, what the issuer
      mints of a capped token fits the cap, and what a holder sends of a transferable token is
      covered by its balance. */
  lemma TokenAdmissibleIff(t: Tokens, pool: seq<Tx>, tx: Tx)
    ensures var p := tx.payload;
            && (p.IssueToken? ==>
                 (TokenAdmissible(t, pool, tx) <==>
                   p.symbol !in t.bySymbol && forall i | 0 <= i < |pool| :: !IssuesSymbol(pool[i], p.symbol)))
            && (p.MintToken? ==>
                 (TokenAdmissible(t, pool, tx) <==>
                   && p.tokenId in t.registry && t.registry[p.tokenId].issuer == tx.sender
                   && (t.registry[p.tokenId].maxSupply > 0 ==>
                        MintedOf(t, p.tokenId) + PendingMint(pool + [tx], p.tokenId)
                          <= t.registry[p.tokenId].maxSupply)))
            && (p.TransferToken? ==>
                 (TokenAdmissible(t, pool, tx) <==>
                   && p.tokenId in t.registry && t.registry[p.tokenId].transferable
                   && PendingSent(pool + [tx], p.tokenId, tx.sender) <= Get(t.bal, (p.tokenId, tx.sender))))
  {
    assert (pool + [tx])[..|pool|] == pool;
  }

  // ---- One more transaction ----

  lemma FeePositive(maxFee: int, w: nat)
    requires maxFee > 0 && w > 0
    ensures maxFee * w > 0
  {
    Fees.MulMono(1, maxFee, w);
  }

  lemma PayableOnceAccepted(activation: int, parent: Block, dynamic: bool, tx: Tx)
    requires ValidPayload(tx) &&
             (dynamic && Weight(tx.payload) > 0 ==> tx.maxFee >= Fees.ExpectedBaseFee(activation, parent))
    ensures Payable(dynamic, tx)
  {}

  // ---- NoncesFrom and nonces ----

  /** The number of transactions of one sender. */
  function CountOf(txs: seq<Tx>, s: Addr): nat { Validation.CountBefore(txs, |txs|, s) }

  lemma {:induction false} CountIsSum(txs: seq<Tx>, i: nat, s: Addr)
    requires i <= |txs|
    ensures Validation.CountBefore(txs, i, s) == SumOf(Ones, txs[..i], s)
    decreases i
  {
    if i > 0 {
      assert txs[..i][..i - 1] == txs[..i - 1];
      CountIsSum(txs, i - 1, s);
    }
  }

  lemma CountsAreSums(txs: seq<Tx>, s: Addr)
    ensures CountOf(txs, s) == SumOf(Ones, txs, s)
  {
    CountIsSum(txs, |txs|, s);
    assert txs[..|txs|] == txs;
  }

  // ---- The transactions of one sender ----

  function Of(txs: seq<Tx>, s: Addr): seq<Tx> {
    if txs == [] then [] else
    Of(txs[..|txs| - 1], s) + if txs[|txs| - 1].sender == s then [txs[|txs| - 1]] else []
  }

  lemma OfLast(front: seq<Tx>, last: Tx, s: Addr)
    ensures Of(front + [last], s) == if last.sender == s then Of(front, s) + [last] else Of(front, s)
  {
    assert (front + [last])[..|front|] == front;
  }

  lemma {:induction false} OfAppend(a: seq<Tx>, b: seq<Tx>, s: Addr)
    ensures Of(a + b, s) == Of(a, s) + Of(b, s)
    decreases |b|
  {
    if b == [] {
      assert a + b == a;
    } else {
      var n := |b| - 1;
      assert a + b == (a + b[..n]) + [b[n]];
      OfAppend(a, b[..n], s);
      OfLast(a + b[..n], b[n], s);
    }
  }

  /** What is sent by one sender only. */
  lemma {:induction false} OfSame(txs: seq<Tx>, from: Addr, s: Addr)
    requires forall i | 0 <= i < |txs| :: txs[i].sender == from
    ensures Of(txs, s) == if s == from then txs else []
    decreases |txs|
  {
    if txs != [] {
      var n := |txs| - 1;
      OfSame(txs[..n], from, s);
      assert txs == txs[..n] + [txs[n]];
    }
  }

  lemma {:induction false} OfNone(txs: seq<Tx>, s: Addr)
    requires forall i | 0 <= i < |txs| :: txs[i].sender != s
    ensures Of(txs, s) == []
    decreases |txs|
  {
    if txs != [] { OfNone(txs[..|txs| - 1], s); }
  }

  lemma {:induction false} OfLength(txs: seq<Tx>, i: nat, s: Addr)
    requires i <= |txs|
    ensures |Of(txs[..i], s)| == Validation.CountBefore(txs, i, s)
    decreases i
  {
    if i > 0 {
      OfLength(txs, i - 1, s);
      assert txs[..i] == txs[..i - 1] + [txs[i - 1]];
      OfLast(txs[..i - 1], txs[i - 1], s);
    }
  }

  /** A transaction stands in its sender's queue behind as many as were sent before it. */
  lemma {:induction false} OfAt(txs: seq<Tx>, n: nat, i: nat)
    requires i < n <= |txs|
    ensures var s := txs[i].sender; var k := Validation.CountBefore(txs, i, s);
            k < |Of(txs[..n], s)| && Of(txs[..n], s)[k] == txs[i]
    decreases n
  {
    hide Of, Validation.CountBefore;
    var s := txs[i].sender;
    assert txs[..n] == txs[..n - 1] + [txs[n - 1]];
    OfLast(txs[..n - 1], txs[n - 1], s);
    if i == n - 1 { OfLength(txs, i, s); } else { OfAt(txs, n - 1, i); }
  }

  lemma {:induction false} OfFrom(txs: seq<Tx>, n: nat, s: Addr, k: nat) returns (i: nat)
    requires n <= |txs| && k < |Of(txs[..n], s)|
    ensures i < n && txs[i].sender == s && Validation.CountBefore(txs, i, s) == k && Of(txs[..n], s)[k] == txs[i]
    decreases n
  {
    assert n > 0 && txs[..n] == txs[..n - 1] + [txs[n - 1]];
    OfLast(txs[..n - 1], txs[n - 1], s);
    if k < |Of(txs[..n - 1], s)| {
      i := OfFrom(txs, n - 1, s, k);
    } else {
      OfLength(txs, n - 1, s);
      i := n - 1;
    }
  }

  predicate NoncesFrom(q: seq<Tx>, from: int) { forall k | 0 <= k < |q| :: q[k].nonce == from + k }

  /** Nonces are in order exactly when each sender's are. */
  lemma InOrderIff(txs: seq<Tx>, next: map<Addr, int>)
    ensures Validation.NoncesInOrder(txs, next) <==> forall s :: NoncesFrom(Of(txs, s), Get(next, s))
  {
    if Validation.NoncesInOrder(txs, next) {
      forall s, k | 0 <= k < |Of(txs, s)| ensures Of(txs, s)[k].nonce == Get(next, s) + k {
        assert txs[..|txs|] == txs;
        var i := OfFrom(txs, |txs|, s, k);
      }
    }
    if forall s :: NoncesFrom(Of(txs, s), Get(next, s)) {
      forall i | 0 <= i < |txs|
        ensures txs[i].nonce == Get(next, txs[i].sender) + Validation.CountBefore(txs, i, txs[i].sender)
      {
        assert txs[..|txs|] == txs;
        OfAt(txs, |txs|, i);
        assert NoncesFrom(Of(txs, txs[i].sender), Get(next, txs[i].sender));
      }
    }
  }

  /** The block takes the head of every sender's queue. */
  ghost predicate TakesHeads(pool: seq<Tx>, txs: seq<Tx>) { forall s :: Of(txs, s) <= Of(pool, s) }

  /** A block drawn from a pool in nonce order has its nonces in order if and only if it takes
      the head of every sender's queue. */
  lemma HeadsInOrder(pool: seq<Tx>, txs: seq<Tx>, next: map<Addr, int>)
    requires Drawn(pool, txs) && Validation.NoncesInOrder(pool, next)
    ensures Validation.NoncesInOrder(txs, next) <==> TakesHeads(pool, txs)
  {
    hide Validation.NoncesInOrder;
    InOrderIff(pool, next);
    InOrderIff(txs, next);
    if Validation.NoncesInOrder(txs, next) {
      forall s ensures Of(txs, s) <= Of(pool, s) { HeadOfQueue(pool, txs, Get(next, s), s); }
    }
    if TakesHeads(pool, txs) {
      forall s ensures NoncesFrom(Of(txs, s), Get(next, s)) {
        assert Of(txs, s) <= Of(pool, s) && NoncesFrom(Of(pool, s), Get(next, s));
      }
    }
  }

  lemma HeadAt(pool: seq<Tx>, txs: seq<Tx>, from: int, s: Addr, k: nat)
    requires Drawn(pool, txs) && NoncesFrom(Of(pool, s), from) && NoncesFrom(Of(txs, s), from) && k < |Of(txs, s)|
    ensures k < |Of(pool, s)| && Of(txs, s)[k] == Of(pool, s)[k]
  {
    hide Of;
    assert txs[..|txs|] == txs && pool[..|pool|] == pool;
    var i := OfFrom(txs, |txs|, s, k);
    assert txs[i] in pool;
    var j :| 0 <= j < |pool| && pool[j] == txs[i];
    OfAt(pool, |pool|, j);
  }

  lemma HeadOfQueue(pool: seq<Tx>, txs: seq<Tx>, from: int, s: Addr)
    requires Drawn(pool, txs) && NoncesFrom(Of(pool, s), from) && NoncesFrom(Of(txs, s), from)
    ensures Of(txs, s) <= Of(pool, s)
  {
    hide Of, NoncesFrom;
    forall k | 0 <= k < |Of(txs, s)| ensures k < |Of(pool, s)| && Of(txs, s)[k] == Of(pool, s)[k] {
      HeadAt(pool, txs, from, s, k);
    }
    if Of(txs, s) != [] { HeadAt(pool, txs, from, s, |Of(txs, s)| - 1); }
  }

  /** Draining a pool drains each queue. */
  lemma {:induction false} OfWithout(pool: seq<Tx>, ids: set<TxId>, s: Addr)
    ensures Of(Without(pool, ids), s) == Without(Of(pool, s), ids)
    decreases |pool|
  {
    if pool != [] {
      hide Of, Without;
      var n := |pool| - 1;
      var front, last := pool[..n], pool[n];
      assert pool == front + [last];
      OfWithout(front, ids, s);
      WithoutLast(front, last, ids);
      OfLast(front, last, s);
      OfLast(Without(front, ids), last, s);
      WithoutLast(Of(front, s), last, ids);
    } else {
      assert Of(pool, s) == [];
    }
  }

  lemma OfMember(txs: seq<Tx>, s: Addr, tx: Tx)
    ensures tx in Of(txs, s) <==> tx in txs && tx.sender == s
  {
    assert txs[..|txs|] == txs;
    if tx in Of(txs, s) {
      var k :| 0 <= k < |Of(txs, s)| && Of(txs, s)[k] == tx;
      var i := OfFrom(txs, |txs|, s, k);
    }
    if tx in txs && tx.sender == s {
      var i :| 0 <= i < |txs| && txs[i] == tx;
      OfAt(txs, |txs|, i);
    }
  }

  lemma HeadMined(pool: seq<Tx>, txs: seq<Tx>, from: int, s: Addr, k: nat)
    requires DistinctIds(pool) && Drawn(pool, txs) && NoncesFrom(Of(pool, s), from) && Of(txs, s) <= Of(pool, s)
    requires k < |Of(pool, s)|
    ensures Of(pool, s)[k].id in IdSet(txs) <==> k < |Of(txs, s)|
  {
    hide Of;
    var q, tx := Of(pool, s), Of(pool, s)[k];
    OfMember(pool, s, tx);
    OfMember(txs, s, tx);
    if k < |Of(txs, s)| {
      assert Of(txs, s)[k] == tx;
      var i :| 0 <= i < |txs| && txs[i] == tx;
      assert txs[i].id in IdSet(txs);
    }
    if tx.id in IdSet(txs) {
      var i :| 0 <= i < |txs| && txs[i].id == tx.id;
      assert txs[i] in pool;
      SameId(pool, txs[i], tx);
      var m :| 0 <= m < |Of(txs, s)| && Of(txs, s)[m] == tx;
      assert q[m] == tx && q[m].nonce == from + m && q[k].nonce == from + k;
    }
  }

  /** Two members of a pool with the same id are the same transaction. */
  lemma SameId(pool: seq<Tx>, x: Tx, y: Tx)
    requires DistinctIds(pool) && x in pool && y in pool && x.id == y.id
    ensures x == y
  {
    var i :| 0 <= i < |pool| && pool[i] == x;
    var j :| 0 <= j < |pool| && pool[j] == y;
  }

  /** What a block leaves of a queue it took the head of. */
  lemma QueueLeft(pool: seq<Tx>, txs: seq<Tx>, from: int, s: Addr)
    requires DistinctIds(pool) && Drawn(pool, txs) && NoncesFrom(Of(pool, s), from) && Of(txs, s) <= Of(pool, s)
    ensures Of(Without(pool, IdSet(txs)), s) == Of(pool, s)[|Of(txs, s)|..]
  {
    hide Of, Without, IdSet, NoncesFrom;
    var q, n, ids := Of(pool, s), |Of(txs, s)|, IdSet(txs);
    forall k | 0 <= k < |q| ensures q[k].id in ids <==> k < n { HeadMined(pool, txs, from, s, k); }
    OfWithout(pool, ids, s);
    WithoutFrom(q, |q|, n, ids);
    assert q[..|q|] == q && q[n..|q|] == q[n..];
  }

  /** A drawn block whose nonces are in order leaves the drained pool in order. */
  lemma QueuedAfterBlock(pool: seq<Tx>, txs: seq<Tx>, next: map<Addr, int>)
    requires DistinctIds(pool) && Drawn(pool, txs) && Positive(next)
    requires Validation.NoncesInOrder(pool, next) && Validation.NoncesInOrder(txs, next)
    ensures Validation.NoncesInOrder(Without(pool, IdSet(txs)), Validation.Bump(next, txs))
  {
    var left, after := Without(pool, IdSet(txs)), Validation.Bump(next, txs);
    HeadsInOrder(pool, txs, next);
    InOrderIff(pool, next);
    forall s ensures NoncesFrom(Of(left, s), Get(after, s)) {
      assert Of(txs, s) <= Of(pool, s) && NoncesFrom(Of(pool, s), Get(next, s));
      QueueLeft(pool, txs, Get(next, s), s);
      NextAfterQueue(txs, next, s);
    }
    InOrderIff(left, after);
  }

  lemma NextAfterQueue(txs: seq<Tx>, next: map<Addr, int>, s: Addr)
    requires Positive(next) && Validation.NoncesInOrder(txs, next)
    ensures Get(Validation.Bump(next, txs), s) == Get(next, s) + |Of(txs, s)|
  {
    Validation.BumpGets(next, txs, s);
    Validation.NoncesOfPrefix(txs, |txs|, s, Get(next, s));
    OfLength(txs, |txs|, s);
    assert txs[..|txs|] == txs;
  }

  /** The head of a pool in nonce order is in nonce order. */
  lemma PrefixInOrder(pool: seq<Tx>, k: nat, next: map<Addr, int>)
    requires k <= |pool| && Validation.NoncesInOrder(pool, next)
    ensures Validation.NoncesInOrder(pool[..k], next)
  {
    forall i | 0 <= i < k ensures pool[i].nonce
      == Get(next, pool[i].sender) + Validation.CountBefore(pool[..k], i, pool[i].sender) {
      OfLength(pool, i, pool[i].sender);
      OfLength(pool[..k], i, pool[i].sender);
      assert pool[..k][..i] == pool[..i];
    }
  }

  lemma {:induction false} WithoutFrom(pool: seq<Tx>, n: nat, k: nat, ids: set<TxId>)
    requires k <= n <= |pool| && forall i | 0 <= i < |pool| :: pool[i].id in ids <==> i < k
    ensures Without(pool[..n], ids) == pool[k..n]
    ensures Without(pool[..k], ids) == []
    decreases n
  {
    WithoutAll(pool[..k], ids);
    if n > k {
      assert pool[..n][..n - 1] == pool[..n - 1];
      WithoutFrom(pool, n - 1, k, ids);
    }
  }

  lemma {:induction false} WithoutAll(txs: seq<Tx>, ids: set<TxId>)
    requires forall i | 0 <= i < |txs| :: txs[i].id in ids
    ensures Without(txs, ids) == []
    decreases |txs|
  {
    if txs != [] { WithoutAll(txs[..|txs| - 1], ids); }
  }
}
