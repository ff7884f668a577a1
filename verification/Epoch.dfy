/** The epoch payout, `_distribute_epoch_rewards` of qbit_network/core/staking.py, and its
    reversal in qbit_network/core/rollback.py. */
module EpochPayout {
  import opened Maps
  import opened Types
  import opened StakeLedger
  import Fees

  type Balances = map<Addr, int>

  /** What a payout reads: stakes, commissions, the rewards of the epoch and the balances
      frozen before it. */
  datatype Terms = Terms(stakes: Stakes, commission: map<Addr, int>, rewards: map<Addr, int>, snapshot: Balances)

  predicate ValidTerms(t: Terms) {
    && CanonicalStakes(t.stakes) && Positive(t.snapshot)
    && (forall v <- t.commission :: 0 <= t.commission[v] <= 100)
    && (forall v <- t.rewards :: t.rewards[v] >= 0)
  }

  function Rate(t: Terms, v: Addr): int {
    if v in t.commission then t.commission[v] else DEFAULT_COMMISSION_RATE
  }

  /** The stakes on v other than its own. */
  function Delegators(t: Terms, v: Addr): map<Addr, int> { Inner(t.stakes, v) - {v} }

  /** What v has to share: its rewards without its commission, capped by its balance. */
  function PoolOf(t: Terms, v: Addr): int {
    var r := Get(t.rewards, v);
    Min(r - r * Rate(t, v) / 100, Get(t.snapshot, v))
  }

  function Part(pool: int, stake: int, delegated: int): int {
    if delegated == 0 then 0 else pool * stake / delegated
  }

  ghost function ShareFor(t: Terms, v: Addr, d: Addr): int {
    if d in Delegators(t, v) then Part(PoolOf(t, v), Delegators(t, v)[d], Sum(Delegators(t, v))) else 0
  }

  ghost function SharesOf(t: Terms, v: Addr, ds: set<Addr>): map<Addr, int> {
    map d | d in ds :: if d in ds then ShareFor(t, v, d) else 0
  }

  ghost function Shares(t: Terms, v: Addr): map<Addr, int> { SharesOf(t, v, Delegators(t, v).Keys) }

  ghost function Paid(t: Terms, v: Addr): int { Sum(Shares(t, v)) }

  /** What a receives from the validators vs. */
  ghost function Received(t: Terms, a: Addr, vs: set<Addr>): int { Sum(ReceivedFrom(t, a, vs)) }

  ghost function ReceivedFrom(t: Terms, a: Addr, vs: set<Addr>): map<Addr, int> {
    map v | v in vs :: if v in vs then ShareFor(t, v, a) else 0
  }

  /** The balance of a once the validators vs have paid, in whatever order. */
  ghost function BalanceAfter(t: Terms, bal: Balances, a: Addr, vs: set<Addr>): int {
    Get(bal, a) + Received(t, a, vs) - if a in vs then Paid(t, a) else 0
  }

  // ---- Arithmetic of the shares ----

  lemma PartBounds(pool: int, stake: int, delegated: int)
    requires pool >= 0 && stake >= 0 && delegated > 0
    ensures 0 <= Part(pool, stake, delegated)
    ensures delegated * Part(pool, stake, delegated) <= pool * stake
    ensures pool * stake <= delegated * Part(pool, stake, delegated) + delegated - 1
  {
    var x := pool * stake;
    assert x >= 0 by { Fees.MulMono(0, pool, stake); }
    var q := x / delegated;
    assert x == q * delegated + x % delegated && q * delegated == delegated * q;
    Fees.DivMono(0, x, delegated);
  }

  function PartsOf(pool: int, m: map<Addr, int>, delegated: int): map<Addr, int> {
    map d | d in m :: Part(pool, m[d], delegated)
  }

  lemma PartsWithout(pool: int, m: map<Addr, int>, delegated: int, d: Addr)
    requires d in m
    ensures Sum(m) == m[d] + Sum(m - {d}) && |m| == |m - {d}| + 1
    ensures Sum(PartsOf(pool, m, delegated)) == Part(pool, m[d], delegated) + Sum(PartsOf(pool, m - {d}, delegated))
  {
    SumRemove(m, d);
    SumRemove(PartsOf(pool, m, delegated), d);
    assert PartsOf(pool, m, delegated) - {d} == PartsOf(pool, m - {d}, delegated);
    SizeWithout(m, d);
  }

  /** Over any part of the delegators the shares lose less than one coin each. */
  lemma {:induction false} PartsSum(pool: int, m: map<Addr, int>, delegated: int)
    requires pool >= 0 && delegated > 0 && Positive(m)
    ensures Sum(PartsOf(pool, m, delegated)) >= 0
    ensures delegated * Sum(PartsOf(pool, m, delegated)) <= pool * Sum(m)
    ensures pool * Sum(m) <= delegated * Sum(PartsOf(pool, m, delegated)) + (delegated - 1) * |m|
    decreases |m|
  {
    if m == map[] {
      assert PartsOf(pool, m, delegated) == map[];
    } else {
      var d :| d in m;
      PartsWithout(pool, m, delegated, d);
      PartsSum(pool, m - {d}, delegated);
      PartBounds(pool, m[d], delegated);
      PartsStep(pool, m[d], Sum(m - {d}), delegated, Part(pool, m[d], delegated),
                Sum(PartsOf(pool, m - {d}, delegated)), |m - {d}|);
    }
  }

  lemma PartsStep(pool: int, x: int, y: int, delegated: int, p: int, s: int, n: int)
    requires delegated * p <= pool * x <= delegated * p + delegated - 1
    requires delegated * s <= pool * y <= delegated * s + (delegated - 1) * n
    ensures delegated * (p + s) <= pool * (x + y) <= delegated * (p + s) + (delegated - 1) * (n + 1)
  {
    assert delegated * (p + s) == delegated * p + delegated * s;
    assert pool * (x + y) == pool * x + pool * y;
    assert (delegated - 1) * (n + 1) == (delegated - 1) * n + (delegated - 1);
  }

  lemma PoolBounds(t: Terms, v: Addr)
    requires ValidTerms(t)
    ensures 0 <= PoolOf(t, v) <= Get(t.snapshot, v) && PoolOf(t, v) <= Get(t.rewards, v)
  {
    var r, c := Get(t.rewards, v), Rate(t, v);
    Fees.MulMono(0, c, r);
    Fees.MulMono(c, 100, r);
    assert r * c == c * r && 0 <= r * c <= r * 100;
  }

  lemma SomeDelegated(ds: map<Addr, int>, d: Addr)
    requires Positive(ds) && d in ds
    ensures 0 < ds[d] <= Sum(ds) && |ds| > 0
  {
    SumBounds(ds);
    assert Get(ds, d) > 0;
  }

  lemma ShareNonNegative(t: Terms, v: Addr, d: Addr)
    requires ValidTerms(t)
    ensures 0 <= ShareFor(t, v, d)
  {
    var ds := Delegators(t, v);
    if d in ds {
      PoolBounds(t, v);
      SomeDelegated(ds, d);
      PartBounds(PoolOf(t, v), ds[d], Sum(ds));
    }
  }

  lemma SharesAreParts(t: Terms, v: Addr)
    ensures Shares(t, v) == PartsOf(PoolOf(t, v), Delegators(t, v), Sum(Delegators(t, v)))
  {}

  /** A validator pays at most its capped pool, and keeps less of it than one coin per
      delegator: the undistributed remainder is smaller than their number. */
  lemma PaidBounds(t: Terms, v: Addr)
    requires ValidTerms(t)
    ensures 0 <= Paid(t, v) <= PoolOf(t, v) <= Get(t.snapshot, v)
    ensures Delegators(t, v) != map[] ==> PoolOf(t, v) - Paid(t, v) < |Delegators(t, v)|
  {
    var ds, pool := Delegators(t, v), PoolOf(t, v);
    PoolBounds(t, v);
    SharesAreParts(t, v);
    if d :| d in ds {
      SomeDelegated(ds, d);
      PartsSum(pool, ds, Sum(ds));
      CancelFactor(Sum(ds), Paid(t, v), pool, |ds|);
    } else {
      assert Shares(t, v) == map[];
    }
  }

  /** What a validator owes its delegators under the commission it has registered, ten percent
      without one: what is left of its rewards, as far as its frozen balance covers it. */
  function Owed(t: Terms, v: Addr): int {
    var r := Get(t.rewards, v);
    var commission := if v in t.commission then r * t.commission[v] / 100 else r / 10;
    if r - commission <= Get(t.snapshot, v) then r - commission else Get(t.snapshot, v)
  }

  lemma OwedIsPool(t: Terms, v: Addr)
    ensures PoolOf(t, v) == Owed(t, v)
  {
    var r := Get(t.rewards, v);
    Fees.DivUnique(r * 10, 100, r / 10);
  }

  /** The commission a validator has registered decides what it pays: less than one coin for each
      of its delegators stays with it of what it owes them, and each of them gets its part by
      stake, rounded down. */
  lemma PaysItsCommission(t: Terms, v: Addr, d: Addr)
    requires ValidTerms(t) && v in t.stakes && d in t.stakes[v] && d != v
    ensures var others := t.stakes[v] - {v};
            && Owed(t, v) - |others| < Paid(t, v) <= Owed(t, v)
            && Sum(others) * ShareFor(t, v, d) <= Owed(t, v) * t.stakes[v][d]
            && Owed(t, v) * t.stakes[v][d] < Sum(others) * (ShareFor(t, v, d) + 1)
  {
    var others := t.stakes[v] - {v};
    OwedIsPool(t, v);
    PoolBounds(t, v);
    PaidBounds(t, v);
    SomeDelegated(others, d);
    PartBounds(PoolOf(t, v), others[d], Sum(others));
    assert Sum(others) * (ShareFor(t, v, d) + 1) == Sum(others) * ShareFor(t, v, d) + Sum(others);
  }

  lemma CancelFactor(d: int, s: int, pool: int, n: nat)
    requires d > 0 && n > 0 && d * s <= pool * d <= d * s + (d - 1) * n
    ensures s <= pool && pool - s < n
  {
    assert pool * d == d * pool && d * (pool - s) == d * pool - d * s && (d - 1) * n == d * n - n;
    assert d * (pool - s) == (pool - s) * d && d * n == n * d && (pool + 1) * d == pool * d + d && s * d == d * s;
    Fees.MulMono(pool + 1, s, d);
    Fees.MulMono(n, pool - s, d);
  }

  // ---- The payout as a function ----

  ghost function CreditAll(t: Terms, v: Addr, bal: Balances, ds: set<Addr>): Balances {
    if ds == {} then bal else
    var d :| d in ds;
    Add(CreditAll(t, v, bal, ds - {d}), d, ShareFor(t, v, d))
  }

  /** One validator credits all its delegators and is debited the sum. */
  ghost function PayOne(t: Terms, bal: Balances, v: Addr): Balances {
    Add(CreditAll(t, v, bal, Delegators(t, v).Keys), v, -Paid(t, v))
  }

  ghost function PayAll(t: Terms, bal: Balances, vs: set<Addr>): Balances {
    if vs == {} then bal else
    var v :| v in vs;
    PayOne(t, PayAll(t, bal, vs - {v}), v)
  }

  ghost function Payout(t: Terms, bal: Balances): Balances { PayAll(t, bal, t.stakes.Keys) }

  lemma ShareAdd(t: Terms, v: Addr, done: set<Addr>, d: Addr)
    requires d !in done
    ensures Sum(SharesOf(t, v, done + {d})) == Sum(SharesOf(t, v, done)) + ShareFor(t, v, d)
  {
    var m := SharesOf(t, v, done);
    SumPut(m, d, ShareFor(t, v, d));
    assert m[d := ShareFor(t, v, d)] == SharesOf(t, v, done + {d});
  }

  lemma PickDelegator(t: Terms, v: Addr, bal: Balances, ds: set<Addr>) returns (d: Addr)
    requires ds != {}
    ensures d in ds && CreditAll(t, v, bal, ds) == Add(CreditAll(t, v, bal, ds - {d}), d, ShareFor(t, v, d))
  {
    d :| d in ds && CreditAll(t, v, bal, ds) == Add(CreditAll(t, v, bal, ds - {d}), d, ShareFor(t, v, d));
  }

  lemma PickValidator(t: Terms, bal: Balances, vs: set<Addr>) returns (v: Addr)
    requires vs != {}
    ensures v in vs && PayAll(t, bal, vs) == PayOne(t, PayAll(t, bal, vs - {v}), v)
  {
    v :| v in vs && PayAll(t, bal, vs) == PayOne(t, PayAll(t, bal, vs - {v}), v);
  }

  lemma {:induction false} CreditAllGets(t: Terms, v: Addr, bal: Balances, ds: set<Addr>, a: Addr)
    requires Canonical(bal)
    ensures Canonical(CreditAll(t, v, bal, ds))
    ensures Get(CreditAll(t, v, bal, ds), a) == Get(bal, a) + if a in ds then ShareFor(t, v, a) else 0
    decreases |ds|
  {
    if ds != {} {
      var d := PickDelegator(t, v, bal, ds);
      var c := CreditAll(t, v, bal, ds - {d});
      CreditAllGets(t, v, bal, ds - {d}, a);
      PutGets(c, d, Get(c, d) + ShareFor(t, v, d), a);
    }
  }

  lemma {:induction false} CreditAllSum(t: Terms, v: Addr, bal: Balances, ds: set<Addr>)
    ensures Sum(CreditAll(t, v, bal, ds)) == Sum(bal) + Sum(SharesOf(t, v, ds))
    decreases |ds|
  {
    if ds == {} {
      assert SharesOf(t, v, ds) == map[];
    } else {
      var d := PickDelegator(t, v, bal, ds);
      CreditAllSum(t, v, bal, ds - {d});
      SumAdd(CreditAll(t, v, bal, ds - {d}), d, ShareFor(t, v, d));
      ShareAdd(t, v, ds - {d}, d);
      assert ds - {d} + {d} == ds;
    }
  }

  /** Delegators may be credited in any order. */
  lemma CreditAllAdd(t: Terms, v: Addr, bal: Balances, ds: set<Addr>, d: Addr)
    requires Canonical(bal) && d !in ds
    ensures CreditAll(t, v, bal, ds + {d}) == Add(CreditAll(t, v, bal, ds), d, ShareFor(t, v, d))
  {
    var c := CreditAll(t, v, bal, ds);
    CreditAllGets(t, v, bal, ds, d);
    CreditAllGets(t, v, bal, ds + {d}, d);
    PutGets(c, d, Get(c, d) + ShareFor(t, v, d), d);
    forall a ensures Get(CreditAll(t, v, bal, ds + {d}), a) == Get(Add(c, d, ShareFor(t, v, d)), a) {
      CreditAllGets(t, v, bal, ds, a);
      CreditAllGets(t, v, bal, ds + {d}, a);
      PutGets(c, d, Get(c, d) + ShareFor(t, v, d), a);
    }
    Ext(CreditAll(t, v, bal, ds + {d}), Add(c, d, ShareFor(t, v, d)));
  }

  lemma PayOneGets(t: Terms, bal: Balances, v: Addr, a: Addr)
    requires Canonical(bal)
    ensures Canonical(PayOne(t, bal, v)) && Sum(PayOne(t, bal, v)) == Sum(bal)
    ensures Get(PayOne(t, bal, v), a) == Get(bal, a) + ShareFor(t, v, a) - if a == v then Paid(t, v) else 0
  {
    var ds := Delegators(t, v).Keys;
    var c := CreditAll(t, v, bal, ds);
    CreditAllGets(t, v, bal, ds, a);
    CreditAllSum(t, v, bal, ds);
    assert SharesOf(t, v, ds) == Shares(t, v);
    SumAdd(c, v, -Paid(t, v));
    PutGets(c, v, Get(c, v) - Paid(t, v), a);
  }

  lemma ReceivedNone(t: Terms, a: Addr)
    ensures Received(t, a, {}) == 0
  {
    assert ReceivedFrom(t, a, {}) == map[];
  }

  lemma ReceivedAdd(t: Terms, a: Addr, vs: set<Addr>, v: Addr)
    requires v !in vs
    ensures Received(t, a, vs + {v}) == Received(t, a, vs) + ShareFor(t, v, a)
  {
    var m := ReceivedFrom(t, a, vs);
    SumPut(m, v, ShareFor(t, v, a));
    assert m[v := ShareFor(t, v, a)] == ReceivedFrom(t, a, vs + {v});
  }

  lemma ReceivedNonNegative(t: Terms, a: Addr, vs: set<Addr>)
    requires ValidTerms(t)
    ensures Received(t, a, vs) >= 0
  {
    forall v ensures ShareFor(t, v, a) >= 0 { ShareNonNegative(t, v, a); }
    SumBounds(ReceivedFrom(t, a, vs));
  }

  lemma BalanceAfterAdd(t: Terms, bal: Balances, vs: set<Addr>, v: Addr, a: Addr)
    requires v in vs
    ensures BalanceAfter(t, bal, a, vs) ==
            BalanceAfter(t, bal, a, vs - {v}) + ShareFor(t, v, a) - if a == v then Paid(t, v) else 0
  {
    ReceivedAdd(t, a, vs - {v}, v);
    assert vs - {v} + {v} == vs;
  }

  lemma {:induction false} PayAllGets(t: Terms, bal: Balances, vs: set<Addr>, a: Addr)
    requires Canonical(bal)
    ensures Canonical(PayAll(t, bal, vs)) && Sum(PayAll(t, bal, vs)) == Sum(bal)
    ensures Get(PayAll(t, bal, vs), a) == BalanceAfter(t, bal, a, vs)
    decreases |vs|
  {
    if vs == {} {
      ReceivedNone(t, a);
    } else {
      var v := PickValidator(t, bal, vs);
      PayAllGets(t, bal, vs - {v}, a);
      PayOneGets(t, PayAll(t, bal, vs - {v}), v, a);
      BalanceAfterAdd(t, bal, vs, v, a);
    }
  }

  /** Validators may pay in any order. */
  lemma PayAllAdd(t: Terms, bal: Balances, vs: set<Addr>, v: Addr)
    requires Canonical(bal) && v !in vs
    ensures PayAll(t, bal, vs + {v}) == PayOne(t, PayAll(t, bal, vs), v)
  {
    var p := PayAll(t, bal, vs);
    PayAllGets(t, bal, vs, v);
    PayAllGets(t, bal, vs + {v}, v);
    PayOneGets(t, p, v, v);
    forall a ensures Get(PayAll(t, bal, vs + {v}), a) == Get(PayOne(t, p, v), a) {
      PayAllGets(t, bal, vs, a);
      PayAllGets(t, bal, vs + {v}, a);
      PayOneGets(t, p, v, a);
      ReceivedAdd(t, a, vs, v);
    }
    Ext(PayAll(t, bal, vs + {v}), PayOne(t, p, v));
  }

  /** A validator that has not paid yet still has what was frozen, so it can pay. */
  lemma StillCovered(t: Terms, bal: Balances, vs: set<Addr>, v: Addr)
    requires ValidTerms(t) && Positive(bal) && v !in vs
    ensures Get(PayAll(t, bal, vs), v) >= Get(bal, v)
  {
    PayAllGets(t, bal, vs, v);
    ReceivedNonNegative(t, v, vs);
  }

  predicate Frozen(t: Terms, bal: Balances) { forall v <- t.stakes :: Get(t.snapshot, v) == Get(bal, v) }

  /** The payout keeps the sum of balances, never makes one negative, and gives every account
      its shares of all the pools less what it pays itself. */
  lemma PayAllPositive(t: Terms, bal: Balances, vs: set<Addr>)
    requires ValidTerms(t) && Positive(bal) && Frozen(t, bal) && vs <= t.stakes.Keys
    ensures Positive(PayAll(t, bal, vs)) && Sum(PayAll(t, bal, vs)) == Sum(bal)
    ensures forall a :: Get(PayAll(t, bal, vs), a) == BalanceAfter(t, bal, a, vs)
  {
    var p := PayAll(t, bal, vs);
    PayAllGets(t, bal, vs, "");
    forall a
      ensures Get(p, a) == BalanceAfter(t, bal, a, vs)
      ensures Get(p, a) >= 0
    {
      PayAllGets(t, bal, vs, a);
      ReceivedNonNegative(t, a, vs);
      PaidBounds(t, a);
    }
    forall a | a in p ensures p[a] > 0 { assert Get(p, a) >= 0; }
  }

  lemma OneShare(t: Terms, vs: set<Addr>, v: Addr, d: Addr)
    requires v in vs && forall u | u in vs && u != v :: ShareFor(t, u, d) == 0
    ensures Received(t, d, vs) == ShareFor(t, v, d)
  {
    var m := ReceivedFrom(t, d, vs);
    SumRemove(m, v);
    SumNorm(m - {v});
    assert Norm(m - {v}) == map[];
  }

  lemma OneDelegation(t: Terms, bal: Balances, v: Addr, d: Addr)
    requires Canonical(bal) && v in t.stakes && d in t.stakes[v] && d !in t.stakes
    requires forall u <- t.stakes :: d in t.stakes[u] ==> u == v
    ensures Get(Payout(t, bal), d) == Get(bal, d) + ShareFor(t, v, d)
  {
    hide Payout, Received, Part, PoolOf, PayAll;
    PayAllGets(t, bal, t.stakes.Keys, d);
    OneShare(t, t.stakes.Keys, v, d);
    assert Payout(t, bal) == PayAll(t, bal, t.stakes.Keys) by { PayoutIs(t, bal); }
  }

  lemma PayoutIs(t: Terms, bal: Balances)
    ensures Payout(t, bal) == PayAll(t, bal, t.stakes.Keys)
  {}

  /** An account that has delegated to one validator and validates nothing itself gets its part of
      what that validator owes its delegators, rounded down, and nothing else. */
  lemma DelegatorGets(t: Terms, bal: Balances, v: Addr, d: Addr)
    requires ValidTerms(t) && Canonical(bal) && v in t.stakes && d in t.stakes[v] && d !in t.stakes
    requires forall u <- t.stakes :: d in t.stakes[u] ==> u == v
    ensures var gain, all := Get(Payout(t, bal), d) - Get(bal, d), Sum(t.stakes[v] - {v});
            all * gain <= Owed(t, v) * t.stakes[v][d] < all * (gain + 1)
  {
    hide Payout, Owed, Sum;
    OneDelegation(t, bal, v, d);
    PaysItsCommission(t, v, d);
  }

  lemma NothingToShare(t: Terms, v: Addr, a: Addr)
    requires ValidTerms(t) && (Sum(Delegators(t, v)) == 0 || Get(t.rewards, v) == 0)
    ensures Paid(t, v) == 0 && ShareFor(t, v, a) == 0
  {
    var ds := Delegators(t, v);
    PaidBounds(t, v);
    PoolBounds(t, v);
    SumBounds(ds);
    ShareNonNegative(t, v, a);
    if d :| d in ds { assert Get(ds, d) > 0; } else { assert Shares(t, v) == map[]; }
    forall d | d in Shares(t, v) ensures Shares(t, v)[d] >= 0 { ShareNonNegative(t, v, d); }
    SumBounds(Shares(t, v));
    assert a in ds ==> Get(Shares(t, v), a) == ShareFor(t, v, a);
  }

  /** Without rewards there is no payout. */
  lemma NoRewardsNoPayout(t: Terms, bal: Balances)
    requires ValidTerms(t) && Canonical(bal) && t.rewards == map[]
    ensures Payout(t, bal) == bal
  {
    var vs := t.stakes.Keys;
    PayAllGets(t, bal, vs, "");
    forall a ensures Get(Payout(t, bal), a) == Get(bal, a) {
      PayAllGets(t, bal, vs, a);
      NothingToShare(t, a, a);
      forall v ensures ShareFor(t, v, a) == 0 { NothingToShare(t, v, a); }
      var m := ReceivedFrom(t, a, vs);
      SumNorm(m);
      assert Norm(m) == map[];
    }
    Ext(Payout(t, bal), bal);
  }

  // ---- The payout as a program ----

  /** The lists recorded for the reversal; `sign` is 1 to apply a list and -1 to take it back. */
  function ApplyMoves(bal: Balances, entries: seq<(Addr, int)>, sign: int): Balances
    decreases |entries|
  {
    if entries == [] then bal else
    var n := |entries| - 1;
    Add(ApplyMoves(bal, entries[..n], sign), entries[n].0, sign * entries[n].1)
  }

  predicate AllPositive(entries: seq<(Addr, int)>) {
    entries == [] || (entries[|entries| - 1].1 > 0 && AllPositive(entries[..|entries| - 1]))
  }

  lemma AllPositiveAppend(entries: seq<(Addr, int)>, a: Addr, x: int)
    requires AllPositive(entries) && x > 0
    ensures AllPositive(entries + [(a, x)])
  {
    assert (entries + [(a, x)])[..|entries|] == entries;
  }

  lemma {:induction false} AllPositiveJoin(xs: seq<(Addr, int)>, ys: seq<(Addr, int)>)
    requires AllPositive(xs) && AllPositive(ys)
    ensures AllPositive(xs + ys)
    decreases |ys|
  {
    if ys == [] {
      assert xs + ys == xs;
    } else {
      var n := |ys| - 1;
      assert (xs + ys)[..|xs| + n] == xs + ys[..n];
      AllPositiveJoin(xs, ys[..n]);
    }
  }

  lemma {:induction false} PositiveAt(entries: seq<(Addr, int)>, i: nat)
    requires AllPositive(entries) && i < |entries|
    ensures entries[i].1 > 0
    decreases |entries|
  {
    if i < |entries| - 1 { PositiveAt(entries[..|entries| - 1], i); }
  }

  lemma ApplyAppend(bal: Balances, entries: seq<(Addr, int)>, a: Addr, x: int, sign: int)
    ensures ApplyMoves(bal, entries + [(a, x)], sign) == Add(ApplyMoves(bal, entries, sign), a, sign * x)
  {
    assert (entries + [(a, x)])[..|entries|] == entries;
  }

  lemma {:induction false} ApplyCanonical(bal: Balances, entries: seq<(Addr, int)>, sign: int)
    requires Canonical(bal)
    ensures Canonical(ApplyMoves(bal, entries, sign))
    decreases |entries|
  {
    if entries != [] { ApplyCanonical(bal, entries[..|entries| - 1], sign); }
  }

  lemma {:induction false} ApplyCommutes(bal: Balances, entries: seq<(Addr, int)>, sign: int, a: Addr, x: int)
    requires Canonical(bal)
    ensures ApplyMoves(Add(bal, a, x), entries, sign) == Add(ApplyMoves(bal, entries, sign), a, x)
    decreases |entries|
  {
    if entries != [] {
      var n := |entries| - 1;
      ApplyCommutes(bal, entries[..n], sign, a, x);
      ApplyCanonical(bal, entries[..n], sign);
      AddSwap(ApplyMoves(bal, entries[..n], sign), a, x, entries[n].0, sign * entries[n].1);
    }
  }

  lemma {:induction false} ApplyCancels(bal: Balances, entries: seq<(Addr, int)>, sign: int)
    requires Canonical(bal) && (sign == 1 || sign == -1)
    ensures ApplyMoves(ApplyMoves(bal, entries, sign), entries, -sign) == bal
    decreases |entries|
  {
    if entries != [] {
      var n := |entries| - 1;
      var (a, x) := entries[n];
      var mid := ApplyMoves(bal, entries[..n], sign);
      ApplyCanonical(bal, entries[..n], sign);
      ApplyCommutes(mid, entries[..n], -sign, a, sign * x);
      ApplyCancels(bal, entries[..n], sign);
      AddAdd(bal, a, sign * x, -sign * x);
    }
  }

  lemma {:induction false} ApplySwap(bal: Balances, xs: seq<(Addr, int)>, p: int, ys: seq<(Addr, int)>, q: int)
    requires Canonical(bal)
    ensures ApplyMoves(ApplyMoves(bal, xs, p), ys, q) == ApplyMoves(ApplyMoves(bal, ys, q), xs, p)
    decreases |ys|
  {
    if ys != [] {
      var n := |ys| - 1;
      ApplySwap(bal, xs, p, ys[..n], q);
      ApplyCanonical(bal, ys[..n], q);
      ApplyCommutes(ApplyMoves(bal, ys[..n], q), xs, p, ys[n].0, q * ys[n].1);
    }
  }

  /** Adds up the amounts of a table, taking its keys in any order. */
  method SumStakes(m: map<Addr, int>) returns (total: int)
    ensures total == Sum(m)
  {
    total := 0;
    var todo := m;
    while todo != map[]
      invariant total + Sum(todo) == Sum(m)
      decreases |todo|
    {
      var d :| d in todo;
      SumRemove(todo, d);
      total := total + todo[d];
      SizeWithout(todo, d);
      todo := todo - {d};
    }
  }

  /** Crediting one more delegator; a share of zero changes nothing. */
  lemma CreditStep(t: Terms, v: Addr, bal: Balances, done: set<Addr>, d: Addr, credits: seq<(Addr, int)>)
    requires ValidTerms(t) && Canonical(bal) && d !in done && CreditAll(t, v, bal, done) == ApplyMoves(bal, credits, 1)
    ensures var share, c := ShareFor(t, v, d), CreditAll(t, v, bal, done);
            && share >= 0
            && CreditAll(t, v, bal, done + {d}) == Add(c, d, share) == ApplyMoves(bal, credits + [(d, share)], 1)
            && (share == 0 ==> CreditAll(t, v, bal, done + {d}) == c)
  {
    ShareNonNegative(t, v, d);
    CreditAllAdd(t, v, bal, done, d);
    CreditAllGets(t, v, bal, done, d);
    AddAdd(CreditAll(t, v, bal, done), d, 0, 0);
    ApplyAppend(bal, credits, d, ShareFor(t, v, d), 1);
  }

  /** One delegator is credited its share, unless it rounds to nothing. */
  method CreditOne(ghost t: Terms, ghost v: Addr, ghost bal: Balances, ghost done: set<Addr>, before: Balances,
                   paid: int,
                   record: seq<(Addr, int)>, d: Addr, share: int)
    returns (after: Balances, distributed: int, credits: seq<(Addr, int)>)
    requires ValidTerms(t) && Canonical(bal) && d !in done && share == ShareFor(t, v, d)
    requires before == CreditAll(t, v, bal, done) && before == ApplyMoves(bal, record, 1)
    requires paid == Sum(SharesOf(t, v, done)) && AllPositive(record)
    ensures after == CreditAll(t, v, bal, done + {d}) && after == ApplyMoves(bal, credits, 1)
    ensures distributed == Sum(SharesOf(t, v, done + {d})) && AllPositive(credits)
  {
    CreditStep(t, v, bal, done, d, record);
    ShareAdd(t, v, done, d);
    after, distributed, credits := before, paid, record;
    if share > 0 {
      AllPositiveAppend(record, d, share);
      after := Add(before, d, share);
      distributed := paid + share;
      credits := record + [(d, share)];
    }
  }

  /** The inner loop: each delegator is credited its share, in any order. */
  method CreditDelegators(t: Terms, v: Addr, bal: Balances, pool: int, delegated: int)
    returns (after: Balances, distributed: int, credits: seq<(Addr, int)>)
    requires ValidTerms(t) && Canonical(bal) && pool == PoolOf(t, v) && delegated == Sum(Delegators(t, v)) &&
             delegated > 0
    ensures after == CreditAll(t, v, bal, Delegators(t, v).Keys) && distributed == Paid(t, v)
    ensures after == ApplyMoves(bal, credits, 1) && AllPositive(credits)
  {
    after, distributed, credits := bal, 0, [];
    ghost var all := Delegators(t, v).Keys;
    var todo := Delegators(t, v).Keys;
    NoneDone(t, v, all);
    while todo != {}
      invariant todo <= all
      invariant after == CreditAll(t, v, bal, all - todo) && after == ApplyMoves(bal, credits, 1)
      invariant distributed == Sum(SharesOf(t, v, all - todo)) && AllPositive(credits)
      decreases |todo|
    {
      var d :| d in todo;
      var share := pool * Delegators(t, v)[d] / delegated;
      assert share == ShareFor(t, v, d);
      OneMore(all, todo, d);
      after, distributed, credits := CreditOne(t, v, bal, all - todo, after, distributed, credits, d, share);
      todo := todo - {d};
    }
    assert all - todo == all;
  }

  lemma OneMore(all: set<Addr>, todo: set<Addr>, d: Addr)
    requires d in todo && todo <= all
    ensures all - (todo - {d}) == (all - todo) + {d}
  {}

  lemma NoneDone(t: Terms, v: Addr, all: set<Addr>)
    ensures all - all == {} && SharesOf(t, v, all - all) == map[]
  {}

  lemma DelegatedNonNegative(t: Terms, v: Addr)
    requires ValidTerms(t)
    ensures Sum(Delegators(t, v)) >= 0
  {
    SumBounds(Delegators(t, v));
  }

  /** One validator's turn. Its live balance still covers the frozen one, so the cap by both
      is the frozen one and its debit cannot fail. */
  method PayDelegators(t: Terms, v: Addr, bal: Balances) returns (after: Balances, credits: seq<(Addr, int)>,
                       debits: seq<(Addr, int)>)
    requires ValidTerms(t) && Positive(bal) && Get(bal, v) >= Get(t.snapshot, v)
    ensures after == PayOne(t, bal, v) && after == ApplyMoves(ApplyMoves(bal, credits, 1), debits, -1)
    ensures AllPositive(credits) && AllPositive(debits) && (Get(t.rewards, v) == 0 ==> credits == [] && debits == [])
  {
    after, credits, debits := bal, [], [];
    var delegated := SumStakes(Delegators(t, v));
    DelegatedNonNegative(t, v);
    var reward := Get(t.rewards, v);
    if delegated == 0 || reward == 0 {
      NoShareNoPay(t, bal, v);
      return;
    }
    var pool := reward - reward * Rate(t, v) / 100;
    var valBal := Min(Get(t.snapshot, v), Get(bal, v));
    pool := if pool > valBal then valBal else pool;
    assert pool == PoolOf(t, v);
    var distributed;
    after, distributed, credits := CreditDelegators(t, v, bal, pool, delegated);
    after, debits := DebitPaid(t, v, bal, after, distributed);
  }

  method DebitPaid(t: Terms, v: Addr, ghost bal: Balances, credited: Balances, distributed: int)
    returns (after: Balances, debits: seq<(Addr, int)>)
    requires ValidTerms(t) && Canonical(bal) && credited == CreditAll(t, v, bal, Delegators(t, v).Keys)
    requires distributed == Paid(t, v)
    ensures after == PayOne(t, bal, v) && after == ApplyMoves(credited, debits, -1) && AllPositive(debits)
  {
    DebitStep(t, v, bal, credited);
    ApplyOne(credited, v, distributed);
    after, debits := credited, [];
    if distributed > 0 {
      after := Add(credited, v, -distributed);
      debits := [(v, distributed)];
      AllPositiveAppend([], v, distributed);
      assert [] + debits == debits;
    }
  }

  lemma ApplyOne(c: Balances, v: Addr, x: int)
    ensures ApplyMoves(c, [(v, x)], -1) == Add(c, v, -x) && ApplyMoves(c, [], -1) == c
  {
    ApplyAppend(c, [], v, x, -1);
    assert [] + [(v, x)] == [(v, x)];
  }

  lemma DebitStep(t: Terms, v: Addr, bal: Balances, c: Balances)
    requires ValidTerms(t) && Canonical(bal) && c == CreditAll(t, v, bal, Delegators(t, v).Keys)
    ensures 0 <= Paid(t, v) && Get(c, v) == Get(bal, v)
    ensures Add(c, v, -Paid(t, v)) == PayOne(t, bal, v)
    ensures Paid(t, v) == 0 ==> c == PayOne(t, bal, v)
  {
    var ds := Delegators(t, v).Keys;
    assert v !in ds;
    CreditAllGets(t, v, bal, ds, v);
    PaidNonNegative(t, v);
    AddNothing(c, v);
  }

  lemma PaidNonNegative(t: Terms, v: Addr)
    requires ValidTerms(t)
    ensures 0 <= Paid(t, v)
  {
    PaidBounds(t, v);
  }

  lemma AddNothing(c: Balances, v: Addr)
    requires Canonical(c)
    ensures Add(c, v, -0) == c
  {
    AddAdd(c, v, 0, 0);
  }

  lemma NoShareNoPay(t: Terms, bal: Balances, v: Addr)
    requires ValidTerms(t) && Canonical(bal) && (Sum(Delegators(t, v)) == 0 || Get(t.rewards, v) == 0)
    ensures PayOne(t, bal, v) == bal
  {
    PayOneGets(t, bal, v, v);
    forall a ensures Get(PayOne(t, bal, v), a) == Get(bal, a) {
      PayOneGets(t, bal, v, a);
      NothingToShare(t, v, a);
    }
    Ext(PayOne(t, bal, v), bal);
  }

  /** The whole payout, validators in any order: no debit fails, and the balances do not
      depend on the order. The lists record it for a reversal. */
  method DistributeEpochRewards(t: Terms, bal: Balances)
    returns (after: Balances, credits: seq<(Addr, int)>, debits: seq<(Addr, int)>)
    requires ValidTerms(t) && Positive(bal) && Frozen(t, bal)
    ensures after == Payout(t, bal) && Positive(after) && Sum(after) == Sum(bal)
    ensures after == ApplyMoves(ApplyMoves(bal, credits, 1), debits, -1)
    ensures AllPositive(credits) && AllPositive(debits) && (t.rewards == map[] ==> credits == [] && debits == [])
  {
    after, credits, debits := bal, [], [];
    ghost var all := t.stakes.Keys;
    var todo := t.stakes.Keys;
    assert all - todo == {};
    while todo != {}
      invariant todo <= all
      invariant after == PayAll(t, bal, all - todo) && after == ApplyMoves(ApplyMoves(bal, credits, 1), debits, -1)
      invariant AllPositive(credits) && AllPositive(debits) && (t.rewards == map[] ==> credits == [] && debits == [])
      decreases |todo|
    {
      var v :| v in todo;
      OneMore(all, todo, v);
      ReadyToPay(t, bal, all - todo, v);
      var more, less;
      after, more, less := PayDelegators(t, v, after);
      RecordsJoin(bal, credits, debits, more, less);
      AllPositiveJoin(credits, more);
      AllPositiveJoin(debits, less);
      credits, debits := credits + more, debits + less;
      todo := todo - {v};
    }
    assert all - todo == all;
    PayAllPositive(t, bal, all);
  }

  lemma ReadyToPay(t: Terms, bal: Balances, done: set<Addr>, v: Addr)
    requires ValidTerms(t) && Positive(bal) && Frozen(t, bal) && done <= t.stakes.Keys && v in t.stakes && v !in done
    ensures Positive(PayAll(t, bal, done)) && Get(PayAll(t, bal, done), v) >= Get(t.snapshot, v)
    ensures PayAll(t, bal, done + {v}) == PayOne(t, PayAll(t, bal, done), v)
  {
    PayAllPositive(t, bal, done);
    StillCovered(t, bal, done, v);
    PayAllAdd(t, bal, done, v);
  }

  lemma {:induction false} ApplyJoin(bal: Balances, xs: seq<(Addr, int)>, ys: seq<(Addr, int)>, sign: int)
    ensures ApplyMoves(bal, xs + ys, sign) == ApplyMoves(ApplyMoves(bal, xs, sign), ys, sign)
    decreases |ys|
  {
    if ys == [] {
      assert xs + ys == xs;
    } else {
      var n := |ys| - 1;
      assert (xs + ys)[..|xs| + n] == xs + ys[..n];
      ApplyJoin(bal, xs, ys[..n], sign);
    }
  }

  lemma RecordsJoin(bal: Balances, c0: seq<(Addr, int)>, d0: seq<(Addr, int)>, c1: seq<(Addr, int)>,
                    d1: seq<(Addr, int)>)
    requires Canonical(bal)
    ensures ApplyMoves(ApplyMoves(ApplyMoves(ApplyMoves(bal, c0, 1), d0, -1), c1, 1), d1, -1)
            == ApplyMoves(ApplyMoves(bal, c0 + c1, 1), d0 + d1, -1)
  {
    ApplyCanonical(bal, c0, 1);
    ApplySwap(ApplyMoves(bal, c0, 1), d0, -1, c1, 1);
    ApplyJoin(bal, c0, c1, 1);
    ApplyJoin(ApplyMoves(bal, c0 + c1, 1), d0, d1, -1);
  }

  /** Reversing the record of a payout restores every balance. */
  lemma ReversalRestores(bal: Balances, credits: seq<(Addr, int)>, debits: seq<(Addr, int)>)
    requires Canonical(bal)
    ensures ApplyMoves(ApplyMoves(ApplyMoves(ApplyMoves(bal, credits, 1), debits, -1), credits, -1), debits, 1) == bal
  {
    var c := ApplyMoves(bal, credits, 1);
    ApplyCanonical(bal, credits, 1);
    ApplySwap(c, debits, -1, credits, -1);
    ApplyCancels(bal, credits, 1);
    ApplyCancels(bal, debits, -1);
  }
}
