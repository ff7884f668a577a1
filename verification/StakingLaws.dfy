/** What the staking functions keep: validator totals, the rounding of a slash, and the worth
    of stakes and unbonding entries. */
module StakingLaws {
  import opened Maps
  import opened Types
  import opened StakeLedger

  // ---- Totals equal the sum of the stakers ----

  ghost predicate BalancedAt(k: Staking, v: Addr) {
    Get(k.total, v) == Sum(Inner(k.stakes, v))
  }

  ghost predicate Balanced(k: Staking) { forall v :: BalancedAt(k, v) }

  lemma SetStakeSum(st: Stakes, v: Addr, s: Addr, amount: int, u: Addr)
    ensures Sum(Inner(SetStake(st, v, s, amount), u)) ==
            Sum(Inner(st, u)) + if u == v then amount - StakeOf(st, v, s) else 0
  {
    SumPut(Inner(st, v), s, amount);
  }

  lemma MoveBalance(k: Staking, v: Addr, s: Addr, stake: int, total: int, u: Addr)
    requires BalancedAt(k, u) && BalancedAt(k, v)
    ensures BalancedAt(Move(k, v, s, stake, total), u) <==>
            (u == v ==> total - Get(k.total, v) == stake - StakeOf(k.stakes, v, s))
  {
    SetStakeSum(k.stakes, v, s, stake, u);
    PutGets(k.total, v, total, u);
  }

  /** STAKE and DELEGATE keep every validator's total equal to the sum of its stakers. */
  lemma AddStakeKeepsBalance(k: Staking, v: Addr, s: Addr, a: int)
    requires Balanced(k)
    ensures Balanced(AddStake(k, v, s, a))
  {
    if !Idle(v, a) {
      forall u ensures BalancedAt(AddStake(k, v, s, a), u) {
        MoveBalance(k, v, s, StakeOf(k.stakes, v, s) + a, Get(k.total, v) + a, u);
      }
    }
  }

  /** UNSTAKE keeps it if and only if it takes no more than the sender has staked, or the
      sender is the only staker, when both go to zero. */
  lemma UnstakeKeepsBalance(k: Staking, v: Addr, s: Addr, a: int, release: int)
    requires Balanced(k) && Tidy(k)
    ensures Balanced(RemoveStake(k, v, s, a, release)) <==>
            (Idle(v, a) || a <= StakeOf(k.stakes, v, s) || Get(k.total, v) == StakeOf(k.stakes, v, s))
  {
    if !Idle(v, a) {
      var stake, total := Max(0, StakeOf(k.stakes, v, s) - a), Max(0, Get(k.total, v) - a);
      var n := RemoveStake(k, v, s, a, release);
      assert BalancedAt(k, v);
      if v in k.stakes { SumBounds(k.stakes[v]); } else { assert Sum(Inner(k.stakes, v)) == 0; }
      forall u
        ensures BalancedAt(n, u) <==> BalancedAt(Move(k, v, s, stake, total), u)
        ensures u != v ==> BalancedAt(n, u)
      {
        MoveBalance(k, v, s, stake, total, u);
      }
      MoveBalance(k, v, s, stake, total, v);
    }
  }

  // ---- Rounding of a slash ----

  /** Half of a positive amount, rounded up, except that a single coin is taken whole. */
  lemma ReducedIsHalf(a: int)
    requires a > 0
    ensures a - 1 <= 2 * Reduced(a) <= a + 1
    ensures Slash(a) <= a && Reduced(a) == a - Slash(a)
  {}

  function ReducedRaw(inner: map<Addr, int>): map<Addr, int> {
    map s | s in inner :: Reduced(inner[s])
  }

  lemma ReducedWithout(inner: map<Addr, int>, s: Addr)
    requires s in inner
    ensures Sum(inner) == inner[s] + Sum(inner - {s})
    ensures Sum(ReducedRaw(inner)) == Reduced(inner[s]) + Sum(ReducedRaw(inner - {s}))
  {
    SumRemove(inner, s);
    SumRemove(ReducedRaw(inner), s);
    assert ReducedRaw(inner) - {s} == ReducedRaw(inner - {s});
  }

  lemma {:induction false} ReducedSum(inner: map<Addr, int>)
    requires Positive(inner)
    ensures Sum(inner) - |inner| <= 2 * Sum(ReducedRaw(inner)) <= Sum(inner) + |inner|
    decreases |inner|
  {
    if inner == map[] {
      assert ReducedRaw(inner) == map[];
    } else {
      var s :| s in inner;
      ReducedWithout(inner, s);
      SizeWithout(inner, s);
      ReducedSum(inner - {s});
      ReducedIsHalf(inner[s]);
    }
  }

  lemma SlashedSum(k: Staking, v: Addr)
    requires Tidy(k)
    ensures var n := SlashValidator(k, v);
            && Get(n.total, v) == Reduced(Get(k.total, v))
            && Sum(Inner(n.stakes, v)) == if Reduced(Get(k.total, v)) == 0 then 0
               else Sum(ReducedRaw(Inner(k.stakes, v)))
  {
    var inner := Inner(k.stakes, v);
    SumNorm(ReducedRaw(inner));
    assert Norm(ReducedRaw(inner)) == ReducedAll(inner);
    PutGets(k.total, v, Reduced(Get(k.total, v)), v);
    StakeNonNegative(k, v, v);
    assert Reduced(Get(k.total, v)) >= 0;
  }

  /** One slashing of n positive stakers from a balanced state leaves the validator's total
      and the sum of its stakers at most (n + 1) / 2 apart, and both at zero when the
      validator is removed. */
  lemma SlashGap(k: Staking, v: Addr)
    requires Tidy(k) && BalancedAt(k, v)
    ensures var n := SlashValidator(k, v);
            var gap := Get(n.total, v) - Sum(Inner(n.stakes, v));
            && -(|Inner(k.stakes, v)| + 1) <= 2 * gap <= |Inner(k.stakes, v)| + 1
            && (v !in n.total ==> v !in n.stakes && gap == 0)
  {
    var inner := Inner(k.stakes, v);
    SlashedSum(k, v);
    ReducedSum(inner);
    if Get(k.total, v) > 0 { ReducedIsHalf(Get(k.total, v)); }
  }

  /** What is left of a slashed amount: half of it, rounded up, but nothing of a single coin. */
  function HalfLeft(x: int): int { if x <= 1 then 0 else x - x / 2 }

  lemma ReducedIsHalfLeft(x: int)
    requires x >= 0
    ensures Reduced(x) == HalfLeft(x)
  {}

  /** Evidence that is proved, against a registered validator that has not been punished before,
      takes half of every stake on it, and all of them when its total is a single coin. Any other
      evidence changes nothing. */
  lemma EvidenceHalves(k: Staking, index: int, tx: Tx, u: Addr, s: Addr)
    requires Tidy(k) && tx.payload.Evidence? && tx.payload.validator != ""
    ensures var v, n := tx.payload.validator, StakingTx(k, index, tx);
            if tx.payload.proofOk && v in k.registered && v !in k.punished then
              && Get(n.total, u) == (if u == v then HalfLeft(Get(k.total, v)) else Get(k.total, u))
              && StakeOf(n.stakes, u, s) ==
                 (if u != v then StakeOf(k.stakes, u, s) else if Get(k.total, v) <= 1 then 0
                  else HalfLeft(StakeOf(k.stakes, v, s)))
              && n.punished == k.punished + {v} && n.unbonding == k.unbonding
              && n.registered == k.registered && n.commission == k.commission
            else n == k
  {
    var v := tx.payload.validator;
    StakeNonNegative(k, v, s);
    ReducedIsHalfLeft(Get(k.total, v));
    ReducedIsHalfLeft(StakeOf(k.stakes, v, s));
  }

  /** Nobody is punished twice: once a validator has been, no evidence against it does anything. */
  lemma {:induction false} PunishedOnce(k: Staking, index: int, txs: seq<Tx>, later: int, tx: Tx)
    requires tx.payload.Evidence? && tx.payload.validator in k.punished
    ensures k.punished <= StakingTxs(k, index, txs).punished
    ensures StakingTx(StakingTxs(k, index, txs), later, tx) == StakingTxs(k, index, txs)
    decreases |txs|
  {
    if txs != [] { PunishedOnce(StakingTx(k, index, txs[0]), index, txs[1..], later, tx); }
  }

  // ---- Forward steps of every type keep the tables tidy ----

  lemma StakingTxTidy(k: Staking, index: int, tx: Tx)
    requires Tidy(k)
    ensures Tidy(StakingTx(k, index, tx))
  {
    if tx.payload.Stake? || tx.payload.Delegate? {
      AddStakeGets(k, tx.payload.validator, tx.sender, tx.payload.amount, "", "");
    } else if tx.payload.Unstake? {
      CutStakeGets(k, tx.payload.validator, tx.sender, tx.payload.amount, "", "");
    } else if tx.payload.Evidence? {
      PutGets(k.total, tx.payload.validator, Reduced(Get(k.total, tx.payload.validator)), "");
    }
  }

  // ---- The worth of stakes and unbonding entries ----

  function UnbondingSum(es: seq<Entry>): int {
    if es == [] then 0 else es[0].amount + UnbondingSum(es[1..])
  }

  lemma {:induction false} UnbondingSumAppend(a: seq<Entry>, b: seq<Entry>)
    ensures UnbondingSum(a + b) == UnbondingSum(a) + UnbondingSum(b)
    decreases |a|
  {
    if a == [] {
      assert a + b == b;
    } else {
      assert (a + b)[1..] == a[1..] + b;
      UnbondingSumAppend(a[1..], b);
    }
  }

  ghost function Worth(k: Staking): int { Sum(k.total) + UnbondingSum(k.unbonding) }

  function Entered(tx: Tx): int {
    match tx.payload
    case Stake(v, a) => if Idle(v, a) then 0 else a
    case Delegate(v, a) => if Idle(v, a) then 0 else a
    case _ => 0
  }

  /** What an UNSTAKE creates out of nothing: the part its validator's total does not cover. */
  function Uncovered(k: Staking, tx: Tx): int {
    match tx.payload
    case Unstake(v, a) => if Idle(v, a) then 0 else Max(0, a - Get(k.total, v))
    case _ => 0
  }

  function Slashed(k: Staking, tx: Tx): int {
    match tx.payload
    case Evidence(v, ok) => if Punishes(k, v, ok) then Slash(Get(k.total, v)) else 0
    case _ => 0
  }

  lemma RemoveWorth(k: Staking, v: Addr, s: Addr, a: int, release: int)
    requires !Idle(v, a)
    ensures Worth(RemoveStake(k, v, s, a, release)) == Worth(k) + Max(0, a - Get(k.total, v))
  {
    SumPut(k.total, v, Max(0, Get(k.total, v) - a));
    UnbondingSumAppend(k.unbonding, [Entry(s, v, a, release)]);
  }

  lemma SlashWorth(k: Staking, v: Addr)
    requires Tidy(k)
    ensures Worth(SlashValidator(k, v)) == Worth(k) - Slash(Get(k.total, v))
  {
    var total := Get(k.total, v);
    StakeNonNegative(k, v, v);
    SumPut(k.total, v, if Reduced(total) < MIN_STAKE then 0 else Reduced(total));
    if total > 0 { ReducedIsHalf(total); }
  }

  lemma StakingTxWorth(k: Staking, index: int, tx: Tx)
    requires Tidy(k)
    ensures Worth(StakingTx(k, index, tx)) == Worth(k) + Entered(tx) + Uncovered(k, tx) - Slashed(k, tx)
  {
    if tx.payload.Stake? || tx.payload.Delegate? {
      SumPut(k.total, tx.payload.validator, Get(k.total, tx.payload.validator) + tx.payload.amount);
    } else if tx.payload.Unstake? {
      if !Idle(tx.payload.validator, tx.payload.amount) {
        RemoveWorth(k, tx.payload.validator, tx.sender, tx.payload.amount, index + UNBONDING_PERIOD);
      }
    } else if tx.payload.Evidence? {
      SlashWorth(k, tx.payload.validator);
    }
  }

  /** The sums of the same quantities over the transactions of a block. */
  function EnteredBy(txs: seq<Tx>): int {
    if txs == [] then 0 else Entered(txs[0]) + EnteredBy(txs[1..])
  }

  function UncoveredBy(k: Staking, index: int, txs: seq<Tx>): int
    decreases |txs|
  {
    if txs == [] then 0 else Uncovered(k, txs[0]) + UncoveredBy(StakingTx(k, index, txs[0]), index, txs[1..])
  }

  function SlashedBy(k: Staking, index: int, txs: seq<Tx>): int
    decreases |txs|
  {
    if txs == [] then 0 else Slashed(k, txs[0]) + SlashedBy(StakingTx(k, index, txs[0]), index, txs[1..])
  }

  lemma {:induction false} StakingTxsWorth(k: Staking, index: int, txs: seq<Tx>)
    requires Tidy(k)
    ensures Worth(StakingTxs(k, index, txs))
            == Worth(k) + EnteredBy(txs) + UncoveredBy(k, index, txs) - SlashedBy(k, index, txs)
    decreases |txs|
  {
    if txs != [] {
      StakingTxWorth(k, index, txs[0]);
      StakingTxTidy(k, index, txs[0]);
      StakingTxsWorth(StakingTx(k, index, txs[0]), index, txs[1..]);
    }
  }

  // ---- When no clamp fires ----

  /** No account is both credited and debited by the block. */
  predicate OneSided(txs: seq<Tx>) {
    forall i, j | 0 <= i < |txs| && 0 <= j < |txs| ::
      txs[i].payload.Unstake? && (txs[j].payload.Stake? || txs[j].payload.Delegate?) ==>
        txs[i].sender != txs[j].sender || txs[i].payload.validator != txs[j].payload.validator
  }

  lemma DeltaSign(tx: Tx, v: Addr, s: Addr)
    ensures StakeDelta(tx, v, s) < 0 ==> tx.payload.Unstake? && tx.sender == s && tx.payload.validator == v
    ensures StakeDelta(tx, v, s) > 0 ==>
              (tx.payload.Stake? || tx.payload.Delegate?) && tx.sender == s && tx.payload.validator == v
  {}

  lemma OneSidedDeltas(txs: seq<Tx>, v: Addr, s: Addr)
    requires OneSided(txs)
    ensures var ds := StakeDeltas(txs, v, s);
            (forall i | 0 <= i < |ds| :: ds[i] >= 0) || (forall i | 0 <= i < |ds| :: ds[i] <= 0)
  {
    var ds := StakeDeltas(txs, v, s);
    if i :| 0 <= i < |ds| && ds[i] < 0 {
      DeltaSign(txs[i], v, s);
      forall j | 0 <= j < |ds| ensures ds[j] <= 0 { DeltaSign(txs[j], v, s); }
    }
  }

  /** When totals are the sums of the stakers, a total never dips unless a stake does. */
  lemma {:induction false} TotalsFollowStakes(k: Staking, index: int, txs: seq<Tx>, v: Addr)
    requires Tidy(k) && Balanced(k) && AllReversible(txs)
    requires forall u, s :: NeverBelow(StakeOf(k.stakes, u, s), StakeDeltas(txs, u, s))
    ensures NeverBelow(Get(k.total, v), TotalDeltas(txs, v))
    decreases |txs|
  {
    if txs != [] {
      var n := UndoStakingTx(k, index, txs[0]);
      forall u, s
        ensures StakeOf(k.stakes, u, s) - StakeDelta(txs[0], u, s) >= 0
        ensures NeverBelow(StakeOf(n.stakes, u, s), StakeDeltas(txs[1..], u, s))
      {
        StakeWalkStep(k, index, txs, u, s);
      }
      UndoStepBalanced(k, index, txs[0]);
      UndoStakingTxGets(k, index, txs[0], v, "");
      TotalsFollowStakes(n, index, txs[1..], v);
      DeltasStep(txs, v, "");
      WalkStep(Get(k.total, v), TotalDelta(txs[0], v), TotalDeltas(txs[1..], v));
      TotalCoversDelta(k, txs[0], v);
    }
  }

  lemma StakeWalkStep(k: Staking, index: int, txs: seq<Tx>, u: Addr, s: Addr)
    requires txs != [] && Tidy(k) && Reversible(txs[0])
    requires NeverBelow(StakeOf(k.stakes, u, s), StakeDeltas(txs, u, s))
    ensures StakeOf(k.stakes, u, s) - StakeDelta(txs[0], u, s) >= 0
    ensures NeverBelow(StakeOf(UndoStakingTx(k, index, txs[0]).stakes, u, s), StakeDeltas(txs[1..], u, s))
  {
    DeltasStep(txs, u, s);
    WalkStep(StakeOf(k.stakes, u, s), StakeDelta(txs[0], u, s), StakeDeltas(txs[1..], u, s));
    UndoStakingTxGets(k, index, txs[0], u, s);
  }

  lemma TotalCoversDelta(k: Staking, tx: Tx, v: Addr)
    requires Tidy(k) && BalancedAt(k, v) && StakeOf(k.stakes, v, tx.sender) - StakeDelta(tx, v, tx.sender) >= 0
    ensures Get(k.total, v) - TotalDelta(tx, v) >= 0
  {
    if v in k.stakes { SumBounds(k.stakes[v]); } else { assert Sum(Inner(k.stakes, v)) == 0; }
  }

  lemma UndoStepBalanced(k: Staking, index: int, tx: Tx)
    requires Tidy(k) && Balanced(k) && Reversible(tx)
    requires forall u, s :: StakeOf(k.stakes, u, s) - StakeDelta(tx, u, s) >= 0
    ensures Balanced(UndoStakingTx(k, index, tx))
  {
    match tx.payload
    case Stake(v, a) => CutBalanced(k, tx, v, a);
    case Delegate(v, a) => CutBalanced(k, tx, v, a);
    case Unstake(v, a) =>
      AddStakeKeepsBalance(k, v, tx.sender, a);
      forall u ensures BalancedAt(UndoStakingTx(k, index, tx), u) {
        assert BalancedAt(AddStake(k, v, tx.sender, a), u);
      }
    case _ =>
  }

  lemma CutBalanced(k: Staking, tx: Tx, v: Addr, a: int)
    requires Tidy(k) && Balanced(k) && (tx.payload == Payload.Stake(v, a) || tx.payload == Delegate(v, a))
    requires StakeOf(k.stakes, v, tx.sender) - StakeDelta(tx, v, tx.sender) >= 0
    ensures Balanced(CutStake(k, v, tx.sender, a))
  {
    UnstakeKeepsBalance(k, v, tx.sender, a, 0);
    forall u ensures BalancedAt(CutStake(k, v, tx.sender, a), u) {
      assert BalancedAt(RemoveStake(k, v, tx.sender, a, 0), u);
    }
  }

  lemma {:induction false} StakingTxsBalanced(k: Staking, index: int, txs: seq<Tx>)
    requires Tidy(k) && Balanced(k) && AllReversible(txs) && Covered(k, index, txs)
    ensures Balanced(StakingTxs(k, index, txs))
    decreases |txs|
  {
    if txs != [] {
      var tx := txs[0];
      if tx.payload.Stake? || tx.payload.Delegate? {
        AddStakeKeepsBalance(k, tx.payload.validator, tx.sender, tx.payload.amount);
      } else if tx.payload.Unstake? {
        UnstakeKeepsBalance(k, tx.payload.validator, tx.sender, tx.payload.amount, index + UNBONDING_PERIOD);
      }
      StakingTxTidy(k, index, tx);
      StakingTxsBalanced(StakingTx(k, index, tx), index, txs[1..]);
    }
  }

  /** A block that does not both stake and unstake one account is undone exactly. */
  lemma OneSidedNoClamp(k: Staking, index: int, txs: seq<Tx>)
    requires Tidy(k) && Balanced(k) && AllReversible(txs) && Covered(k, index, txs) && OneSided(txs)
    ensures NoClamp(StakingTxs(k, index, txs), txs)
  {
    var after := StakingTxs(k, index, txs);
    StakingTxsBalanced(k, index, txs);
    forall v, s ensures NeverBelow(StakeOf(after.stakes, v, s), StakeDeltas(txs, v, s)) {
      CoveredGets(k, index, txs, v, s);
      StakeNonNegative(k, v, s);
      StakeNonNegative(after, v, s);
      OneSidedDeltas(txs, v, s);
      OneSignNeverBelow(StakeOf(after.stakes, v, s), StakeDeltas(txs, v, s));
    }
    CoveredGets(k, index, txs, "", "");
    forall v ensures NeverBelow(Get(after.total, v), TotalDeltas(txs, v)) {
      TotalsFollowStakes(after, index, txs, v);
    }
  }

  // ---- Where the laws fail ----

  const NO_STAKES := Staking(map[], map[], [], {}, map[], {})

  /** A block that stakes ten coins and takes eight of them back, on an empty ledger, is not
      undone: the reversal takes the ten back first, with a floor at zero, and then returns
      eight that were never there. */
  lemma StakeAndUnstakeNotUndone(v: Addr, s: Addr, index: int)
    requires v != ""
    ensures var txs := [Tx("stake", s, 0, 0, 0, Payload.Stake(v, 10)), Tx("unstake", s, 1, 0, 0, Unstake(v, 8))];
            && AllReversible(txs) && Covered(NO_STAKES, index, txs)
            && StakeOf(UndoStakingTxs(StakingTxs(NO_STAKES, index, txs), index, txs).stakes, v, s) == 8
  {
    var a, b := Tx("stake", s, 0, 0, 0, Payload.Stake(v, 10)), Tx("unstake", s, 1, 0, 0, Unstake(v, 8));
    var one := StakingTx(NO_STAKES, index, a);
    assert [a, b][1..] == [b] && [b][1..] == [];
    StakingTxGets(NO_STAKES, index, a, v, s);
    assert Covered(one, index, [b]);
    WalkOfTwo(v, s, index, a, b);
  }

  lemma WalkOfTwo(v: Addr, s: Addr, index: int, a: Tx, b: Tx)
    requires AllReversible([a, b]) && StakeDelta(a, v, s) == 10 && StakeDelta(b, v, s) == -8
    ensures StakeOf(UndoStakingTxs(StakingTxs(NO_STAKES, index, [a, b]), index, [a, b]).stakes, v, s) == 8
  {
    hide StakeDelta, StakingTxs, UndoStakingTxs;
    StakingTxsGets(NO_STAKES, index, [a, b], v, s);
    UndoStakingTxsGets(StakingTxs(NO_STAKES, index, [a, b]), index, [a, b], v, s);
    assert StakeDeltas([a, b], v, s) == [10, -8] && Negated([10, -8]) == [-10, 8];
    WalkStep(0, -10, [8]);
    WalkStep(10, 8, []);
    WalkStep(2, 10, [-8]);
    WalkStep(0, -8, []);
    assert [-10] + [8] == [-10, 8] && [10] + [-8] == [10, -8] && [8] + [] == [8] && [-8] + [] == [-8];
  }

  /** An UNSTAKE of five coins on an empty ledger is not undone: no clamp fires on the way back,
      but one fired on the way forward, and the reversal returns five coins never taken. */
  lemma UncoveredUnstakeNotUndone(v: Addr, s: Addr, index: int)
    requires v != ""
    ensures var txs := [Tx("unstake", s, 0, 0, 0, Unstake(v, 5))];
            && AllReversible(txs) && NoClamp(StakingTxs(NO_STAKES, index, txs), txs)
            && StakeOf(UndoStakingTxs(StakingTxs(NO_STAKES, index, txs), index, txs).stakes, v, s) == 5
  {
    var tx := Tx("unstake", s, 0, 0, 0, Unstake(v, 5));
    var after := StakingTx(NO_STAKES, index, tx);
    OneStakingTx(NO_STAKES, index, tx);
    OneStakingTx(after, index, tx);
    forall u, t ensures NeverBelow(StakeOf(after.stakes, u, t), StakeDeltas([tx], u, t)) {
      StakingTxGets(NO_STAKES, index, tx, u, t);
      assert StakeDeltas([tx], u, t)[1..] == [];
    }
    forall u ensures NeverBelow(Get(after.total, u), TotalDeltas([tx], u)) {
      StakingTxGets(NO_STAKES, index, tx, u, s);
      assert TotalDeltas([tx], u)[1..] == [];
    }
    StakingTxGets(NO_STAKES, index, tx, v, s);
    UndoStakingTxGets(after, index, tx, v, s);
  }

  lemma OneStakingTx(k: Staking, index: int, tx: Tx)
    ensures StakingTxs(k, index, [tx]) == StakingTx(k, index, tx)
    ensures UndoStakingTxs(k, index, [tx]) == UndoStakingTx(k, index, tx)
  {
    assert [tx][1..] == [];
  }

  /** An UNSTAKE of five coins on an empty ledger leaves five coins to be paid out. */
  lemma UncoveredUnstakeCreates(v: Addr, s: Addr, release: int)
    requires v != ""
    ensures Worth(RemoveStake(NO_STAKES, v, s, 5, release)) == Worth(NO_STAKES) + 5
  {
    RemoveWorth(NO_STAKES, v, s, 5, release);
  }
}
