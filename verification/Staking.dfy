/** Stakes, unbonding and slashing: the staking part of block processing, of its reversal and
    of qbit_network/core/staking.py. */
module StakeLedger {
  import opened Maps
  import opened Types

  /** validator -> staker -> amount, without empty inner tables */
  type Stakes = map<Addr, map<Addr, int>>

  datatype Entry = Entry(staker: Addr, validator: Addr, amount: int, release: int)

  datatype Staking = Staking(stakes: Stakes, total: map<Addr, int>, unbonding: seq<Entry>,
                             registered: set<Addr>, commission: map<Addr, int>, punished: set<Addr>)

  function Inner(st: Stakes, v: Addr): map<Addr, int> {
    if v in st then st[v] else map[]
  }

  function PutInner(st: Stakes, v: Addr, inner: map<Addr, int>): Stakes {
    if inner == map[] then st - {v} else st[v := inner]
  }

  function StakeOf(st: Stakes, v: Addr, s: Addr): int { Get(Inner(st, v), s) }

  function SetStake(st: Stakes, v: Addr, s: Addr, amount: int): Stakes {
    PutInner(st, v, Put(Inner(st, v), s, amount))
  }

  predicate CanonicalStakes(st: Stakes) {
    forall v <- st :: st[v] != map[] && Positive(st[v])
  }

  lemma StakesExt(a: Stakes, b: Stakes)
    requires CanonicalStakes(a) && CanonicalStakes(b)
    requires forall v, s :: StakeOf(a, v, s) == StakeOf(b, v, s)
    ensures a == b
  {
    forall v ensures Inner(a, v) == Inner(b, v) {
      forall s ensures Get(Inner(a, v), s) == Get(Inner(b, v), s) { assert StakeOf(a, v, s) == StakeOf(b, v, s); }
      Ext(Inner(a, v), Inner(b, v));
    }
    forall v ensures v in a <==> v in b { assert Inner(a, v) == Inner(b, v); }
    forall v | v in a ensures a[v] == b[v] { assert Inner(a, v) == Inner(b, v); }
  }

  lemma SetStakeGets(st: Stakes, v: Addr, s: Addr, amount: int, u: Addr, t: Addr)
    requires CanonicalStakes(st) && amount >= 0
    ensures CanonicalStakes(SetStake(st, v, s, amount))
    ensures StakeOf(SetStake(st, v, s, amount), u, t) == if u == v && t == s then amount else StakeOf(st, u, t)
  {
    PutGets(Inner(st, v), s, amount, t);
  }

  // ---- Slashing ----

  function Slash(amount: int): int {
    var cut := amount * SLASH_PERCENTAGE / 100;
    if cut <= 0 && amount > 0 then 1 else cut
  }

  function Reduced(amount: int): int { Max(0, amount - Slash(amount)) }

  function ReducedAll(inner: map<Addr, int>): map<Addr, int> {
    map s | s in inner && Reduced(inner[s]) != 0 :: Reduced(inner[s])
  }

  /** Whether an EVIDENCE transaction is carried out. */
  predicate Punishes(k: Staking, v: Addr, proofOk: bool) {
    v != "" && v !in k.punished && v in k.registered && proofOk
  }

  function SlashValidator(k: Staking, v: Addr): Staking {
    var newTotal := Reduced(Get(k.total, v));
    k.(total := Put(k.total, v, if newTotal < MIN_STAKE then 0 else newTotal),
       stakes := PutInner(k.stakes, v, if newTotal < MIN_STAKE then map[] else ReducedAll(Inner(k.stakes, v))),
       punished := k.punished + {v})
  }

  // ---- Forward ----

  /** Sets the stake of s on v and the total of v. */
  function Move(k: Staking, v: Addr, s: Addr, stake: int, total: int): Staking {
    k.(stakes := SetStake(k.stakes, v, s, stake), total := Put(k.total, v, total))
  }

  /** Nothing happens without a validator or for an amount that is not positive. */
  predicate Idle(v: Addr, a: int) { v == "" || a <= 0 }

  function AddStake(k: Staking, v: Addr, s: Addr, a: int): Staking {
    if Idle(v, a) then k else Move(k, v, s, StakeOf(k.stakes, v, s) + a, Get(k.total, v) + a)
  }

  function CutStake(k: Staking, v: Addr, s: Addr, a: int): Staking {
    if Idle(v, a) then k else Move(k, v, s, Max(0, StakeOf(k.stakes, v, s) - a), Max(0, Get(k.total, v) - a))
  }

  function RemoveStake(k: Staking, v: Addr, s: Addr, a: int, release: int): Staking {
    if Idle(v, a) then k else CutStake(k, v, s, a).(unbonding := k.unbonding + [Entry(s, v, a, release)])
  }

  function Register(k: Staking, v: Addr, commission: Option<int>): Staking {
    k.(registered := k.registered + {v},
       commission := if commission.Some? && 0 <= commission.value <= 100 then k.commission[v := commission.value]
                     else k.commission)
  }

  function StakingTx(k: Staking, index: int, tx: Tx): Staking {
    match tx.payload
    case Stake(v, a) => AddStake(k, v, tx.sender, a)
    case Delegate(v, a) => AddStake(k, v, tx.sender, a)
    case Unstake(v, a) => RemoveStake(k, v, tx.sender, a, index + UNBONDING_PERIOD)
    case RegisterValidator(c) => Register(k, tx.sender, c)
    case RevokeKey(kind) => if kind == "validator" then k.(registered := k.registered - {tx.sender}) else k
    case Evidence(v, ok) => if Punishes(k, v, ok) then SlashValidator(k, v) else k
    case _ => k
  }

  function StakingTxs(k: Staking, index: int, txs: seq<Tx>): Staking
    decreases |txs|
  {
    if txs == [] then k else StakingTxs(StakingTx(k, index, txs[0]), index, txs[1..])
  }

  // ---- Reversal, in the original order of the transactions ----

  function FilterOut(es: seq<Entry>, e: Entry): (r: seq<Entry>)
    ensures e !in es ==> r == es
  {
    if es == [] then [] else (if es[0] == e then [] else [es[0]]) + FilterOut(es[1..], e)
  }

  function UndoRemoveStake(k: Staking, v: Addr, s: Addr, a: int, release: int): Staking {
    if Idle(v, a) then k else AddStake(k, v, s, a).(unbonding := FilterOut(k.unbonding, Entry(s, v, a, release)))
  }

  /** Types whose reversal the code only approximates; they are forward only here. */
  predicate Reversible(tx: Tx) {
    !tx.payload.Evidence? && !tx.payload.RegisterValidator? && !tx.payload.RevokeKey?
  }

  predicate AllReversible(txs: seq<Tx>) { forall i | 0 <= i < |txs| :: Reversible(txs[i]) }

  function UndoStakingTx(k: Staking, index: int, tx: Tx): Staking {
    match tx.payload
    case Stake(v, a) => CutStake(k, v, tx.sender, a)
    case Delegate(v, a) => CutStake(k, v, tx.sender, a)
    case Unstake(v, a) => UndoRemoveStake(k, v, tx.sender, a, index + UNBONDING_PERIOD)
    case _ => k
  }

  function UndoStakingTxs(k: Staking, index: int, txs: seq<Tx>): Staking
    decreases |txs|
  {
    if txs == [] then k else UndoStakingTxs(UndoStakingTx(k, index, txs[0]), index, txs[1..])
  }

  // ---- One account at a time ----

  function Delta(p: Payload): int {
    match p
    case Stake(v, a) => if Idle(v, a) then 0 else a
    case Delegate(v, a) => if Idle(v, a) then 0 else a
    case Unstake(v, a) => if Idle(v, a) then 0 else -a
    case _ => 0
  }

  predicate Concerns(p: Payload, v: Addr) {
    match p
    case Stake(u, _) => u == v
    case Delegate(u, _) => u == v
    case Unstake(u, _) => u == v
    case _ => false
  }

  /** What a transaction adds to the stake of s on v, and to the total of v. */
  function StakeDelta(tx: Tx, v: Addr, s: Addr): int {
    if tx.sender == s then TotalDelta(tx, v) else 0
  }

  function TotalDelta(tx: Tx, v: Addr): int {
    if Concerns(tx.payload, v) then Delta(tx.payload) else 0
  }

  function StakeDeltas(txs: seq<Tx>, v: Addr, s: Addr): seq<int> {
    seq(|txs|, i requires 0 <= i < |txs| => StakeDelta(txs[i], v, s))
  }

  function TotalDeltas(txs: seq<Tx>, v: Addr): seq<int> {
    seq(|txs|, i requires 0 <= i < |txs| => TotalDelta(txs[i], v))
  }

  /** Well-formed tables: positive stakes, positive totals. */
  predicate Tidy(k: Staking) { CanonicalStakes(k.stakes) && Positive(k.total) }

  lemma StakeNonNegative(k: Staking, v: Addr, s: Addr)
    requires Tidy(k)
    ensures StakeOf(k.stakes, v, s) >= 0 && Get(k.total, v) >= 0
  {}

  /** The stake and the total an UNSTAKE draws on are at least its amount. */
  predicate UnstakeCovered(k: Staking, tx: Tx) {
    match tx.payload
    case Unstake(v, a) => Idle(v, a) || (a <= StakeOf(k.stakes, v, tx.sender) && a <= Get(k.total, v))
    case _ => true
  }

  /** Every UNSTAKE takes at most what its sender and its validator have at that point. */
  predicate Covered(k: Staking, index: int, txs: seq<Tx>)
    decreases |txs|
  {
    txs == [] || (UnstakeCovered(k, txs[0]) && Covered(StakingTx(k, index, txs[0]), index, txs[1..]))
  }

  lemma MoveGets(k: Staking, u: Addr, t: Addr, stake: int, total: int, v: Addr, s: Addr)
    requires Tidy(k) && stake >= 0 && total >= 0
    ensures var n := Move(k, u, t, stake, total);
            && Tidy(n) && SameRegistry(n, k)
            && StakeOf(n.stakes, v, s) == (if u == v && t == s then stake else StakeOf(k.stakes, v, s))
            && Get(n.total, v) == (if u == v then total else Get(k.total, v))
  {
    SetStakeGets(k.stakes, u, t, stake, v, s);
    PutGets(k.total, u, total, v);
  }

  lemma AddStakeGets(k: Staking, u: Addr, t: Addr, a: int, v: Addr, s: Addr)
    requires Tidy(k)
    ensures var n := AddStake(k, u, t, a);
            var d := if u != v || Idle(u, a) then 0 else a;
            && Tidy(n) && SameRegistry(n, k)
            && StakeOf(n.stakes, v, s) == StakeOf(k.stakes, v, s) + (if t == s then d else 0)
            && Get(n.total, v) == Get(k.total, v) + d
  {
    hide Move, StakeOf, Tidy;
    StakeNonNegative(k, u, t);
    if !Idle(u, a) {
      var stake, total := StakeOf(k.stakes, u, t) + a, Get(k.total, u) + a;
      MoveGets(k, u, t, stake, total, v, s);
      assert AddStake(k, u, t, a) == Move(k, u, t, stake, total);
    }
  }

  lemma CutStakeGets(k: Staking, u: Addr, t: Addr, a: int, v: Addr, s: Addr)
    requires Tidy(k)
    ensures var n := CutStake(k, u, t, a);
            var d := if u != v || Idle(u, a) then 0 else a;
            && Tidy(n) && SameRegistry(n, k)
            && StakeOf(n.stakes, v, s) == Max(0, StakeOf(k.stakes, v, s) - if t == s then d else 0)
            && Get(n.total, v) == Max(0, Get(k.total, v) - d)
  {
    hide Move, StakeOf, Tidy;
    StakeNonNegative(k, v, s);
    if !Idle(u, a) {
      MoveGets(k, u, t, Max(0, StakeOf(k.stakes, u, t) - a), Max(0, Get(k.total, u) - a), v, s);
    }
  }

  predicate SameRegistry(a: Staking, b: Staking) {
    a.registered == b.registered && a.commission == b.commission && a.punished == b.punished
  }

  lemma StakingTxGets(k: Staking, index: int, tx: Tx, v: Addr, s: Addr)
    requires Tidy(k) && Reversible(tx)
    ensures var n := StakingTx(k, index, tx);
            && Tidy(n) && SameRegistry(n, k)
            && StakeOf(n.stakes, v, s) == Max(0, StakeOf(k.stakes, v, s) + StakeDelta(tx, v, s))
            && Get(n.total, v) == Max(0, Get(k.total, v) + TotalDelta(tx, v))
  {
    hide AddStake, CutStake, StakeOf;
    StakeNonNegative(k, v, s);
    if tx.payload.Stake? || tx.payload.Delegate? {
      AddStakeGets(k, tx.payload.validator, tx.sender, tx.payload.amount, v, s);
    } else if tx.payload.Unstake? {
      CutStakeGets(k, tx.payload.validator, tx.sender, tx.payload.amount, v, s);
    }
  }

  lemma UndoStakingTxGets(k: Staking, index: int, tx: Tx, v: Addr, s: Addr)
    requires Tidy(k) && Reversible(tx)
    ensures var n := UndoStakingTx(k, index, tx);
            && Tidy(n) && SameRegistry(n, k)
            && StakeOf(n.stakes, v, s) == Max(0, StakeOf(k.stakes, v, s) - StakeDelta(tx, v, s))
            && Get(n.total, v) == Max(0, Get(k.total, v) - TotalDelta(tx, v))
  {
    hide AddStake, CutStake, StakeOf;
    StakeNonNegative(k, v, s);
    if tx.payload.Stake? || tx.payload.Delegate? {
      CutStakeGets(k, tx.payload.validator, tx.sender, tx.payload.amount, v, s);
    } else if tx.payload.Unstake? {
      AddStakeGets(k, tx.payload.validator, tx.sender, tx.payload.amount, v, s);
    }
  }

  lemma DeltasStep(txs: seq<Tx>, v: Addr, s: Addr)
    requires txs != []
    ensures StakeDeltas(txs, v, s) == [StakeDelta(txs[0], v, s)] + StakeDeltas(txs[1..], v, s)
    ensures TotalDeltas(txs, v) == [TotalDelta(txs[0], v)] + TotalDeltas(txs[1..], v)
  {}

  /** Forward, the stake of an account takes a clamped walk over its deltas. */
  lemma {:induction false} StakingTxsGets(k: Staking, index: int, txs: seq<Tx>, v: Addr, s: Addr)
    requires Tidy(k) && AllReversible(txs)
    ensures var n := StakingTxs(k, index, txs);
            && Tidy(n) && SameRegistry(n, k)
            && StakeOf(n.stakes, v, s) == ClampedUndo(StakeOf(k.stakes, v, s), Negated(StakeDeltas(txs, v, s)))
            && Get(n.total, v) == ClampedUndo(Get(k.total, v), Negated(TotalDeltas(txs, v)))
    decreases |txs|
  {
    if txs != [] {
      hide StakingTx, Tidy, Reversible, StakeDelta, TotalDelta, StakeOf, StakeDeltas, TotalDeltas, Negated;
      StakingTxGets(k, index, txs[0], v, s);
      ForwardStep(k, txs, v, s);
      StakingTxsGets(StakingTx(k, index, txs[0]), index, txs[1..], v, s);
    } else {
      assert Negated(StakeDeltas(txs, v, s)) == [] && Negated(TotalDeltas(txs, v)) == [];
    }
  }

  lemma ForwardStep(k: Staking, txs: seq<Tx>, v: Addr, s: Addr)
    requires txs != []
    ensures var x, d, ds := StakeOf(k.stakes, v, s), StakeDelta(txs[0], v, s), Negated(StakeDeltas(txs[1..], v, s));
            && ClampedUndo(x, Negated(StakeDeltas(txs, v, s))) == ClampedUndo(Max(0, x + d), ds)
            && (NeverBelow(x, Negated(StakeDeltas(txs, v, s))) <==> x + d >= 0 && NeverBelow(x + d, ds))
    ensures var x, d, ds := Get(k.total, v), TotalDelta(txs[0], v), Negated(TotalDeltas(txs[1..], v));
            && ClampedUndo(x, Negated(TotalDeltas(txs, v))) == ClampedUndo(Max(0, x + d), ds)
            && (NeverBelow(x, Negated(TotalDeltas(txs, v))) <==> x + d >= 0 && NeverBelow(x + d, ds))
  {
    hide StakeDelta, TotalDelta, StakeOf, StakeDeltas, TotalDeltas, Negated;
    DeltasStep(txs, v, s);
    NegatedStep(StakeDelta(txs[0], v, s), StakeDeltas(txs[1..], v, s));
    NegatedStep(TotalDelta(txs[0], v), TotalDeltas(txs[1..], v));
    WalkStep(StakeOf(k.stakes, v, s), -StakeDelta(txs[0], v, s), Negated(StakeDeltas(txs[1..], v, s)));
    WalkStep(Get(k.total, v), -TotalDelta(txs[0], v), Negated(TotalDeltas(txs[1..], v)));
  }

  lemma BackwardStep(k: Staking, txs: seq<Tx>, v: Addr, s: Addr)
    requires txs != []
    ensures var x, d, ds := StakeOf(k.stakes, v, s), StakeDelta(txs[0], v, s), StakeDeltas(txs[1..], v, s);
            ClampedUndo(x, StakeDeltas(txs, v, s)) == ClampedUndo(Max(0, x - d), ds)
    ensures var x, d, ds := Get(k.total, v), TotalDelta(txs[0], v), TotalDeltas(txs[1..], v);
            ClampedUndo(x, TotalDeltas(txs, v)) == ClampedUndo(Max(0, x - d), ds)
  {
    hide StakeDelta, TotalDelta, StakeOf, StakeDeltas, TotalDeltas;
    DeltasStep(txs, v, s);
    WalkStep(StakeOf(k.stakes, v, s), StakeDelta(txs[0], v, s), StakeDeltas(txs[1..], v, s));
    WalkStep(Get(k.total, v), TotalDelta(txs[0], v), TotalDeltas(txs[1..], v));
  }

  /** Backward, it is the clamped walk over the same deltas in the same order. */
  lemma {:induction false} UndoStakingTxsGets(k: Staking, index: int, txs: seq<Tx>, v: Addr, s: Addr)
    requires Tidy(k) && AllReversible(txs)
    ensures var n := UndoStakingTxs(k, index, txs);
            && Tidy(n) && SameRegistry(n, k)
            && StakeOf(n.stakes, v, s) == ClampedUndo(StakeOf(k.stakes, v, s), StakeDeltas(txs, v, s))
            && Get(n.total, v) == ClampedUndo(Get(k.total, v), TotalDeltas(txs, v))
    decreases |txs|
  {
    if txs != [] {
      hide UndoStakingTx, Tidy, Reversible, StakeDelta, TotalDelta, StakeOf, StakeDeltas, TotalDeltas;
      UndoStakingTxGets(k, index, txs[0], v, s);
      BackwardStep(k, txs, v, s);
      UndoStakingTxsGets(UndoStakingTx(k, index, txs[0]), index, txs[1..], v, s);
    }
  }

  // ---- Unbonding entries ----

  function NewEntries(index: int, txs: seq<Tx>): seq<Entry> {
    if txs == [] then [] else
    (match txs[0].payload
     case Unstake(v, a) => if Idle(v, a) then [] else [Entry(txs[0].sender, v, a, index + UNBONDING_PERIOD)]
     case _ => [])
    + NewEntries(index, txs[1..])
  }

  function FilterAll(es: seq<Entry>, gone: seq<Entry>): seq<Entry>
    decreases |gone|
  {
    if gone == [] then es else FilterAll(FilterOut(es, gone[0]), gone[1..])
  }

  lemma NewEntriesStep(index: int, txs: seq<Tx>)
    requires txs != []
    ensures NewEntries(index, txs) == NewEntries(index, [txs[0]]) + NewEntries(index, txs[1..])
  {
    assert [txs[0]][1..] == [];
  }

  lemma {:induction false} ForwardEntries(k: Staking, index: int, txs: seq<Tx>)
    requires AllReversible(txs)
    ensures StakingTxs(k, index, txs).unbonding == k.unbonding + NewEntries(index, txs)
    decreases |txs|
  {
    if txs != [] {
      var n := StakingTx(k, index, txs[0]);
      ForwardEntries(n, index, txs[1..]);
      NewEntriesStep(index, txs);
      assert [txs[0]][1..] == [];
      assert n.unbonding == k.unbonding + NewEntries(index, [txs[0]]);
    }
  }

  lemma {:induction false} BackwardEntries(k: Staking, index: int, txs: seq<Tx>)
    requires AllReversible(txs)
    ensures UndoStakingTxs(k, index, txs).unbonding == FilterAll(k.unbonding, NewEntries(index, txs))
    decreases |txs|
  {
    if txs != [] {
      var n := UndoStakingTx(k, index, txs[0]);
      BackwardEntries(n, index, txs[1..]);
      NewEntriesStep(index, txs);
      var first, rest := NewEntries(index, [txs[0]]), NewEntries(index, txs[1..]);
      assert [txs[0]][1..] == [];
      if first == [] {
        assert first + rest == rest;
      } else {
        assert (first + rest)[1..] == rest;
      }
    }
  }

  lemma {:induction false} NewEntriesRelease(index: int, txs: seq<Tx>)
    ensures forall e <- NewEntries(index, txs) :: e.release == index + UNBONDING_PERIOD
    decreases |txs|
  {
    if txs != [] { NewEntriesRelease(index, txs[1..]); }
  }

  lemma {:induction false} FilterOutAppend(a: seq<Entry>, b: seq<Entry>, e: Entry)
    ensures FilterOut(a + b, e) == FilterOut(a, e) + FilterOut(b, e)
    decreases |a|
  {
    if a == [] {
      assert a + b == b;
    } else {
      assert (a + b)[1..] == a[1..] + b;
      FilterOutAppend(a[1..], b, e);
    }
  }

  lemma {:induction false} FilterOutMembers(es: seq<Entry>, e: Entry)
    ensures forall x :: x in FilterOut(es, e) <==> x in es && x != e
    decreases |es|
  {
    if es != [] {
      FilterOutMembers(es[1..], e);
      assert es == [es[0]] + es[1..];
    }
  }

  /** Filtering out entries none of which is in `old` removes all the others. */
  lemma {:induction false} FilterAllNew(old_: seq<Entry>, new_: seq<Entry>, gone: seq<Entry>)
    requires forall e <- gone :: e !in old_
    requires forall e <- new_ :: e in gone
    ensures FilterAll(old_ + new_, gone) == old_
    decreases |gone|
  {
    if gone == [] {
      forall e ensures multiset(new_)[e] == 0 { assert e in multiset(new_) <==> e in new_; }
      assert multiset(new_) == multiset{};
      assert |new_| == |multiset(new_)| == 0;
      assert old_ + new_ == old_;
    } else {
      FilterOutAppend(old_, new_, gone[0]);
      FilterOutMembers(new_, gone[0]);
      FilterAllNew(old_, FilterOut(new_, gone[0]), gone[1..]);
    }
  }

  /** Unbonding entries made by a block are told from older ones by their release height. */
  lemma UndoEntriesExact(k: Staking, index: int, txs: seq<Tx>)
    requires AllReversible(txs) && forall e <- k.unbonding :: e.release < index + UNBONDING_PERIOD
    ensures UndoStakingTxs(StakingTxs(k, index, txs), index, txs).unbonding == k.unbonding
  {
    var gone := NewEntries(index, txs);
    ForwardEntries(k, index, txs);
    BackwardEntries(StakingTxs(k, index, txs), index, txs);
    NewEntriesRelease(index, txs);
    FilterAllNew(k.unbonding, gone, gone);
  }

  /** No clamp fires while the reversal walks over the block from the state after it. */
  ghost predicate NoClamp(after: Staking, txs: seq<Tx>) {
    && (forall v, s :: NeverBelow(StakeOf(after.stakes, v, s), StakeDeltas(txs, v, s)))
    && (forall v :: NeverBelow(Get(after.total, v), TotalDeltas(txs, v)))
  }

  /** No clamp fires on the way forward. */
  ghost predicate NoForwardClamp(k: Staking, txs: seq<Tx>) {
    && (forall v, s :: NeverBelow(StakeOf(k.stakes, v, s), Negated(StakeDeltas(txs, v, s))))
    && (forall v :: NeverBelow(Get(k.total, v), Negated(TotalDeltas(txs, v))))
  }

  lemma UnstakeCoveredIff(k: Staking, tx: Tx)
    requires Tidy(k) && Reversible(tx)
    ensures UnstakeCovered(k, tx) <==>
            (forall v, s :: StakeOf(k.stakes, v, s) + StakeDelta(tx, v, s) >= 0) &&
              (forall v :: Get(k.total, v) + TotalDelta(tx, v) >= 0)
  {
    forall v, s ensures StakeOf(k.stakes, v, s) >= 0 && Get(k.total, v) >= 0 { StakeNonNegative(k, v, s); }
    if tx.payload.Unstake? {
      var u := tx.payload.validator;
      assert StakeDelta(tx, u, tx.sender) == TotalDelta(tx, u) == Delta(tx.payload);
    }
  }

  /** The forward walk of one account, one transaction at a time. */
  lemma ForwardAccount(k: Staking, index: int, txs: seq<Tx>, v: Addr, s: Addr)
    requires txs != [] && Tidy(k) && Reversible(txs[0])
    ensures var n := StakingTx(k, index, txs[0]);
            && (NeverBelow(StakeOf(k.stakes, v, s), Negated(StakeDeltas(txs, v, s))) <==>
                StakeOf(k.stakes, v, s) + StakeDelta(txs[0], v, s) >= 0 &&
                NeverBelow(StakeOf(n.stakes, v, s), Negated(StakeDeltas(txs[1..], v, s))))
            && (NeverBelow(Get(k.total, v), Negated(TotalDeltas(txs, v))) <==>
                Get(k.total, v) + TotalDelta(txs[0], v) >= 0 &&
                  NeverBelow(Get(n.total, v), Negated(TotalDeltas(txs[1..], v))))
  {
    hide StakingTx, Tidy, Reversible, StakeDelta, TotalDelta, StakeOf, StakeDeltas, TotalDeltas, Negated;
    StakingTxGets(k, index, txs[0], v, s);
    ForwardStep(k, txs, v, s);
  }

  lemma NoForwardClampStep(k: Staking, index: int, txs: seq<Tx>)
    requires txs != [] && Tidy(k) && Reversible(txs[0])
    ensures NoForwardClamp(k, txs) <==>
            UnstakeCovered(k, txs[0]) && NoForwardClamp(StakingTx(k, index, txs[0]), txs[1..])
  {
    hide StakingTx, Tidy, Reversible, StakeDelta, TotalDelta, StakeOf, StakeDeltas, TotalDeltas, Negated;
    hide UnstakeCovered, NeverBelow;
    var n := StakingTx(k, index, txs[0]);
    UnstakeCoveredIff(k, txs[0]);
    if NoForwardClamp(k, txs) {
      forall v, s
        ensures StakeOf(k.stakes, v, s) + StakeDelta(txs[0], v, s) >= 0
        ensures NeverBelow(StakeOf(n.stakes, v, s), Negated(StakeDeltas(txs[1..], v, s)))
      { ForwardAccount(k, index, txs, v, s); }
      forall v
        ensures Get(k.total, v) + TotalDelta(txs[0], v) >= 0 &&
                NeverBelow(Get(n.total, v), Negated(TotalDeltas(txs[1..], v)))
      { ForwardAccount(k, index, txs, v, ""); }
    }
    if UnstakeCovered(k, txs[0]) && NoForwardClamp(n, txs[1..]) {
      forall v, s ensures NeverBelow(StakeOf(k.stakes, v, s), Negated(StakeDeltas(txs, v, s))) {
        ForwardAccount(k, index, txs, v, s);
        assert StakeOf(k.stakes, v, s) + StakeDelta(txs[0], v, s) >= 0;
      }
      forall v ensures NeverBelow(Get(k.total, v), Negated(TotalDeltas(txs, v))) {
        ForwardAccount(k, index, txs, v, "");
        assert Get(k.total, v) + TotalDelta(txs[0], v) >= 0;
      }
    }
  }

  /** Covered blocks are exactly those that no clamp fires for on the way forward. */
  lemma {:induction false} CoveredIff(k: Staking, index: int, txs: seq<Tx>)
    requires Tidy(k) && AllReversible(txs)
    ensures Covered(k, index, txs) <==> NoForwardClamp(k, txs)
    decreases |txs|
  {
    if txs == [] {
      forall v, s ensures Negated(StakeDeltas(txs, v, s)) == [] && Negated(TotalDeltas(txs, v)) == [] {}
    } else {
      hide StakingTx, NoForwardClamp, Tidy, UnstakeCovered;
      StakingTxGets(k, index, txs[0], "", "");
      NoForwardClampStep(k, index, txs);
      CoveredIff(StakingTx(k, index, txs[0]), index, txs[1..]);
    }
  }

  /** A covered block moves each stake and each total by the sum of its amounts. */
  lemma CoveredGets(k: Staking, index: int, txs: seq<Tx>, v: Addr, s: Addr)
    requires Tidy(k) && AllReversible(txs) && Covered(k, index, txs)
    ensures var n := StakingTxs(k, index, txs);
            && Tidy(n) && SameRegistry(n, k)
            && StakeOf(n.stakes, v, s) == StakeOf(k.stakes, v, s) + Total(StakeDeltas(txs, v, s))
            && Get(n.total, v) == Get(k.total, v) + Total(TotalDeltas(txs, v))
  {
    CoveredIff(k, index, txs);
    StakingTxsGets(k, index, txs, v, s);
    TotalNegated(StakeDeltas(txs, v, s));
    TotalNegated(TotalDeltas(txs, v));
    ClampedUndoExact(StakeOf(k.stakes, v, s), Negated(StakeDeltas(txs, v, s)));
    ClampedUndoExact(Get(k.total, v), Negated(TotalDeltas(txs, v)));
  }

  lemma UndoAccountExact(k: Staking, index: int, txs: seq<Tx>, v: Addr, s: Addr)
    requires Tidy(k) && AllReversible(txs)
    ensures var after := StakingTxs(k, index, txs);
            var undone := UndoStakingTxs(after, index, txs);
            && Tidy(undone) && SameRegistry(undone, k)
            && (StakeOf(undone.stakes, v, s) == StakeOf(k.stakes, v, s) <==>
                NeverBelow(StakeOf(k.stakes, v, s), Negated(StakeDeltas(txs, v, s))) &&
                NeverBelow(StakeOf(after.stakes, v, s), StakeDeltas(txs, v, s)))
            && (Get(undone.total, v) == Get(k.total, v) <==>
                NeverBelow(Get(k.total, v), Negated(TotalDeltas(txs, v))) &&
                  NeverBelow(Get(after.total, v), TotalDeltas(txs, v)))
  {
    var after := StakingTxs(k, index, txs);
    StakingTxsGets(k, index, txs, v, s);
    UndoStakingTxsGets(after, index, txs, v, s);
    ThereAndBack(StakeOf(k.stakes, v, s), StakeDeltas(txs, v, s));
    ThereAndBack(Get(k.total, v), TotalDeltas(txs, v));
  }

  /** Stakes, totals and unbonding entries are restored if and only if every UNSTAKE is covered
      and no clamp fires on the way back. */
  lemma UndoStakingExact(k: Staking, index: int, txs: seq<Tx>)
    requires Tidy(k) && AllReversible(txs)
    requires forall e <- k.unbonding :: e.release < index + UNBONDING_PERIOD
    ensures var after := StakingTxs(k, index, txs);
            UndoStakingTxs(after, index, txs) == k <==> Covered(k, index, txs) && NoClamp(after, txs)
  {
    hide StakingTxs, UndoStakingTxs, StakeOf, StakeDeltas, TotalDeltas, Negated, Covered;
    var after := StakingTxs(k, index, txs);
    var undone := UndoStakingTxs(after, index, txs);
    CoveredIff(k, index, txs);
    UndoEntriesExact(k, index, txs);
    UndoAccountExact(k, index, txs, "", "");
    forall v, s
      ensures StakeOf(undone.stakes, v, s) == StakeOf(k.stakes, v, s) <==>
              NeverBelow(StakeOf(k.stakes, v, s), Negated(StakeDeltas(txs, v, s))) &&
              NeverBelow(StakeOf(after.stakes, v, s), StakeDeltas(txs, v, s))
    { UndoAccountExact(k, index, txs, v, s); }
    forall v
      ensures Get(undone.total, v) == Get(k.total, v) <==>
              NeverBelow(Get(k.total, v), Negated(TotalDeltas(txs, v))) &&
                NeverBelow(Get(after.total, v), TotalDeltas(txs, v))
    { UndoAccountExact(k, index, txs, v, ""); }
    if Covered(k, index, txs) && NoClamp(after, txs) {
      StakesExt(undone.stakes, k.stakes);
      Ext(undone.total, k.total);
    }
  }
}
