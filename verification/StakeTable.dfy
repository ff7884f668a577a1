/** Stakes, totals and unbonding entries as the program keeps them, with the empty tables and
    the zero totals it leaves behind: qbit_network/core/staking.py and the staking branches of
    blockchain.py and rollback.py. */
module StakeTables {
  import opened Maps
  import opened Types
  import opened StakeLedger
  import opened BalanceLedgers
  import Ledger

  function DropEmpty(m: Stakes): Stakes { map v | v in m && m[v] != map[] :: m[v] }

  lemma DropEmptyPut(m: Stakes, v: Addr, inner: map<Addr, int>)
    ensures DropEmpty(m[v := inner]) == PutInner(DropEmpty(m), v, inner)
    ensures DropEmpty(m - {v}) == PutInner(DropEmpty(m), v, map[])
    ensures Inner(DropEmpty(m), v) == if v in m then m[v] else map[]
  {}

  lemma PutNonZero(inner: map<Addr, int>, s: Addr, x: int)
    ensures Put(inner, s, x) == if x == 0 then inner - {s} else inner[s := x]
  {}

  lemma InnerPositive(st: Stakes, v: Addr, s: Addr)
    requires CanonicalStakes(st)
    ensures Positive(Inner(st, v)) && StakeOf(st, v, s) >= 0
    ensures s in Inner(st, v) <==> StakeOf(st, v, s) > 0
  {}

  class StakeTable {
    var stakes: Stakes
    var totalStake: map<Addr, int>
    var unbonding: seq<Entry>
    var registry: set<Addr>
    var commission: map<Addr, int>
    var processedEvidence: set<Addr>

    function Abs(): Staking
      reads this
    {
      Staking(DropEmpty(stakes), Norm(totalStake), unbonding, registry, commission, processedEvidence)
    }

    constructor ()
      ensures stakes == map[] && totalStake == map[] && unbonding == [] && registry == {} && commission == map[] &&
              processedEvidence == {}
    {
      stakes, totalStake, unbonding, registry, commission, processedEvidence := map[], map[], [], {}, map[], {};
    }

    /** STAKE and DELEGATE, and the reversal of UNSTAKE. */
    method Add(v: Addr, s: Addr, amount: int)
      requires Tidy(Abs())
      modifies this`stakes, this`totalStake
      ensures Abs() == AddStake(old(Abs()), v, s, amount)
    {
      if v == "" || amount <= 0 { return; }
      var inner := if v in stakes then stakes[v] else map[];
      var more := stakes[v := inner[s := Get(inner, s) + amount]];
      var total := Get(totalStake, v) + amount;
      AddTables(Abs(), stakes, totalStake, v, s, amount, more, total);
      stakes := more;
      totalStake := totalStake[v := total];
    }

    /** The stake part of UNSTAKE. */
    method Cut(v: Addr, s: Addr, amount: int)
      requires Tidy(Abs())
      modifies this`stakes, this`totalStake
      ensures Abs() == CutStake(old(Abs()), v, s, amount)
    {
      if v == "" || amount <= 0 { return; }
      var inner := if v in stakes then stakes[v] else map[];
      var left := Max(0, Get(inner, s) - amount);
      var total := Max(0, Get(totalStake, v) - amount);
      CutInner(stakes, v, s, left);
      NormPut(totalStake, v, total);
      if v in stakes {
        stakes := stakes[v := if left == 0 then inner - {s} else inner[s := left]];
      }
      totalStake := totalStake[v := total];
    }

    /** UNSTAKE, with its unbonding entry. */
    method Unstake(v: Addr, s: Addr, amount: int, release: int)
      requires Tidy(Abs())
      modifies this`stakes, this`totalStake, this`unbonding
      ensures Abs() == RemoveStake(old(Abs()), v, s, amount, release)
    {
      if v == "" || amount <= 0 { return; }
      Cut(v, s, amount);
      unbonding := unbonding + [Entry(s, v, amount, release)];
    }

    /** The reversal of STAKE and DELEGATE, which drops what reaches zero. */
    method UndoAdd(v: Addr, s: Addr, amount: int)
      requires Tidy(Abs())
      modifies this`stakes, this`totalStake
      ensures Abs() == CutStake(old(Abs()), v, s, amount)
    {
      if v == "" || amount <= 0 { return; }
      var left := stakes;
      if v in stakes && s in stakes[v] {
        if stakes[v][s] - amount <= 0 {
          left := stakes[v := stakes[v] - {s}];
        } else {
          left := stakes[v := stakes[v][s := stakes[v][s] - amount]];
        }
      }
      var total := Max(0, Get(totalStake, v) - amount);
      UndoAddTables(Abs(), stakes, totalStake, v, s, amount, left);
      stakes := left;
      if total == 0 {
        totalStake := totalStake - {v};
      } else {
        totalStake := totalStake[v := total];
      }
    }

    /** The reversal of UNSTAKE, its unbonding entry included. */
    method UndoUnstake(v: Addr, s: Addr, amount: int, release: int)
      requires Tidy(Abs())
      modifies this`stakes, this`totalStake, this`unbonding
      ensures Abs() == UndoRemoveStake(old(Abs()), v, s, amount, release)
    {
      if v == "" || amount <= 0 { return; }
      Add(v, s, amount);
      unbonding := FilterOut(unbonding, Entry(s, v, amount, release));
    }

    method Register(v: Addr, rate: Option<int>)
      modifies this`registry, this`commission
      ensures Abs() == StakeLedger.Register(old(Abs()), v, rate)
    {
      registry := registry + {v};
      if rate.Some? && 0 <= rate.value <= 100 {
        commission := commission[v := rate.value];
      }
    }

    method Revoke(v: Addr)
      modifies this`registry
      ensures Abs() == old(Abs()).(registered := old(registry) - {v})
    {
      registry := registry - {v};
    }

    /** The loop of a slashing over the stakers of one validator. */
    method CutStakers(inner: map<Addr, int>) returns (cut: map<Addr, int>)
      requires Positive(inner)
      ensures cut == ReducedAll(inner)
    {
      cut := inner;
      var todo := inner.Keys;
      while todo != {}
        invariant todo <= inner.Keys && forall s <- todo :: s in cut
        invariant forall s :: s in cut <==> s in todo || s in ReducedAll(inner)
        invariant forall s <- cut :: cut[s] == if s in todo then inner[s] else Reduced(inner[s])
        decreases |todo|
      {
        var s :| s in todo;
        var reduction := inner[s] * SLASH_PERCENTAGE / 100;
        if reduction <= 0 && inner[s] > 0 { reduction := 1; }
        var amount := Max(0, inner[s] - reduction);
        assert amount == Reduced(inner[s]);
        cut := if amount == 0 then cut - {s} else cut[s := amount];
        todo := todo - {s};
      }
    }

    /** `_process_evidence_tx`; the result tells whether the validator was slashed. */
    method ProcessEvidence(v: Addr, proofOk: bool) returns (done: bool)
      requires Tidy(Abs())
      modifies this`stakes, this`totalStake, this`processedEvidence
      ensures done == Punishes(old(Abs()), v, proofOk)
      ensures Abs() == if done then SlashValidator(old(Abs()), v) else old(Abs())
    {
      if v == "" || v in processedEvidence { return false; }
      if v !in registry { return false; }
      if !proofOk { return false; }
      var total := Get(totalStake, v);
      var amount := total * SLASH_PERCENTAGE / 100;
      if amount <= 0 && total > 0 { amount := 1; }
      var newTotal := Max(0, total - amount);
      SlashedTables(Abs(), stakes, totalStake, v);
      var cut := stakes;
      if v in stakes {
        var inner := CutStakers(stakes[v]);
        cut := stakes[v := inner];
      }
      if newTotal < MIN_STAKE {
        totalStake, stakes := totalStake[v := newTotal] - {v}, cut - {v};
      } else {
        totalStake, stakes := totalStake[v := newTotal], cut;
      }
      processedEvidence := processedEvidence + {v};
      done := true;
    }

    /** The staking branches of block processing. */
    method ProcessTx(index: int, tx: Tx)
      requires Tidy(Abs())
      modifies this
      ensures Abs() == StakingTx(old(Abs()), index, tx)
    {
      match tx.payload
      case Stake(v, a) => Add(v, tx.sender, a);
      case Delegate(v, a) => Add(v, tx.sender, a);
      case Unstake(v, a) => Unstake(v, tx.sender, a, index + UNBONDING_PERIOD);
      case RegisterValidator(c) => Register(tx.sender, c);
      case RevokeKey(kind) => if kind == "validator" { Revoke(tx.sender); }
      case Evidence(v, ok) => var _ := ProcessEvidence(v, ok);
      case _ =>
    }

    /** The staking branches of the reversal, for the types it reverses. */
    method UndoTx(index: int, tx: Tx)
      requires Tidy(Abs()) && Reversible(tx)
      modifies this
      ensures Abs() == UndoStakingTx(old(Abs()), index, tx)
    {
      match tx.payload
      case Stake(v, a) => UndoAdd(v, tx.sender, a);
      case Delegate(v, a) => UndoAdd(v, tx.sender, a);
      case Unstake(v, a) => UndoUnstake(v, tx.sender, a, index + UNBONDING_PERIOD);
      case _ =>
    }

    /** One entry of the queue: it is credited when it has matured. */
    method CreditIfMature(ledger: BalanceLedger, e: Entry, index: int) returns (mature: bool)
      requires Positive(ledger.balances) && e.amount > 0
      modifies ledger`balances
      ensures mature == (e.release <= index) && Positive(ledger.balances)
      ensures ledger.balances == if mature then Maps.Add(old(ledger.balances), e.staker, e.amount)
              else old(ledger.balances)
    {
      mature := e.release <= index;
      if mature {
        NormOfPositive(ledger.balances);
        ledger.Credit(e.staker, e.amount);
        NormOfPositive(ledger.balances);
      }
    }

    /** `_process_mature_unbondings`: matured entries are credited and dropped. */
    method ProcessMatureUnbondings(ledger: BalanceLedger, index: int)
      requires Positive(ledger.balances) && forall e <- unbonding :: e.amount > 0
      modifies this`unbonding, ledger`balances
      ensures unbonding == Ledger.Waiting(old(unbonding), index)
      ensures ledger.balances == Ledger.MatureCredits(old(ledger.balances), old(unbonding), index)
      ensures Positive(ledger.balances)
    {
      var remaining := [];
      assert unbonding[0..] == unbonding;
      for i := 0 to |unbonding|
        invariant unbonding == old(unbonding) && Positive(ledger.balances)
        invariant remaining + Ledger.Waiting(unbonding[i..], index) == Ledger.Waiting(unbonding, index)
        invariant Ledger.MatureCredits(ledger.balances, unbonding[i..], index) ==
                  Ledger.MatureCredits(old(ledger.balances), unbonding, index)
      {
        var e := unbonding[i];
        MatureStep(ledger.balances, unbonding, i, index);
        var mature := CreditIfMature(ledger, e, index);
        if !mature {
          AppendFirst(remaining, e, Ledger.Waiting(unbonding[i + 1..], index));
          remaining := remaining + [e];
        }
      }
      NoneLeft(unbonding, ledger.balances, index);
      unbonding := remaining;
    }
  }

  lemma NoneLeft(es: seq<Entry>, bal: map<Addr, int>, index: int)
    ensures Ledger.Waiting(es[|es|..], index) == [] && Ledger.MatureCredits(bal, es[|es|..], index) == bal
  {}

  lemma AddInner(stakes: Stakes, v: Addr, s: Addr, amount: int)
    requires CanonicalStakes(DropEmpty(stakes)) && amount > 0
    ensures var inner := if v in stakes then stakes[v] else map[];
            DropEmpty(stakes[v := inner[s := Get(inner, s) + amount]]) ==
            SetStake(DropEmpty(stakes), v, s, StakeOf(DropEmpty(stakes), v, s) + amount)
  {
    var inner := if v in stakes then stakes[v] else map[];
    DropEmptyPut(stakes, v, inner[s := Get(inner, s) + amount]);
    InnerPositive(DropEmpty(stakes), v, s);
    PutNonZero(inner, s, Get(inner, s) + amount);
  }

  lemma AppendFirst(a: seq<Entry>, e: Entry, b: seq<Entry>)
    ensures a + ([e] + b) == (a + [e]) + b
  {}

  lemma MatureStep(bal: map<Addr, int>, es: seq<Entry>, i: nat, index: int)
    requires i < |es|
    ensures Ledger.Waiting(es[i..], index)
            == (if es[i].release <= index then [] else [es[i]]) + Ledger.Waiting(es[i + 1..], index)
    ensures Ledger.MatureCredits(bal, es[i..], index) ==
            Ledger.MatureCredits(if es[i].release <= index then Maps.Add(bal, es[i].staker, es[i].amount)
              else bal, es[i + 1..], index)
  {
    assert es[i..][1..] == es[i + 1..] && es[i..][0] == es[i];
  }

  lemma AddTables(k: Staking, stakes: Stakes, totals: map<Addr, int>, v: Addr, s: Addr, amount: int, more: Stakes,
                  total: int)
    requires Tidy(k) && k.stakes == DropEmpty(stakes) && k.total == Norm(totals) && !Idle(v, amount)
    requires total == Get(totals, v) + amount
    requires more == stakes[v := (if v in stakes then stakes[v]
             else map[])[s := Get(if v in stakes then stakes[v] else map[], s) + amount]]
    ensures AddStake(k, v, s, amount) == k.(stakes := DropEmpty(more), total := Norm(totals[v := total]))
  {
    AddInner(stakes, v, s, amount);
    NormPut(totals, v, total);
  }

  lemma UndoAddTables(k: Staking, stakes: Stakes, totals: map<Addr, int>, v: Addr, s: Addr, amount: int, left: Stakes)
    requires Tidy(k) && k.stakes == DropEmpty(stakes) && k.total == Norm(totals) && !Idle(v, amount)
    requires left == if v in stakes && s in stakes[v] then
                       (if stakes[v][s] - amount <= 0 then stakes[v := stakes[v] - {s}]
                         else stakes[v := stakes[v][s := stakes[v][s] - amount]])
                     else stakes
    ensures var total := Max(0, Get(totals, v) - amount);
            CutStake(k, v, s, amount) ==
            k.(stakes := DropEmpty(left), total := Norm(if total == 0 then totals - {v} else totals[v := total]))
  {
    var total := Max(0, Get(totals, v) - amount);
    NormPut(totals, v, total);
    LeftStakes(stakes, v, s, amount, left);
  }

  lemma LeftStakes(stakes: Stakes, v: Addr, s: Addr, amount: int, left: Stakes)
    requires CanonicalStakes(DropEmpty(stakes)) && amount > 0
    requires left == if v in stakes && s in stakes[v] then
                       (if stakes[v][s] - amount <= 0 then stakes[v := stakes[v] - {s}]
                         else stakes[v := stakes[v][s := stakes[v][s] - amount]])
                     else stakes
    ensures DropEmpty(left) == SetStake(DropEmpty(stakes), v, s, Max(0, StakeOf(DropEmpty(stakes), v, s) - amount))
  {
    var inner := if v in stakes then stakes[v] else map[];
    CutInner(stakes, v, s, Max(0, Get(inner, s) - amount));
  }

  /** The tables after a slashing, from the reduced stakers and the reduced total. */
  lemma SlashedTables(k: Staking, stakes: Stakes, totals: map<Addr, int>, v: Addr)
    requires Tidy(k) && k.stakes == DropEmpty(stakes) && k.total == Norm(totals)
    ensures v in stakes ==> Positive(stakes[v])
    ensures var total := Reduced(Get(totals, v));
            var cut := if v in stakes then stakes[v := ReducedAll(stakes[v])] else stakes;
            SlashValidator(k, v) ==
            k.(stakes := DropEmpty(if total < MIN_STAKE then cut - {v} else cut),
               total := Norm(if total < MIN_STAKE then totals[v := total] - {v} else totals[v := total]),
               punished := k.punished + {v})
  {
    DropEmptyPut(stakes, v, map[]);
    InnerPositive(k.stakes, v, "");
    SlashedStakes(stakes, v);
    NormPut(totals, v, Reduced(Get(totals, v)));
    NormPut(totals, v, 0);
    assert totals[v := Reduced(Get(totals, v))] - {v} == totals - {v};
  }

  lemma SlashedStakes(stakes: Stakes, v: Addr)
    ensures var cut := if v in stakes then stakes[v := ReducedAll(stakes[v])] else stakes;
            && DropEmpty(cut) == PutInner(DropEmpty(stakes), v, ReducedAll(Inner(DropEmpty(stakes), v)))
            && DropEmpty(cut - {v}) == PutInner(DropEmpty(stakes), v, map[])
  {
    DropEmptyPut(stakes, v, map[]);
    if v in stakes {
      DropEmptyPut(stakes, v, ReducedAll(stakes[v]));
      assert stakes[v := ReducedAll(stakes[v])] - {v} == stakes - {v};
    } else {
      assert ReducedAll(map[]) == map[] && stakes - {v} == stakes;
    }
  }

  lemma CutInner(stakes: Stakes, v: Addr, s: Addr, left: int)
    requires CanonicalStakes(DropEmpty(stakes)) && left >= 0
    ensures var inner := if v in stakes then stakes[v] else map[];
            && Inner(DropEmpty(stakes), v) == inner && (s !in inner <==> Get(inner, s) <= 0)
            && DropEmpty(if v in stakes then stakes[v := if left == 0 then inner - {s} else inner[s := left]]
               else stakes) ==
               (if v in stakes then SetStake(DropEmpty(stakes), v, s, left) else DropEmpty(stakes))
            && (v !in stakes || s !in inner ==> SetStake(DropEmpty(stakes), v, s, 0) == DropEmpty(stakes))
  {
    var inner := if v in stakes then stakes[v] else map[];
    DropEmptyPut(stakes, v, if left == 0 then inner - {s} else inner[s := left]);
    InnerPositive(DropEmpty(stakes), v, s);
    if v !in stakes || s !in inner { assert inner - {s} == inner; }
  }
}
