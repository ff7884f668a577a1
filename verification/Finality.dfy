/** The finality rule, `_update_finality` of qbit_network/core/receipt_ops.py. */
module Finality {
  import opened Maps
  import opened Types

  predicate NonNegative(stake: map<Addr, int>) { forall v <- stake :: stake[v] >= 0 }

  function StakesOn(stake: map<Addr, int>, vs: set<Addr>): map<Addr, int> {
    map v | v in vs :: if v in vs then Get(stake, v) else 0
  }

  /** The stake of a set of validators, an unknown one counting nothing. */
  ghost function StakeAt(stake: map<Addr, int>, vs: set<Addr>): int {
    Sum(StakesOn(stake, vs))
  }

  /** The distinct validators of blocks h .. tip. */
  function Builders(chain: seq<Block>, h: int, tip: int): set<Addr>
    requires 0 <= h && tip < |chain|
  {
    set i | h <= i <= tip :: chain[i].validator
  }

  /** Blocks h .. tip were built by more than two thirds of the stake. */
  ghost predicate Quorum(stake: map<Addr, int>, chain: seq<Block>, h: int, tip: int)
    requires 0 <= h && tip < |chain|
  {
    StakeAt(stake, Builders(chain, h, tip)) * 3 > Sum(stake) * 2
  }

  ghost predicate QuorumSince(stake: map<Addr, int>, chain: seq<Block>, h: int)
    requires 0 <= h && chain != []
  {
    Quorum(stake, chain, h, |chain| - 1)
  }

  lemma StakeOfAdd(stake: map<Addr, int>, vs: set<Addr>, v: Addr)
    ensures v !in vs ==> StakeAt(stake, vs + {v}) == StakeAt(stake, vs) + Get(stake, v)
    ensures v in vs ==> vs + {v} == vs
  {
    if v !in vs {
      var m := StakesOn(stake, vs);
      SumPut(m, v, Get(stake, v));
      assert m[v := Get(stake, v)] == StakesOn(stake, vs + {v});
    }
  }

  lemma {:induction false} StakeOfUnion(stake: map<Addr, int>, a: set<Addr>, b: set<Addr>)
    ensures StakeAt(stake, a) + StakeAt(stake, b) == StakeAt(stake, a + b) + StakeAt(stake, a * b)
    decreases |b|
  {
    if v :| v in b {
      var c := b - {v};
      StakeOfUnion(stake, a, c);
      assert c + {v} == b && (a + c) + {v} == a + b;
      StakeOfAdd(stake, c, v);
      StakeOfAdd(stake, a + c, v);
      if v in a {
        StakeOfAdd(stake, a * c, v);
        assert a * c + {v} == a * b;
      } else {
        assert a * c == a * b;
      }
    } else {
      assert a + b == a && a * b == {} == b;
    }
  }

  lemma StakeOfEmpty(stake: map<Addr, int>)
    ensures StakeAt(stake, {}) == 0
  {
    assert StakesOn(stake, {}) == map[];
  }

  lemma StakeOfBounds(stake: map<Addr, int>, vs: set<Addr>)
    requires NonNegative(stake)
    ensures 0 <= StakeAt(stake, vs) <= Sum(stake)
  {
    var others := stake.Keys - vs;
    var all := StakesOn(stake, vs + others);
    SumBounds(StakesOn(stake, vs));
    SumBounds(StakesOn(stake, others));
    StakeOfUnion(stake, vs, others);
    assert vs * others == {};
    StakeOfEmpty(stake);
    Ext(Norm(all), Norm(stake));
    SumNorm(all);
    SumNorm(stake);
  }

  lemma StakeOfSubset(stake: map<Addr, int>, a: set<Addr>, b: set<Addr>)
    requires NonNegative(stake) && a <= b
    ensures StakeAt(stake, a) <= StakeAt(stake, b)
  {
    StakeOfUnion(stake, a, b - a);
    assert a + (b - a) == b && a * (b - a) == {};
    StakeOfBounds(stake, b - a);
    StakeOfEmpty(stake);
  }

  /** Reaching further back only adds builders. */
  lemma QuorumMonotone(stake: map<Addr, int>, chain: seq<Block>, g: int, h: int, tip: int)
    requires NonNegative(stake) && 0 <= g <= h && tip < |chain| && Quorum(stake, chain, h, tip)
    ensures Quorum(stake, chain, g, tip)
  {
    StakeOfSubset(stake, Builders(chain, h, tip), Builders(chain, g, tip));
  }

  /** Any two quorums over one stake table share more than one third of the stake. */
  lemma QuorumsIntersect(stake: map<Addr, int>, a: set<Addr>, b: set<Addr>)
    requires NonNegative(stake)
    requires StakeAt(stake, a) * 3 > Sum(stake) * 2 && StakeAt(stake, b) * 3 > Sum(stake) * 2
    ensures StakeAt(stake, a * b) * 3 > Sum(stake)
    ensures a * b != {}
  {
    StakeOfUnion(stake, a, b);
    StakeOfBounds(stake, a + b);
    StakeOfEmpty(stake);
  }

  /** Blocks h .. tip have a quorum if and only if the validators that built none of them hold less
      than a third of the stake. */
  lemma QuorumIff(stake: map<Addr, int>, chain: seq<Block>, h: int, tip: int)
    requires NonNegative(stake) && 0 <= h && tip < |chain|
    ensures Quorum(stake, chain, h, tip) <==>
            StakeAt(stake, stake.Keys - Builders(chain, h, tip)) * 3 < Sum(stake)
  {
    var built := Builders(chain, h, tip);
    var others := stake.Keys - built;
    StakeOfUnion(stake, built, others);
    StakeOfEmpty(stake);
    assert built * others == {};
    StakeOfAll(stake, built + others);
  }

  lemma StakeOfAll(stake: map<Addr, int>, vs: set<Addr>)
    requires stake.Keys <= vs
    ensures StakeAt(stake, vs) == Sum(stake)
  {
    Ext(Norm(StakesOn(stake, vs)), Norm(stake));
    SumNorm(StakesOn(stake, vs));
    SumNorm(stake);
  }

  /** Two chains cannot both be finalized by different validators: whatever heights two updates
      over the same stakes have reached, validators with more than a third of the stake built on
      both chains from there on, and one of them has a stake. */
  lemma FinalizedTogether(stake: map<Addr, int>, chain: seq<Block>, h: int, chain': seq<Block>, h': int)
    requires NonNegative(stake) && 0 <= h < |chain| && 0 <= h' < |chain'|
    requires QuorumSince(stake, chain, h) && QuorumSince(stake, chain', h')
    ensures var both := Builders(chain, h, |chain| - 1) * Builders(chain', h', |chain'| - 1);
            StakeAt(stake, both) * 3 > Sum(stake)
    ensures exists i, j :: h <= i < |chain| && h' <= j < |chain'| && chain[i].validator == chain'[j].validator
                           && Get(stake, chain[i].validator) > 0
  {
    var built, built' := Builders(chain, h, |chain| - 1), Builders(chain', h', |chain'| - 1);
    QuorumsIntersect(stake, built, built');
    var v := Staked(stake, built * built');
    var i :| h <= i <= |chain| - 1 && chain[i].validator == v;
    var j :| h' <= j <= |chain'| - 1 && chain'[j].validator == v;
  }

  lemma Staked(stake: map<Addr, int>, vs: set<Addr>) returns (v: Addr)
    requires NonNegative(stake) && StakeAt(stake, vs) * 3 > Sum(stake)
    ensures v in vs && Get(stake, v) > 0
  {
    SumBounds(stake);
    if forall u <- vs :: Get(stake, u) == 0 { NoStake(stake, vs); }
    v :| v in vs && Get(stake, v) != 0;
  }

  lemma NoStake(stake: map<Addr, int>, vs: set<Addr>)
    requires forall u <- vs :: Get(stake, u) == 0
    ensures StakeAt(stake, vs) == 0
  {
    SumNorm(StakesOn(stake, vs));
    assert Norm(StakesOn(stake, vs)) == map[];
  }

  class FinalityTracker {
    var finalizedHeight: int

    constructor ()
      ensures finalizedHeight == -1
    {
      finalizedHeight := -1;
    }

    /** The walk stops at the greatest height above the old one from which on a quorum has
        built, and leaves the finalized height alone when there is none. It never falls. */
    method UpdateFinality(chain: seq<Block>, totalStake: map<Addr, int>, total: int)
      requires NonNegative(totalStake) && total == Sum(totalStake)
      modifies this
      ensures finalizedHeight >= old(finalizedHeight)
      ensures finalizedHeight != old(finalizedHeight) ==>
                && 0 <= finalizedHeight < |chain|
                && QuorumSince(totalStake, chain, finalizedHeight)
      ensures forall h | Max(finalizedHeight, -1) < h < |chain| :: !QuorumSince(totalStake, chain, h)
    {
      var tip := |chain| - 1;
      if total == 0 {
        forall h | Max(finalizedHeight, -1) < h < |chain| ensures !QuorumSince(totalStake, chain, h) {
          StakeOfBounds(totalStake, Builders(chain, h, tip));
        }
        return;
      }
      var seen: set<Addr> := {};
      var cumulative := 0;
      var i := tip;
      StakeOfEmpty(totalStake);
      while i > Max(finalizedHeight, -1)
        invariant -1 <= i <= tip
        invariant seen == Builders(chain, i + 1, tip) && cumulative == StakeAt(totalStake, seen)
        invariant finalizedHeight == old(finalizedHeight)
        invariant forall h | i < h < |chain| :: !QuorumSince(totalStake, chain, h)
      {
        var v := chain[i].validator;
        StakeOfAdd(totalStake, seen, v);
        assert Builders(chain, i, tip) == Builders(chain, i + 1, tip) + {v};
        if v !in seen {
          seen := seen + {v};
          cumulative := cumulative + Get(totalStake, v);
        }
        if cumulative * 3 > total * 2 {
          finalizedHeight := i;
          return;
        }
        i := i - 1;
      }
    }
  }
}
