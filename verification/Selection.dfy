/** Stake-weighted validator choice, `_select_dpos` of qbit_network/core/consensus.py. */
module Selection {
  import opened Maps
  import opened Types
  import Fees

  type Active = seq<(Addr, int)>

  function TotalStake(active: Active): int {
    if active == [] then 0 else active[0].1 + TotalStake(active[1..])
  }

  /** What `get_active_validators` returns: positive stakes on distinct addresses. */
  predicate IsActiveSet(active: Active) {
    && (forall i | 0 <= i < |active| :: active[i].1 > 0)
    && (forall i, j | 0 <= i < j < |active| :: active[i].0 != active[j].0)
  }

  lemma {:induction false} TotalStakeSplit(active: Active, i: nat)
    requires i <= |active|
    ensures TotalStake(active) == TotalStake(active[..i]) + TotalStake(active[i..])
    decreases i
  {
    if i == 0 {
      assert active[0..] == active;
    } else {
      TotalStakeSplit(active[1..], i - 1);
      assert active[1..][..i - 1] == active[..i][1..];
      assert active[1..][i - 1..] == active[i..];
    }
  }

  lemma {:induction false} TotalStakePositive(active: Active)
    requires forall i | 0 <= i < |active| :: active[i].1 > 0
    ensures TotalStake(active) >= |active|
  {
    if active != [] { TotalStakePositive(active[1..]); }
  }

  /** The stake before validator i: it owns the points from there up to its own stake. */
  function Offset(active: Active, i: nat): int
    requires i <= |active|
  {
    TotalStake(active[..i])
  }

  predicate Owns(active: Active, i: nat, point: int)
    requires i < |active|
  {
    Offset(active, i) <= point < Offset(active, i) + active[i].1
  }

  lemma OffsetStep(active: Active, i: nat)
    requires i < |active|
    ensures Offset(active, i + 1) == Offset(active, i) + active[i].1
  {
    TotalStakeSplit(active[..i + 1], i);
    assert active[..i + 1][..i] == active[..i] && active[..i + 1][i..] == [active[i]];
  }

  lemma {:induction false} OffsetMono(active: Active, i: nat, j: nat)
    requires i <= j <= |active| && forall k | 0 <= k < |active| :: active[k].1 > 0
    ensures Offset(active, i) <= Offset(active, j)
    decreases j - i
  {
    if i < j {
      OffsetStep(active, i);
      OffsetMono(active, i + 1, j);
    }
  }

  /** Every point below the total has exactly one owner. */
  lemma OneOwner(active: Active, i: nat, j: nat, point: int)
    requires IsActiveSet(active) && i < |active| && j < |active|
    requires Owns(active, i, point) && Owns(active, j, point)
    ensures i == j
  {
    OffsetStep(active, i);
    OffsetStep(active, j);
    if i < j { OffsetMono(active, i + 1, j); }
    if j < i { OffsetMono(active, j + 1, i); }
  }

  /** `seed` is the first eight bytes of the hash of the parent hash and the block index. The
      loop always finds the owner of the point, so its fallback is never reached. */
  method SelectDpos(seed: nat, active: Active) returns (addr: Addr)
    requires IsActiveSet(active) && active != []
    ensures TotalStake(active) > 0
    ensures forall i | 0 <= i < |active| ::
      addr == active[i].0 <==> Owns(active, i, seed % TotalStake(active))
    ensures exists i | 0 <= i < |active| :: addr == active[i].0
  {
    TotalStakePositive(active);
    var total := Sum(active);
    var point := seed % total;
    var cumulative := 0;
    assert active[..|active|] == active;
    for k := 0 to |active|
      invariant cumulative == Offset(active, k) <= point
    {
      OffsetStep(active, k);
      cumulative := cumulative + active[k].1;
      if point < cumulative {
        forall i | 0 <= i < |active| && Owns(active, i, point) ensures i == k {
          OneOwner(active, i, k, point);
        }
        assert Owns(active, k, point);
        return active[k].0;
      }
    }
    assert false;
    addr := "";
  }

  /** Adds up the stakes. */
  method Sum(active: Active) returns (total: int)
    ensures total == TotalStake(active)
  {
    total := 0;
    for k := 0 to |active|
      invariant total == Offset(active, k)
    {
      OffsetStep(active, k);
      total := total + active[k].1;
    }
    assert active[..|active|] == active;
  }

  /** How many of the seeds 0 .. n-1 choose validator i. */
  ghost function SeedsChoosing(active: Active, i: nat, n: nat): nat
    requires IsActiveSet(active) && i < |active|
  {
    if n == 0 then 0 else
    TotalStakePositive(active);
    SeedsChoosing(active, i, n - 1) + if Owns(active, i, (n - 1) % TotalStake(active)) then 1 else 0
  }

  function Clamp(x: int, hi: int): int { Max(0, Min(x, hi)) }

  /** The exact count: the stake once for each full round, and the part of the last round
      that falls into the validator's points. */
  lemma {:induction false} SeedCount(active: Active, i: nat, n: nat, q: nat, r: nat)
    requires IsActiveSet(active) && i < |active| && n == q * TotalStake(active) + r && r < TotalStake(active)
    ensures SeedsChoosing(active, i, n) == q * active[i].1 + Clamp(r - Offset(active, i), active[i].1)
    decreases n
  {
    var total, s := TotalStake(active), active[i].1;
    OffsetMono(active, 0, i);
    OffsetStep(active, i);
    OffsetMono(active, i + 1, |active|);
    assert active[..|active|] == active;
    if r > 0 {
      SeedCount(active, i, n - 1, q, r - 1);
      Remainder(n - 1, total, q, r - 1);
    } else if q > 0 {
      assert (q - 1) * total == q * total - total && (q - 1) * s == q * s - s;
      SeedCount(active, i, n - 1, q - 1, total - 1);
      Remainder(n - 1, total, q - 1, total - 1);
    }
  }

  lemma Remainder(a: int, d: int, q: int, r: int)
    requires d > 0 && a == q * d + r && 0 <= r < d
    ensures a % d == r && a / d == q
  {
    Fees.DivUnique(a, d, q);
    assert a == a / d * d + a % d;
  }

  lemma OneRound(active: Active, i: nat)
    requires IsActiveSet(active) && i < |active| && TotalStake(active) > 0
    ensures SeedsChoosing(active, i, TotalStake(active)) == active[i].1
  {
    OffsetMono(active, 0, i);
    SeedCount(active, i, TotalStake(active), 1, 0);
  }

  lemma ManyRounds(active: Active, i: nat, seeds: nat, q: nat, r: nat)
    requires IsActiveSet(active) && i < |active| && seeds == q * TotalStake(active) + r && r < TotalStake(active)
    ensures active[i].1 * q <= SeedsChoosing(active, i, seeds) <= active[i].1 * (q + 1)
  {
    SeedCount(active, i, seeds, q, r);
    var s := active[i].1;
    assert s * (q + 1) == q * s + s && s * q == q * s;
    assert 0 <= Clamp(r - Offset(active, i), s) <= s;
  }

  lemma Divide(a: nat, d: nat) returns (q: nat, r: nat)
    requires d > 0
    ensures a == q * d + r && r < d && q == a / d
  {
    q, r := a / d, a % d;
  }

  /** Each validator is chosen for exactly its stake many of the points, and over any number
      of seeds, 2^64 in the code, in proportion to its stake up to one round. */
  lemma StakeProportional(active: Active, i: nat, seeds: nat)
    requires IsActiveSet(active) && i < |active|
    ensures TotalStake(active) > 0
    ensures SeedsChoosing(active, i, TotalStake(active)) == active[i].1
    ensures var rounds := seeds / TotalStake(active);
            active[i].1 * rounds <= SeedsChoosing(active, i, seeds) <= active[i].1 * (rounds + 1)
  {
    TotalStakePositive(active);
    OneRound(active, i);
    var q, r := Divide(seeds, TotalStake(active));
    ManyRounds(active, i, seeds, q, r);
  }
}
