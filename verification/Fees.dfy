/** The EIP-1559 style fees of qbit_network/core/fees.py. */
module Fees {
  import opened Maps
  import opened Types

  /** Block weight without the validator's own transactions. */
  function EffectiveWeight(txs: seq<Tx>, validator: Addr): (w: nat)
    ensures w <= TotalWeight(txs)
  {
    if txs == [] then 0
    else (if txs[0].sender != validator then Weight(txs[0].payload) else 0) + EffectiveWeight(txs[1..], validator)
  }

  function TotalWeight(txs: seq<Tx>): nat {
    if txs == [] then 0 else Weight(txs[0].payload) + TotalWeight(txs[1..])
  }

  /** How much a base fee moves for a weight that misses the target by `delta`. */
  function FeeStep(parentFee: int, delta: int): int {
    parentFee * delta / TARGET_BLOCK_WEIGHT / BASE_FEE_CHANGE_DENOM
  }

  function ComputeBaseFee(parentFee: int, weight: int): int {
    var newFee :=
      if weight == TARGET_BLOCK_WEIGHT then parentFee
      else if weight > TARGET_BLOCK_WEIGHT then parentFee + Max(1, FeeStep(parentFee, weight - TARGET_BLOCK_WEIGHT))
      else parentFee - FeeStep(parentFee, TARGET_BLOCK_WEIGHT - weight);
    Max(MIN_BASE_FEE, Min(newFee, MAX_BASE_FEE))
  }

  /** A transaction never pays more per weight than it offered, provided it offered the base
      fee, and never less than the base fee. */
  function ComputeTxFee(baseFee: int, maxFee: int, maxPriority: int, weight: nat): (fee: int)
    ensures baseFee <= maxFee ==> fee <= maxFee * weight
    ensures baseFee * weight <= fee
    ensures maxFee <= baseFee || maxPriority <= 0 ==> fee == baseFee * weight
  {
    if weight == 0 then 0 else
    var priority := Max(0, Min(maxPriority, maxFee - baseFee));
    assert baseFee <= maxFee ==> baseFee + priority <= maxFee;
    MulMono(baseFee, baseFee + priority, weight);
    MulMono(baseFee + priority, maxFee, weight);
    (baseFee + priority) * weight
  }

  /** The tip is paid in full as far as the maximum allows: the price per weight is the base fee
      plus the offered priority, within the base fee and the offered maximum. */
  lemma TipIsPaid(baseFee: int, maxFee: int, maxPriority: int, weight: nat)
    ensures ComputeTxFee(baseFee, maxFee, maxPriority, weight) ==
            Max(baseFee, Min(baseFee + maxPriority, maxFee)) * weight
  {
    var priority := Max(0, Min(maxPriority, maxFee - baseFee));
    assert baseFee + priority == Max(baseFee, Min(baseFee + maxPriority, maxFee));
    if weight == 0 { MulMono(baseFee + priority, baseFee + priority, 0); }
  }

  lemma MulMono(a: int, b: int, w: nat)
    ensures a <= b ==> a * w <= b * w
  {}

  lemma DivUnique(a: int, d: int, q: int)
    requires d > 0 && q * d <= a < q * d + d
    ensures a / d == q
  {
    var x := a / d;
    assert a == x * d + a % d && (x + 1) * d == x * d + d && (q + 1) * d == q * d + d;
    MulMono(x + 1, q, d);
    MulMono(q + 1, x, d);
  }

  lemma DivMono(a: int, b: int, d: int)
    requires a <= b && d > 0
    ensures a / d <= b / d
  {
    var x, y := a / d, b / d;
    assert a == x * d + a % d && b == y * d + b % d && (y + 1) * d == y * d + d;
    MulMono(y + 1, x, d);
  }

  lemma DivPlusOne(a: int, d: int)
    requires d > 0
    ensures (a + d) / d == a / d + 1
  {
    var x := a / d;
    assert a == x * d + a % d && (x + 1) * d == x * d + d;
    DivUnique(a + d, d, x + 1);
  }

  /** A step of at most the whole target moves the fee by at most one eighth of it. */
  lemma FeeStepBound(p: int, delta: int)
    requires p >= 0 && 0 <= delta <= TARGET_BLOCK_WEIGHT
    ensures 0 <= FeeStep(p, delta) <= p / 8
    ensures FeeStep(p, TARGET_BLOCK_WEIGHT) == p / 8
  {
    assert p * delta <= p * TARGET_BLOCK_WEIGHT by { MulMono(delta, TARGET_BLOCK_WEIGHT, p); }
    assert p * delta >= 0;
    assert p * TARGET_BLOCK_WEIGHT / TARGET_BLOCK_WEIGHT == p;
    DivMono(p * delta, p * TARGET_BLOCK_WEIGHT, TARGET_BLOCK_WEIGHT);
    DivMono(p * delta / TARGET_BLOCK_WEIGHT, p, 8);
  }

  lemma FeeStepMonotone(p: int, q: int, d: int, e: int)
    requires 0 <= p <= q && 0 <= d <= e
    ensures FeeStep(p, d) <= FeeStep(q, e)
  {
    MulMono(p, q, d);
    MulMono(d, e, q);
    DivMono(p * d, q * e, TARGET_BLOCK_WEIGHT);
    DivMono(p * d / TARGET_BLOCK_WEIGHT, q * e / TARGET_BLOCK_WEIGHT, 8);
  }

  /** Raising the parent fee by one raises a step by at most one. */
  lemma FeeStepSlope(p: int, d: int)
    requires p >= 0 && 0 <= d <= TARGET_BLOCK_WEIGHT
    ensures FeeStep(p + 1, d) <= FeeStep(p, d) + 1
  {
    var t := TARGET_BLOCK_WEIGHT;
    assert (p + 1) * d == p * d + d;
    DivMono((p + 1) * d, p * d + t, t);
    DivPlusOne(p * d, t);
    DivMono((p + 1) * d / t, p * d / t + 1, 8);
    assert (p * d / t + 1) / 8 <= p * d / t / 8 + 1;
  }

  /** The base fee stays in its range and moves by at most max(1, parent // 8). */
  lemma BaseFeeBounds(p: int, w: int)
    requires 0 <= w <= MAX_BLOCK_WEIGHT
    ensures MIN_BASE_FEE <= ComputeBaseFee(p, w) <= MAX_BASE_FEE
    ensures MIN_BASE_FEE <= p <= MAX_BASE_FEE ==>
              p - Max(1, p / 8) <= ComputeBaseFee(p, w) <= p + Max(1, p / 8)
  {
    if p >= 0 {
      if w > TARGET_BLOCK_WEIGHT { FeeStepBound(p, w - TARGET_BLOCK_WEIGHT); }
      else { FeeStepBound(p, TARGET_BLOCK_WEIGHT - w); }
    }
  }

  lemma DivTwice(x: int, d: int)
    requires x >= 0 && d > 0
    ensures x / d / 8 == x / (8 * d)
  {
    var q := x / d;
    var h := q / 8;
    assert x == q * d + x % d && 0 <= q - 8 * h <= 7;
    assert h * (8 * d) == 8 * h * d && (q - 8 * h) * d == q * d - 8 * h * d;
    MulMono(0, q - 8 * h, d);
    MulMono(q - 8 * h, 7, d);
    DivUnique(x, 8 * d, h);
  }

  /** The base fee moves by the eighth part of the parent fee that the weight misses its target by,
      rounded down: up, by at least one, above the target of 10,000,000, down below it, and not at
      all on it. It never leaves 1 .. 10,000. */
  lemma BaseFeeExact(p: int, w: int)
    requires MIN_BASE_FEE <= p <= MAX_BASE_FEE && 0 <= w <= MAX_BLOCK_WEIGHT
    ensures ComputeBaseFee(p, w) ==
            if w > 10_000_000 then Min(10_000, p + Max(1, p * (w - 10_000_000) / 80_000_000))
            else Max(1, p - p * (10_000_000 - w) / 80_000_000)
  {
    var miss := if w > TARGET_BLOCK_WEIGHT then w - TARGET_BLOCK_WEIGHT else TARGET_BLOCK_WEIGHT - w;
    MulMono(0, p, miss);
    DivTwice(p * miss, TARGET_BLOCK_WEIGHT);
    FeeStepBound(p, miss);
  }

  /** So a full block raises it by an eighth, and any weight above the target raises it. */
  lemma HeavyBlocksRaise(p: int, w: int)
    requires MIN_BASE_FEE <= p <= MAX_BASE_FEE && 0 <= w <= MAX_BLOCK_WEIGHT
    ensures ComputeBaseFee(p, MAX_BLOCK_WEIGHT) == Min(MAX_BASE_FEE, p + Max(1, p / 8))
    ensures w > TARGET_BLOCK_WEIGHT && p < MAX_BASE_FEE ==> ComputeBaseFee(p, w) > p
    ensures w == TARGET_BLOCK_WEIGHT ==> ComputeBaseFee(p, w) == p
    ensures w < TARGET_BLOCK_WEIGHT ==> ComputeBaseFee(p, w) <= p
  {
    FeeStepBound(p, TARGET_BLOCK_WEIGHT);
    if w <= TARGET_BLOCK_WEIGHT { FeeStepBound(p, TARGET_BLOCK_WEIGHT - w); }
  }

  lemma BaseFeeMonotoneInWeight(p: int, v: int, w: int)
    requires p >= 0 && 0 <= v <= w
    ensures ComputeBaseFee(p, v) <= ComputeBaseFee(p, w)
  {
    if v > TARGET_BLOCK_WEIGHT {
      FeeStepMonotone(p, p, v - TARGET_BLOCK_WEIGHT, w - TARGET_BLOCK_WEIGHT);
    } else if w < TARGET_BLOCK_WEIGHT {
      FeeStepMonotone(p, p, TARGET_BLOCK_WEIGHT - w, TARGET_BLOCK_WEIGHT - v);
    } else {
      FeeStepBound(p, TARGET_BLOCK_WEIGHT - v);
    }
  }

  lemma {:induction false} BaseFeeMonotoneInParent(p: int, q: int, w: int)
    requires 0 <= p <= q && 0 <= w <= MAX_BLOCK_WEIGHT
    ensures ComputeBaseFee(p, w) <= ComputeBaseFee(q, w)
    decreases q - p
  {
    if p < q {
      if w > TARGET_BLOCK_WEIGHT {
        FeeStepMonotone(p, q, w - TARGET_BLOCK_WEIGHT, w - TARGET_BLOCK_WEIGHT);
      } else {
        FeeStepSlope(p, TARGET_BLOCK_WEIGHT - w);
        BaseFeeMonotoneInParent(p + 1, q, w);
      }
    }
  }

  /** The base fee after n blocks of no effective weight. */
  function AfterEmptyBlocks(p: int, n: nat): int
    decreases n
  {
    if n == 0 then p else AfterEmptyBlocks(ComputeBaseFee(p, 0), n - 1)
  }

  lemma EmptyBlock(p: int)
    requires MIN_BASE_FEE <= p <= MAX_BASE_FEE
    ensures ComputeBaseFee(p, 0) == p - p / 8
    ensures p >= 8 ==> 7 <= ComputeBaseFee(p, 0) < p
    ensures p < 8 ==> ComputeBaseFee(p, 0) == p
  {
    FeeStepBound(p, TARGET_BLOCK_WEIGHT);
  }

  /** Under empty blocks a fee of 8 or more falls strictly until it is exactly 7, within
      p - 7 blocks, and stays there; a fee of 7 or less does not move. */
  lemma {:induction false} EmptyBlocksFallToSeven(p: int, n: nat)
    requires MIN_BASE_FEE <= p <= MAX_BASE_FEE
    ensures p >= 7 ==> 7 <= AfterEmptyBlocks(p, n) <= Max(7, p - n)
    ensures p >= 7 && n >= p - 7 ==> AfterEmptyBlocks(p, n) == 7
    ensures p <= 7 ==> AfterEmptyBlocks(p, n) == p
    decreases n
  {
    if n > 0 {
      EmptyBlock(p);
      EmptyBlocksFallToSeven(ComputeBaseFee(p, 0), n - 1);
    }
  }

  /** The base fee after n full blocks. */
  function AfterFullBlocks(p: int, n: nat): int
    decreases n
  {
    if n == 0 then p else AfterFullBlocks(ComputeBaseFee(p, MAX_BLOCK_WEIGHT), n - 1)
  }

  /** Under full blocks the fee rises strictly until it is exactly 10,000, and stays there. */
  lemma {:induction false} FullBlocksRise(p: int, n: nat)
    requires MIN_BASE_FEE <= p <= MAX_BASE_FEE
    ensures Min(MAX_BASE_FEE, p + n) <= AfterFullBlocks(p, n) <= MAX_BASE_FEE
    ensures n >= MAX_BASE_FEE - p ==> AfterFullBlocks(p, n) == MAX_BASE_FEE
    decreases n
  {
    if n > 0 {
      HeavyBlocksRaise(p, 0);
      FullBlocksRise(ComputeBaseFee(p, MAX_BLOCK_WEIGHT), n - 1);
    }
  }

  /** The base fee a block must carry, as consensus derives it from its parent. */
  function ExpectedBaseFee(activation: int, parent: Block): int {
    if parent.index + 1 == activation || parent.index == 0 || parent.index < activation then INITIAL_BASE_FEE
    else ComputeBaseFee(parent.baseFee, EffectiveWeight(parent.txs, parent.validator))
  }

  /** A run of consecutive blocks each of which passed the fee checks against its parent. */
  predicate FeeChecked(activation: int, blocks: seq<Block>) {
    && (forall i | 0 < i < |blocks| :: blocks[i].index == blocks[i - 1].index + 1)
    && (forall i | 0 < i < |blocks| && blocks[i].index >= activation ::
          blocks[i].baseFee == ExpectedBaseFee(activation, blocks[i - 1]) &&
            TotalWeight(blocks[i].txs) <= MAX_BLOCK_WEIGHT)
  }

  /** On every chain that passed the checks the base fee of every dynamic-fee block after
      genesis is in range, and between two such blocks it moves by at most one eighth. */
  lemma {:induction false} ChainBaseFees(activation: int, blocks: seq<Block>, i: nat)
    requires FeeChecked(activation, blocks) && 0 < i < |blocks| && blocks[0].index == 0
    requires blocks[i].index >= activation
    ensures MIN_BASE_FEE <= blocks[i].baseFee <= MAX_BASE_FEE
    ensures i > 1 && blocks[i - 1].index >= activation && blocks[i].index != activation ==>
              var p := blocks[i - 1].baseFee;
              MIN_BASE_FEE <= p <= MAX_BASE_FEE && p - Max(1, p / 8) <= blocks[i].baseFee <= p + Max(1, p / 8)
    decreases i
  {
    IndexIs(blocks, i - 1);
    var parent := blocks[i - 1];
    if i > 1 && parent.index >= activation {
      ChainBaseFees(activation, blocks, i - 1);
      BaseFeeBounds(parent.baseFee, EffectiveWeight(parent.txs, parent.validator));
    }
  }

  /** The first block under the dynamic model carries a base fee of 10, and each later one the fee
      that follows from the block below it and the weight there that is not its validator's own. */
  lemma ChainBaseFeeIs(activation: int, blocks: seq<Block>, i: nat)
    requires FeeChecked(activation, blocks) && 0 < i < |blocks| && blocks[0].index == 0
    requires blocks[i].index >= activation
    ensures blocks[i].baseFee ==
            if i == 1 || i <= activation then 10
            else ComputeBaseFee(blocks[i - 1].baseFee, EffectiveWeight(blocks[i - 1].txs, blocks[i - 1].validator))
  {
    IndexIs(blocks, i);
    IndexIs(blocks, i - 1);
  }

  lemma {:induction false} IndexIs(blocks: seq<Block>, i: nat)
    requires i < |blocks| && blocks[0].index == 0
    requires forall j | 0 < j < |blocks| :: blocks[j].index == blocks[j - 1].index + 1
    ensures blocks[i].index == i
    decreases i
  {
    if i > 0 { IndexIs(blocks, i - 1); }
  }
}
