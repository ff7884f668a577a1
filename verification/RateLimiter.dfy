/** The token-bucket limiter of qbit_network/network/rate_limiter.py, over exact reals. */
module RateLimiting {

  const MAX_TRACKED := 10000
  const STALE_TTL := 300.0

  datatype Bucket = Bucket(tokens: real, lastRefill: real, violations: nat)

  function RMin(a: real, b: real): real { if a <= b then a else b }

  /** The tokens that flow in during a time span. */
  function Flow(rate: real, span: real): real { span * rate }

  lemma FlowAdds(rate: real, x: real, y: real, z: real)
    requires rate >= 0.0 && z == x + y
    ensures Flow(rate, z) == Flow(rate, x) + Flow(rate, y)
    ensures x >= 0.0 ==> Flow(rate, x) >= 0.0
  {}

  /** Lazy refill at time `now`; a clock that has not advanced adds nothing. */
  function Refill(b: Bucket, rate: real, burst: real, now: real): Bucket {
    if now > b.lastRefill then
      b.(tokens := RMin(burst, b.tokens + Flow(rate, now - b.lastRefill)), lastRefill := now)
    else b
  }

  /** One `check` on a bucket: the bucket afterwards and whether the call is allowed. */
  function Consume(b: Bucket, rate: real, burst: real, now: real): (Bucket, bool) {
    var r := Refill(b, rate, burst, now);
    if r.tokens >= 1.0 then (r.(tokens := r.tokens - 1.0), true)
    else (r.(violations := r.violations + 1), false)
  }

  /** The answers of a run of checks on one live bucket at the given times. */
  function Answers(b: Bucket, rate: real, burst: real, times: seq<real>): seq<bool>
    decreases |times|
  {
    if times == [] then [] else
    var (b', ok) := Consume(b, rate, burst, times[0]);
    [ok] + Answers(b', rate, burst, times[1..])
  }

  function Allowed(answers: seq<bool>): nat {
    if answers == [] then 0 else (if answers[0] then 1 else 0) + Allowed(answers[1..])
  }

  predicate Ascending(from: real, times: seq<real>)
    decreases |times|
  {
    times == [] || (from <= times[0] && Ascending(times[0], times[1..]))
  }

  function LastOr(from: real, times: seq<real>): real {
    if times == [] then from else times[|times| - 1]
  }

  /** One check takes no more than what is there and what has flowed in. */
  lemma ConsumeCovered(b: Bucket, rate: real, burst: real, now: real)
    requires rate >= 0.0 && 0.0 <= b.tokens <= burst
    ensures var (b', ok) := Consume(b, rate, burst, now);
            && 0.0 <= b'.tokens <= burst
            && b.lastRefill <= b'.lastRefill == (if now > b.lastRefill then now else b.lastRefill)
            && b'.tokens + (if ok then 1.0 else 0.0) <= b.tokens + Flow(rate, b'.lastRefill - b.lastRefill)
  {
    var span := now - b.lastRefill;
    FlowAdds(rate, span, 0.0, span);
    FlowAdds(rate, 0.0, 0.0, 0.0);
  }

  /** Tokens are conserved: what a run allows is covered by what the bucket held plus what
      flowed in since its last refill. */
  lemma {:induction false} AllowedCovered(b: Bucket, rate: real, burst: real, from: real, times: seq<real>)
    requires rate >= 0.0 && 0.0 <= b.tokens <= burst && b.lastRefill <= from && Ascending(from, times)
    ensures Allowed(Answers(b, rate, burst, times)) as real <= b.tokens + Flow(rate, LastOr(from, times) - b.lastRefill)
    decreases |times|
  {
    if times == [] {
      FlowAdds(rate, from - b.lastRefill, 0.0, from - b.lastRefill);
    } else {
      var (b', ok) := Consume(b, rate, burst, times[0]);
      ConsumeCovered(b, rate, burst, times[0]);
      AllowedCovered(b', rate, burst, times[0], times[1..]);
      FlowAdds(rate, LastOr(times[0], times[1..]) - b'.lastRefill, b'.lastRefill - b.lastRefill,
               LastOr(from, times) - b.lastRefill);
      AllowedStep(ok, Answers(b', rate, burst, times[1..]));
    }
  }

  lemma AllowedStep(ok: bool, rest: seq<bool>)
    ensures Allowed([ok] + rest) as real == (if ok then 1.0 else 0.0) + Allowed(rest) as real
  {
    assert ([ok] + rest)[1..] == rest;
  }

  /** In every window, whatever the history of the bucket before it, at most
      burst + rate * t checks are allowed, where t spans the checks of the window. */
  lemma WindowBound(b: Bucket, rate: real, burst: real, times: seq<real>)
    requires rate >= 0.0 && 0.0 <= b.tokens <= burst && times != [] && b.lastRefill <= times[0]
    requires Ascending(times[0], times)
    ensures Allowed(Answers(b, rate, burst, times)) as real <= burst + Flow(rate, times[|times| - 1] - times[0])
  {
    var r := Refill(b, rate, burst, times[0]);
    ConsumeCovered(b, rate, burst, times[0]);
    FlowAdds(rate, times[0] - b.lastRefill, 0.0, times[0] - b.lastRefill);
    assert Consume(r, rate, burst, times[0]) == Consume(b, rate, burst, times[0]);
    AllowedCovered(r, rate, burst, times[0], times);
    assert times[|times| - 1] - r.lastRefill == times[|times| - 1] - times[0];
  }

  /** The bound is met: a full bucket lets a whole burst through at one instant. */
  lemma {:induction false} BurstIsReached(b: Bucket, rate: real, burst: real, now: real, n: nat)
    requires b.lastRefill == now && b.tokens >= n as real
    ensures Allowed(Answers(b, rate, burst, seq(n, i => now))) == n
    decreases n
  {
    var times := seq(n, i => now);
    if n > 0 {
      var (b', ok) := Consume(b, rate, burst, now);
      assert times[1..] == seq(n - 1, i => now);
      AllowedStep(ok, Answers(b', rate, burst, times[1..]));
      BurstIsReached(b', rate, burst, now, n - 1);
    }
  }

  /** The bucket after a run of checks. */
  function After(b: Bucket, rate: real, burst: real, times: seq<real>): Bucket
    decreases |times|
  {
    if times == [] then b else After(Consume(b, rate, burst, times[0]).0, rate, burst, times[1..])
  }

  /** The violations of a bucket, which decide who is evicted, count its refusals: each refused
      check is one, and nothing else is. */
  lemma {:induction false} ViolationsAreRefusals(b: Bucket, rate: real, burst: real, times: seq<real>)
    ensures After(b, rate, burst, times).violations + Allowed(Answers(b, rate, burst, times)) ==
            b.violations + |times|
    decreases |times|
  {
    if times != [] {
      var (b', ok) := Consume(b, rate, burst, times[0]);
      ViolationsAreRefusals(b', rate, burst, times[1..]);
      AllowedStep(ok, Answers(b', rate, burst, times[1..]));
    }
  }

  /** Between any two checks a whole token flows in. */
  predicate Spaced(rate: real, from: real, times: seq<real>)
    decreases |times|
  {
    times == [] || (times[0] > from && Flow(rate, times[0] - from) >= 1.0 && Spaced(rate, times[0], times[1..]))
  }

  /** Who calls no faster than the rate is never refused, whatever its bucket holds. */
  lemma {:induction false} SteadyIsAllowed(b: Bucket, rate: real, burst: real, times: seq<real>)
    requires burst >= 1.0 && 0.0 <= b.tokens <= burst && Spaced(rate, b.lastRefill, times)
    ensures Allowed(Answers(b, rate, burst, times)) == |times|
    decreases |times|
  {
    if times != [] {
      var (b', ok) := Consume(b, rate, burst, times[0]);
      SteadyIsAllowed(b', rate, burst, times[1..]);
      AllowedStep(ok, Answers(b', rate, burst, times[1..]));
    }
  }

  // ---- A limiter with and without cleanup ----

  datatype Op = Check(key: string, now: real) | Cleanup(now: real)

  type Buckets = map<string, Bucket>

  function Fresh(burst: real, now: real): Bucket { Bucket(burst, now, 0) }

  function BucketOf(bs: Buckets, burst: real, key: string, now: real): Bucket {
    if key in bs then bs[key] else Fresh(burst, now)
  }

  function Drop(bs: Buckets, now: real): Buckets {
    map k | k in bs && !(bs[k].lastRefill < now - STALE_TTL) :: bs[k]
  }

  /** The answers of a limiter that tracks fewer than MAX_TRACKED keys, so that it never
      evicts; `cleaning` tells whether it carries out the cleanups of the run. */
  function AnswersTo(bs: Buckets, rate: real, burst: real, ops: seq<Op>, cleaning: bool): seq<bool>
    decreases |ops|
  {
    if ops == [] then [] else
    match ops[0]
    case Check(k, now) =>
      var (b, ok) := Consume(BucketOf(bs, burst, k, now), rate, burst, now);
      [ok] + AnswersTo(bs[k := b], rate, burst, ops[1..], cleaning)
    case Cleanup(now) =>
      AnswersTo(if cleaning then Drop(bs, now) else bs, rate, burst, ops[1..], cleaning)
  }

  predicate AscendingOps(from: real, ops: seq<Op>)
    decreases |ops|
  {
    ops == [] || (from <= ops[0].now && AscendingOps(ops[0].now, ops[1..]))
  }

  /** At every time from `now` on a refill fills the bucket. */
  predicate WillBeFull(b: Bucket, rate: real, burst: real, now: real) {
    b.lastRefill < now && b.tokens + Flow(rate, now - b.lastRefill) >= burst
  }

  predicate Alike(b: Bucket, c: Bucket) {
    b.tokens == c.tokens && b.lastRefill == c.lastRefill
  }

  /** Whatever the cleaned limiter has dropped would be full again in the other one. */
  predicate Simulates(cleaned: Buckets, kept: Buckets, rate: real, burst: real, now: real) {
    && cleaned.Keys <= kept.Keys
    && (forall k <- cleaned :: Alike(cleaned[k], kept[k]))
    && (forall k <- kept :: k !in cleaned ==> WillBeFull(kept[k], rate, burst, now))
    && (forall k <- kept :: 0.0 <= kept[k].tokens <= burst && kept[k].lastRefill <= now)
  }

  lemma ConsumeAlike(cleaned: Buckets, kept: Buckets, rate: real, burst: real, k: string, now: real)
    requires rate >= 0.0 && burst >= 0.0 && Simulates(cleaned, kept, rate, burst, now)
    ensures var (b, ok) := Consume(BucketOf(cleaned, burst, k, now), rate, burst, now);
            var (c, ok') := Consume(BucketOf(kept, burst, k, now), rate, burst, now);
            ok == ok' && Alike(b, c) && 0.0 <= c.tokens <= burst && c.lastRefill <= now
  {
    if k in kept { ConsumeCovered(kept[k], rate, burst, now); }
  }

  lemma Later(cleaned: Buckets, kept: Buckets, rate: real, burst: real, from: real, now: real)
    requires rate >= 0.0 && from <= now && Simulates(cleaned, kept, rate, burst, from)
    ensures Simulates(cleaned, kept, rate, burst, now)
  {
    forall k | k in kept && k !in cleaned ensures WillBeFull(kept[k], rate, burst, now) {
      FlowAdds(rate, now - from, from - kept[k].lastRefill, now - kept[k].lastRefill);
    }
  }

  /** Dropping stale buckets never changes an answer when a bucket refills within the stale
      time, burst <= 300 * rate: over every run of checks and cleanups the two limiters
      answer alike. */
  lemma {:induction false} CleanupIsInvisible(cleaned: Buckets, kept: Buckets, rate: real, burst: real, from: real,
                                              ops: seq<Op>)
    requires rate >= 0.0 && 0.0 <= burst <= STALE_TTL * rate
    requires Simulates(cleaned, kept, rate, burst, from) && AscendingOps(from, ops)
    ensures AnswersTo(cleaned, rate, burst, ops, true) == AnswersTo(kept, rate, burst, ops, false)
    decreases |ops|
  {
    if ops != [] {
      var now := ops[0].now;
      Later(cleaned, kept, rate, burst, from, now);
      match ops[0]
      case Check(k, _) =>
        ConsumeAlike(cleaned, kept, rate, burst, k, now);
        var b := Consume(BucketOf(cleaned, burst, k, now), rate, burst, now).0;
        var c := Consume(BucketOf(kept, burst, k, now), rate, burst, now).0;
        CleanupIsInvisible(cleaned[k := b], kept[k := c], rate, burst, now, ops[1..]);
      case Cleanup(_) =>
        DropSimulates(cleaned, kept, rate, burst, now);
        CleanupIsInvisible(Drop(cleaned, now), kept, rate, burst, now, ops[1..]);
    }
  }

  lemma StaleIsFull(b: Bucket, rate: real, burst: real, now: real)
    requires rate >= 0.0 && burst <= STALE_TTL * rate && b.tokens >= 0.0 && b.lastRefill < now - STALE_TTL
    ensures WillBeFull(b, rate, burst, now)
  {
    var gap := now - b.lastRefill;
    FlowAdds(rate, gap - STALE_TTL, STALE_TTL, gap);
  }

  lemma DropSimulates(cleaned: Buckets, kept: Buckets, rate: real, burst: real, now: real)
    requires rate >= 0.0 && 0.0 <= burst <= STALE_TTL * rate && Simulates(cleaned, kept, rate, burst, now)
    ensures Simulates(Drop(cleaned, now), kept, rate, burst, now)
  {
    forall k | k in kept && k !in Drop(cleaned, now) ensures WillBeFull(kept[k], rate, burst, now) {
      if k in cleaned {
        StaleIsFull(kept[k], rate, burst, now);
      }
    }
  }

  lemma RunSteps(bs: Buckets, rate: real, burst: real, k: string, now: real, rest: seq<Op>, cleaning: bool)
    ensures var (b, ok) := Consume(BucketOf(bs, burst, k, now), rate, burst, now);
            AnswersTo(bs, rate, burst, [Check(k, now)] + rest, cleaning)
              == [ok] + AnswersTo(bs[k := b], rate, burst, rest, cleaning)
    ensures AnswersTo(bs, rate, burst, [Cleanup(now)] + rest, cleaning) ==
            AnswersTo(if cleaning then Drop(bs, now) else bs, rate, burst, rest, cleaning)
  {
    assert ([Check(k, now)] + rest)[1..] == rest && ([Cleanup(now)] + rest)[1..] == rest;
  }

  // ---- Exactly when a cleanup can be seen ----

  /** From `from` on no run tells a limiter that cleans up from one that does not. */
  ghost predicate Indistinct(cleaned: Buckets, kept: Buckets, rate: real, burst: real, from: real) {
    forall ops | AscendingOps(from, ops) ::
      AnswersTo(cleaned, rate, burst, ops, true) == AnswersTo(kept, rate, burst, ops, false)
  }

  lemma IndistinctCheck(cleaned: Buckets, kept: Buckets, rate: real, burst: real, from: real, k: string, now: real)
    requires Indistinct(cleaned, kept, rate, burst, from) && from <= now
    ensures var (b, ok) := Consume(BucketOf(cleaned, burst, k, now), rate, burst, now);
            var (c, ok') := Consume(BucketOf(kept, burst, k, now), rate, burst, now);
            ok == ok' && Indistinct(cleaned[k := b], kept[k := c], rate, burst, now)
  {
    var (b, ok) := Consume(BucketOf(cleaned, burst, k, now), rate, burst, now);
    var (c, ok') := Consume(BucketOf(kept, burst, k, now), rate, burst, now);
    forall ops | AscendingOps(now, ops)
      ensures ok == ok' &&
              AnswersTo(cleaned[k := b], rate, burst, ops, true) == AnswersTo(kept[k := c], rate, burst, ops, false)
    {
      AscendingStep(from, Check(k, now), ops);
      RunSteps(cleaned, rate, burst, k, now, ops, true);
      RunSteps(kept, rate, burst, k, now, ops, false);
      SameAnswers(ok, AnswersTo(cleaned[k := b], rate, burst, ops, true), ok',
        AnswersTo(kept[k := c], rate, burst, ops, false));
    }
    assert AscendingOps(now, []);
  }

  lemma SameAnswers(a: bool, s: seq<bool>, b: bool, t: seq<bool>)
    requires [a] + s == [b] + t
    ensures a == b && s == t
  {
    assert ([a] + s)[0] == a && ([b] + t)[0] == b && ([a] + s)[1..] == s && ([b] + t)[1..] == t;
  }

  lemma AscendingStep(from: real, op: Op, ops: seq<Op>)
    requires from <= op.now && AscendingOps(op.now, ops)
    ensures AscendingOps(from, [op] + ops)
  {
    assert ([op] + ops)[1..] == ops;
  }

  lemma IndistinctCleanup(cleaned: Buckets, kept: Buckets, rate: real, burst: real, from: real, now: real)
    requires Indistinct(cleaned, kept, rate, burst, from) && from <= now
    ensures Indistinct(Drop(cleaned, now), kept, rate, burst, now)
  {
    forall ops | AscendingOps(now, ops)
      ensures AnswersTo(Drop(cleaned, now), rate, burst, ops, true) == AnswersTo(kept, rate, burst, ops, false)
    {
      AscendingStep(from, Cleanup(now), ops);
      RunSteps(cleaned, rate, burst, "", now, ops, true);
      RunSteps(kept, rate, burst, "", now, ops, false);
    }
  }

  /** One bucket of an otherwise empty limiter, refilled at `now`. */
  function Only(tokens: real, now: real): Buckets { map["k" := Bucket(tokens, now, 0)] }

  /** An allowed check of the only key. */
  lemma IndistinctStep(x: real, y: real, at: real, rate: real, burst: real, now: real)
    requires Indistinct(Only(x, at), Only(y, at), rate, burst, at) && at <= now
    requires Refill(Bucket(x, at, 0), rate, burst, now).tokens >= 1.0
    ensures var x', y' := Refill(Bucket(x, at, 0), rate, burst, now).tokens,
            Refill(Bucket(y, at, 0), rate, burst, now).tokens;
            y' >= 1.0 && Indistinct(Only(x' - 1.0, now), Only(y' - 1.0, now), rate, burst, now)
  {
    hide Indistinct, Flow;
    IndistinctCheck(Only(x, at), Only(y, at), rate, burst, at, "k", now);
    var x', y' := Refill(Bucket(x, at, 0), rate, burst, now).tokens, Refill(Bucket(y, at, 0), rate, burst, now).tokens;
    assert Only(x, at)["k" := Bucket(x' - 1.0, now, 0)] == Only(x' - 1.0, now);
    assert Only(y, at)["k" := Bucket(y' - 1.0, now, 0)] == Only(y' - 1.0, now);
  }

  /** As many checks at one instant as the first bucket has tokens. */
  lemma {:induction false} IndistinctDrain(x: real, y: real, rate: real, burst: real, now: real, n: nat)
    requires Indistinct(Only(x, now), Only(y, now), rate, burst, now) && x >= n as real
    ensures n > 0 ==> y >= n as real
    ensures Indistinct(Only(x - n as real, now), Only(y - n as real, now), rate, burst, now)
    decreases n
  {
    if n > 0 {
      IndistinctStep(x, y, now, rate, burst, now);
      IndistinctDrain(x - 1.0, y - 1.0, rate, burst, now, n - 1);
    }
  }

  /** The first check of the key in the cleaned limiter, or in both. */
  lemma IndistinctFirst(kept: Buckets, y: real, at: real, rate: real, burst: real, now: real)
    requires Indistinct(map[], kept, rate, burst, now) && burst >= 1.0
    requires kept == map[] || (kept == Only(y, at) && at < now)
    ensures var y' := if kept == map[] then burst else RMin(burst, y + Flow(rate, now - at));
            y' >= 1.0 && Indistinct(Only(burst - 1.0, now), Only(y' - 1.0, now), rate, burst, now)
  {
    hide Indistinct, Flow;
    IndistinctCheck(map[], kept, rate, burst, now, "k", now);
    var y' := if kept == map[] then burst else RMin(burst, y + Flow(rate, now - at));
    var none: Buckets := map[];
    assert none["k" := Bucket(burst - 1.0, now, 0)] == Only(burst - 1.0, now);
    assert kept["k" := Bucket(y' - 1.0, now, 0)] == Only(y' - 1.0, now);
  }

  /** How long it takes for some tokens to flow in. */
  function TimeFor(rate: real, tokens: real): real
    requires rate > 0.0
  {
    tokens / rate
  }

  lemma FlowTimeFor(rate: real, tokens: real)
    requires rate > 0.0
    ensures Flow(rate, TimeFor(rate, tokens)) == tokens
    ensures tokens > 0.0 ==> TimeFor(rate, tokens) > 0.0
  {}

  /** A gap longer than the stale time in which less than a burst flows in. */
  lemma Gap(rate: real, burst: real) returns (gap: real)
    requires rate >= 0.0 && burst > STALE_TTL * rate
    ensures gap > STALE_TTL && Flow(rate, gap) < burst
    ensures rate == 0.0 ==> Flow(rate, gap) == 0.0
  {
    if rate == 0.0 {
      gap := STALE_TTL + 1.0;
      NoFlow(gap);
    } else {
      var extra := (burst - STALE_TTL * rate) / 2.0;
      gap := STALE_TTL + TimeFor(rate, extra);
      FlowTimeFor(rate, extra);
      FlowAdds(rate, STALE_TTL, TimeFor(rate, extra), gap);
    }
  }

  lemma NoFlow(span: real)
    ensures Flow(0.0, span) == 0.0
  {}

  /** Both limiters use up the whole burst at once and, if there is a rate, the next token. */
  lemma Emptied(rate: real, burst: real) returns (left: real, now: real)
    requires rate >= 0.0 && burst >= 1.0 && Indistinct(map[], map[], rate, burst, 0.0)
    ensures now >= 0.0 && Indistinct(Only(left, now), Only(left, now), rate, burst, now)
    ensures if rate == 0.0 then 0.0 <= left < 1.0 else left == 0.0
  {
    hide Indistinct;
    var n := burst.Floor;
    var f := burst - n as real;
    IndistinctFirst(map[], 0.0, 0.0, rate, burst, 0.0);
    IndistinctDrain(burst - 1.0, burst - 1.0, rate, burst, 0.0, n - 1);
    if rate == 0.0 {
      left, now := f, 0.0;
    } else {
      now := TimeFor(rate, 1.0 - f);
      FlowTimeFor(rate, 1.0 - f);
      IndistinctStep(f, f, 0.0, rate, burst, now);
      left := 0.0;
    }
  }

  /** Once the cleanup has left one limiter empty and the other with a bucket that is not full,
      using up the burst, and then the next token, brings the difference to light. */
  lemma BurstTellsApart(y: real, at: real, now: real, rate: real, burst: real)
    requires rate >= 0.0 && burst >= 1.0 && at < now
    requires y + Flow(rate, now - at) < burst && (rate == 0.0 ==> y + Flow(rate, now - at) < 1.0)
    ensures !Indistinct(map[], Only(y, at), rate, burst, now)
  {
    hide Indistinct, Flow;
    if Indistinct(map[], Only(y, at), rate, burst, now) {
      var n, g := burst.Floor, y + Flow(rate, now - at);
      var f := burst - n as real;
      assert "k" in Only(y, at);
      IndistinctFirst(Only(y, at), y, at, rate, burst, now);
      IndistinctDrain(burst - 1.0, g - 1.0, rate, burst, now, n - 1);
      var wait := TimeFor(rate, 1.0 - f);
      FlowTimeFor(rate, 1.0 - f);
      assert now + wait - now == wait;
      IndistinctStep(f, g - n as real, now, rate, burst, now + wait);
      assert false;
    }
  }

  /** When the burst takes longer than the stale time to refill, some run of checks and cleanups
      shows the cleanups. */
  lemma CleanupVisibleWhenSlow(rate: real, burst: real)
    requires rate >= 0.0 && burst >= 1.0 && burst > STALE_TTL * rate
    ensures exists ops ::
              && AscendingOps(0.0, ops)
              && AnswersTo(map[], rate, burst, ops, true) != AnswersTo(map[], rate, burst, ops, false)
  {
    if Indistinct(map[], map[], rate, burst, 0.0) {
      var left, at := Emptied(rate, burst);
      var gap := Gap(rate, burst);
      var now := at + gap;
      assert now - at == gap;
      IndistinctCleanup(Only(left, at), Only(left, at), rate, burst, at, now);
      assert Drop(Only(left, at), now) == map[];
      BurstTellsApart(left, at, now, rate, burst);
    }
  }

  predicate AtMost(bs: Buckets, burst: real) { forall k <- bs :: bs[k].tokens <= burst }

  /** A burst below one token never allows anything, with or without cleanups. */
  lemma {:induction false} NothingAllowed(cleaned: Buckets, kept: Buckets, rate: real, burst: real, ops: seq<Op>)
    requires burst < 1.0 && AtMost(cleaned, burst) && AtMost(kept, burst)
    ensures AnswersTo(cleaned, rate, burst, ops, true) == AnswersTo(kept, rate, burst, ops, false)
    decreases |ops|
  {
    if ops != [] {
      match ops[0]
      case Check(k, now) =>
        var b := Consume(BucketOf(cleaned, burst, k, now), rate, burst, now).0;
        var c := Consume(BucketOf(kept, burst, k, now), rate, burst, now).0;
        NothingAllowed(cleaned[k := b], kept[k := c], rate, burst, ops[1..]);
      case Cleanup(now) =>
        NothingAllowed(Drop(cleaned, now), kept, rate, burst, ops[1..]);
    }
  }

  /** Exactly when cleanups are invisible on every run from an empty limiter: when a burst
      refills within the stale time, or is less than one token. */
  lemma CleanupInvisibleIff(rate: real, burst: real)
    requires rate >= 0.0
    ensures (forall from :: Indistinct(map[], map[], rate, burst, from)) <==> burst <= STALE_TTL * rate || burst < 1.0
  {
    if burst < 1.0 {
      forall from, ops | AscendingOps(from, ops) { NothingAllowed(map[], map[], rate, burst, ops); }
    } else if burst <= STALE_TTL * rate {
      forall from, ops | AscendingOps(from, ops) { CleanupIsInvisible(map[], map[], rate, burst, from, ops); }
    } else {
      CleanupVisibleWhenSlow(rate, burst);
      assert !Indistinct(map[], map[], rate, burst, 0.0);
    }
  }

  predicate Distinct(s: seq<string>) {
    forall i, j | 0 <= i < j < |s| :: s[i] != s[j]
  }

  function WithoutKey(s: seq<string>, k: string): (r: seq<string>)
    requires Distinct(s) && k in s
    ensures Distinct(r) && |r| == |s| - 1
    ensures forall x :: x in r <==> x in s && x != k
  {
    if s[0] == k then s[1..] else
    var rest := WithoutKey(s[1..], k);
    assert forall i | 0 <= i < |rest| :: rest[i] in rest;
    [s[0]] + rest
  }

  lemma AppendDistinct(s: seq<string>, k: string)
    requires Distinct(s) && k !in s
    ensures Distinct(s + [k]) && forall x :: x in s + [k] <==> x in s || x == k
  {}

  /** The keys whose buckets were last refilled before a time, least recently used first. */
  function Stale(buckets: Buckets, order: seq<string>, cutoff: real): (r: seq<string>)
    requires Distinct(order) && forall k <- order :: k in buckets
    ensures Distinct(r)
    ensures forall k :: k in r <==> k in order && buckets[k].lastRefill < cutoff
  {
    if order == [] then [] else
    var rest := Stale(buckets, order[1..], cutoff);
    assert forall i | 0 <= i < |rest| :: rest[i] in rest;
    if buckets[order[0]].lastRefill < cutoff then [order[0]] + rest else rest
  }

  /** The keys of a list that are still there, in their order. */
  function StillThere(order: seq<string>, buckets: Buckets): seq<string> {
    if order == [] then [] else
    (if order[0] in buckets then [order[0]] else []) + StillThere(order[1..], buckets)
  }

  lemma {:induction false} AllThere(order: seq<string>, buckets: Buckets)
    requires forall k <- order :: k in buckets
    ensures StillThere(order, buckets) == order
    decreases |order|
  {
    if order != [] {
      assert order[0] in order;
      AllThere(order[1..], buckets);
    }
  }

  lemma WithoutLater(a: string, rest: seq<string>, k: string)
    requires Distinct([a] + rest) && k != a && k in rest
    ensures Distinct(rest) && WithoutKey([a] + rest, k) == [a] + WithoutKey(rest, k)
  {
    var s := [a] + rest;
    assert s[1..] == rest;
    forall i, j | 0 <= i < j < |rest| ensures rest[i] != rest[j] { assert s[i + 1] != s[j + 1]; }
  }

  /** Dropping one more key. */
  lemma {:induction false} OneDropped(order: seq<string>, buckets: Buckets, k: string)
    requires Distinct(order) && k in order && k in buckets
    ensures var there := StillThere(order, buckets);
            Distinct(there) && k in there && StillThere(order, buckets - {k}) == WithoutKey(there, k)
    decreases |order|
  {
    StillDistinct(order, buckets);
    var head, rest := order[0], order[1..];
    var there := StillThere(rest, buckets);
    assert order == [head] + rest;
    TailDistinct(head, rest);
    if head == k {
      SameThere(rest, buckets, k);
      assert StillThere(order, buckets)[1..] == there;
    } else {
      OneDropped(rest, buckets, k);
      if head in buckets {
        WithoutLater(head, there, k);
      } else {
        assert [] + there == there && [] + StillThere(rest, buckets - {k}) == StillThere(rest, buckets - {k});
      }
    }
  }

  lemma TailDistinct(head: string, rest: seq<string>)
    requires Distinct([head] + rest)
    ensures Distinct(rest) && head !in rest
  {
    var s := [head] + rest;
    forall i, j | 0 <= i < j < |rest| ensures rest[i] != rest[j] { assert s[i + 1] != s[j + 1]; }
    forall i | 0 <= i < |rest| ensures rest[i] != head { assert s[i + 1] != s[0]; }
  }

  lemma {:induction false} SameThere(order: seq<string>, buckets: Buckets, k: string)
    requires k !in order
    ensures StillThere(order, buckets - {k}) == StillThere(order, buckets)
    decreases |order|
  {
    if order != [] {
      assert order[0] in order;
      SameThere(order[1..], buckets, k);
    }
  }

  lemma {:induction false} StillDistinct(order: seq<string>, buckets: Buckets)
    requires Distinct(order)
    ensures Distinct(StillThere(order, buckets))
    ensures forall x :: x in StillThere(order, buckets) <==> x in order && x in buckets
    decreases |order|
  {
    if order != [] {
      var rest := order[1..];
      StillDistinct(rest, buckets);
      assert order == [order[0]] + rest;
      TailDistinct(order[0], rest);
      forall i | 0 <= i < |StillThere(rest, buckets)| ensures StillThere(rest, buckets)[i] != order[0] {
        assert StillThere(rest, buckets)[i] in StillThere(rest, buckets);
      }
    }
  }

  lemma StaleIsDropped(bs: Buckets, order: seq<string>, now: real, gone: set<string>)
    requires Distinct(order) && forall k :: k in order <==> k in bs
    requires forall k :: k in gone <==> k in Stale(bs, order, now - STALE_TTL)
    ensures bs - gone == Drop(bs, now)
  {}

  lemma ExtendTaken(s: seq<string>, i: nat, taken: set<string>)
    requires Distinct(s) && i < |s| && forall k :: k in taken <==> k in s[..i]
    ensures s[i] !in taken && forall k :: k in taken + {s[i]} <==> k in s[..i + 1]
  {
    assert s[..i + 1] == s[..i] + [s[i]];
  }

  /** The first key in LRU order whose bucket has no violation. */
  predicate IsOldestClean(buckets: Buckets, order: seq<string>, key: string) {
    exists i :: 0 <= i < |order| && order[i] == key && key in buckets && buckets[key].violations == 0 &&
                forall j | 0 <= j < i :: order[j] in buckets && buckets[order[j]].violations > 0
  }

  /** Who has to make room: the least recently used key without violations, or, when every key has
      some, the least recently used one. */
  predicate Evictable(buckets: Buckets, order: seq<string>, key: string) {
    || IsOldestClean(buckets, order, key)
    || (order != [] && key == order[0] && forall k <- buckets :: buckets[k].violations > 0)
  }

  /** The keys afterwards, when one is used: it becomes the most recent one, and a new one displaces
      another only when the limiter is full. */
  predicate MadeRoom(was: Buckets, wasOrder: seq<string>, keys: set<string>, order: seq<string>, key: string)
    requires Distinct(wasOrder) && forall k :: k in wasOrder <==> k in was
  {
    if key in was then keys == was.Keys && order == WithoutKey(wasOrder, key) + [key]
    else if |wasOrder| < MAX_TRACKED then keys == was.Keys + {key} && order == wasOrder + [key]
    else exists gone <- was.Keys ::
           && Evictable(was, wasOrder, gone)
           && keys == was.Keys - {gone} + {key} && order == WithoutKey(wasOrder, gone) + [key]
  }

  lemma RoomMade(was: Buckets, wasOrder: seq<string>, key: string, gone: string)
    requires Distinct(wasOrder) && forall k :: k in wasOrder <==> k in was
    ensures key in was ==> MadeRoom(was, wasOrder, was.Keys, WithoutKey(wasOrder, key) + [key], key)
    ensures key !in was && |wasOrder| < MAX_TRACKED ==>
              MadeRoom(was, wasOrder, was.Keys + {key}, wasOrder + [key], key)
    ensures key !in was && |wasOrder| >= MAX_TRACKED && gone in was && Evictable(was, wasOrder, gone) ==>
              MadeRoom(was, wasOrder, was.Keys - {gone} + {key}, WithoutKey(wasOrder, gone) + [key], key)
  {
    hide Evictable;
  }

  class RateLimiter {
    const rate: real
    const burst: real
    /** The ordered dictionary: its items, and its keys from least to most recently used. */
    var buckets: Buckets
    var order: seq<string>
    var loggedKeys: set<string>

    ghost predicate Valid()
      reads this
    {
      && burst >= 0.0 && rate >= 0.0
      && (forall k :: k in order <==> k in buckets)
      && Distinct(order)
      && |order| <= MAX_TRACKED
      && forall k <- buckets :: 0.0 <= buckets[k].tokens <= burst
    }

    constructor (rate: real, burst: real)
      requires rate >= 0.0 && burst >= 0.0
      ensures Valid() && buckets == map[] && this.rate == rate && this.burst == burst
    {
      this.rate, this.burst := rate, burst;
      buckets, order, loggedKeys := map[], [], {};
    }

    /** `del self._buckets[k]` together with `_logged_keys.discard(k)`. */
    method Remove(k: string)
      requires Valid() && k in buckets
      modifies this
      ensures Valid() && buckets == old(buckets) - {k}
      ensures order == WithoutKey(old(order), k) && loggedKeys == old(loggedKeys) - {k}
    {
      order := WithoutKey(order, k);
      buckets, loggedKeys := buckets - {k}, loggedKeys - {k};
    }

    /** Evicts the least recently used bucket without violations, or, when every bucket has
        violations, the least recently used one. */
    method EvictOne() returns (ghost gone: string)
      requires Valid() && order != []
      modifies this
      ensures Valid() && gone in old(buckets) && buckets == old(buckets) - {gone}
      ensures gone in old(order) && order == WithoutKey(old(order), gone) && loggedKeys == old(loggedKeys) - {gone}
      ensures Evictable(old(buckets), old(order), gone)
    {
      for i := 0 to |order|
        invariant Valid() && buckets == old(buckets) && order == old(order) && loggedKeys == old(loggedKeys)
        invariant forall j | 0 <= j < i :: order[j] in buckets && buckets[order[j]].violations > 0
      {
        var k := order[i];
        assert k in order;
        if buckets[k].violations == 0 {
          Remove(k);
          return k;
        }
      }
      gone := order[0];
      assert gone in order;
      Remove(order[0]);
    }

    /** Makes room for a new key. */
    method MakeRoom(key: string, bucket: Bucket)
      requires Valid() && key !in buckets && 0.0 <= bucket.tokens <= burst
      modifies this
      ensures Valid() && key in buckets && buckets[key] == bucket
      ensures MadeRoom(old(buckets), old(order), buckets.Keys, order, key)
      ensures forall k <- buckets :: k != key ==> k in old(buckets) && buckets[k] == old(buckets)[k]
    {
      hide MadeRoom, Evictable, WithoutKey;
      ghost var was, wasOrder, gone := buckets, order, "";
      if |order| >= MAX_TRACKED {
        gone := EvictOne();
      }
      ghost var keys := buckets.Keys;
      AppendDistinct(order, key);
      buckets := buckets[key := bucket];
      order := order + [key];
      assert buckets.Keys == keys + {key};
      RoomMade(was, wasOrder, key, gone);
    }

    /** The bucket of a key, most recently used; a new one may displace another key's. */
    method Obtain(key: string, created: real) returns (bucket: Bucket)
      requires Valid()
      modifies this
      ensures Valid() && key in buckets && buckets[key] == bucket
      ensures MadeRoom(old(buckets), old(order), buckets.Keys, order, key)
      ensures bucket == if key in old(buckets) then old(buckets)[key] else Fresh(burst, created)
      ensures forall k <- buckets :: k != key ==> k in old(buckets) && buckets[k] == old(buckets)[k]
    {
      hide MadeRoom, Evictable, WithoutKey;
      if key !in buckets {
        bucket := Fresh(burst, created);
        MakeRoom(key, bucket);
      } else {
        bucket := buckets[key];
        RoomMade(buckets, order, key, "");
        MoveToEnd(key);
      }
    }

    /** `created` is the clock reading taken inside the bucket's constructor, just after `now`. */
    method Check(key: string, now: real, created: real) returns (ok: bool)
      requires Valid() && now <= created
      modifies this
      ensures Valid() && key in buckets && MadeRoom(old(buckets), old(order), buckets.Keys, order, key)
      ensures var b := if key in old(buckets) then old(buckets)[key] else Fresh(burst, created);
              (buckets[key], ok) == Consume(b, rate, burst, now)
      ensures forall k <- buckets :: k != key ==> k in old(buckets) && buckets[k] == old(buckets)[k]
      ensures !ok ==> key in loggedKeys
    {
      hide MadeRoom, Evictable, WithoutKey, Distinct;
      var bucket := Obtain(key, created);
      ConsumeCovered(bucket, rate, burst, now);
      var elapsed := now - bucket.lastRefill;
      if elapsed > 0.0 {
        bucket := bucket.(tokens := RMin(burst, bucket.tokens + Flow(rate, elapsed)), lastRefill := now);
      }
      if bucket.tokens >= 1.0 {
        bucket := bucket.(tokens := bucket.tokens - 1.0);
        ok := true;
      } else {
        bucket := bucket.(violations := bucket.violations + 1);
        loggedKeys := loggedKeys + {key};
        ok := false;
      }
      ghost var keys := buckets.Keys;
      buckets := buckets[key := bucket];
      assert buckets.Keys == keys;
    }

    /** The key becomes the most recently used one. */
    method MoveToEnd(key: string)
      requires Valid() && key in buckets
      modifies this`order
      ensures Valid() && order == WithoutKey(old(order), key) + [key]
    {
      order := WithoutKey(order, key);
      AppendDistinct(order, key);
      order := order + [key];
    }

    /** Removes exactly the buckets not refilled for STALE_TTL. */
    method Cleanup(now: real) returns (removed: nat)
      requires Valid()
      modifies this
      ensures Valid() && buckets == Drop(old(buckets), now)
      ensures order == StillThere(old(order), buckets) && removed == |old(order)| - |order|
    {
      hide StillThere, WithoutKey, Distinct, Drop;
      var stale := Stale(buckets, order, now - STALE_TTL);
      removed := 0;
      AllThere(order, buckets);
      ghost var gone: set<string> := {};
      for i := 0 to |stale|
        invariant Valid() && removed == i && removed == |old(order)| - |order|
        invariant buckets == old(buckets) - gone && order == StillThere(old(order), buckets)
        invariant forall k :: k in gone <==> k in stale[..i]
      {
        ExtendTaken(stale, i, gone);
        assert stale[i] in stale;
        OneDropped(old(order), buckets, stale[i]);
        Remove(stale[i]);
        removed := removed + 1;
        gone := gone + {stale[i]};
      }
      assert stale[..|stale|] == stale;
      StaleIsDropped(old(buckets), old(order), now, gone);
    }
  }
}
