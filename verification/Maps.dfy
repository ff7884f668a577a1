/** Finite maps read through a default: a missing key reads as 0, as `dict.get(k, 0)` does.
    Specification maps are kept canonical (no key is bound to 0), so that two of them that
    read alike are equal; `Norm` gives the canonical form of a raw Python-like dictionary. */
module Maps {
  datatype Option<+T> = None | Some(value: T)

  function Max(a: int, b: int): int { if a >= b then a else b }

  function Min(a: int, b: int): int { if a <= b then a else b }

  function Get<K>(m: map<K, int>, k: K): int {
    if k in m then m[k] else 0
  }

  function Put<K>(m: map<K, int>, k: K, v: int): map<K, int> {
    if v == 0 then m - {k} else m[k := v]
  }

  function Add<K>(m: map<K, int>, k: K, d: int): map<K, int> {
    Put(m, k, Get(m, k) + d)
  }

  predicate Canonical<K>(m: map<K, int>) {
    forall k <- m :: m[k] != 0
  }

  predicate Positive<K>(m: map<K, int>) {
    forall k <- m :: m[k] > 0
  }

  function Norm<K(!new)>(m: map<K, int>): (r: map<K, int>)
    ensures Canonical(r) && forall k :: Get(r, k) == Get(m, k)
  {
    map k | k in m && m[k] != 0 :: m[k]
  }

  /** Canonical maps that read alike are the same map. */
  lemma Ext<K>(a: map<K, int>, b: map<K, int>)
    requires Canonical(a) && Canonical(b)
    requires forall k :: Get(a, k) == Get(b, k)
    ensures a == b
  {
    forall k ensures k in a <==> k in b { assert Get(a, k) == Get(b, k); }
    forall k | k in a ensures a[k] == b[k] { assert Get(a, k) == Get(b, k); }
  }

  lemma NormPut<K(!new)>(m: map<K, int>, k: K, v: int)
    ensures Norm(m[k := v]) == Put(Norm(m), k, v)
    ensures Norm(m - {k}) == Put(Norm(m), k, 0)
  {
    Ext(Norm(m[k := v]), Put(Norm(m), k, v));
    Ext(Norm(m - {k}), Put(Norm(m), k, 0));
  }

  lemma PutGets<K>(m: map<K, int>, k: K, v: int, j: K)
    ensures Get(Put(m, k, v), j) == if j == k then v else Get(m, j)
    ensures Canonical(m) ==> Canonical(Put(m, k, v))
    ensures Positive(m) && v >= 0 ==> Positive(Put(m, k, v))
  {}

  /** Adding and taking back the same amount restores a canonical map. */
  lemma AddAdd<K>(m: map<K, int>, k: K, d: int, e: int)
    requires Canonical(m)
    ensures Add(Add(m, k, d), k, e) == Add(m, k, d + e)
    ensures Add(m, k, 0) == m
  {
    Ext(Add(Add(m, k, d), k, e), Add(m, k, d + e));
    Ext(Add(m, k, 0), m);
  }

  lemma AddSwap<K>(m: map<K, int>, j: K, d: int, k: K, e: int)
    requires Canonical(m)
    ensures Add(Add(m, j, d), k, e) == Add(Add(m, k, e), j, d)
  {
    Ext(Add(Add(m, j, d), k, e), Add(Add(m, k, e), j, d));
  }

  /** The sum of all the values of a map. */
  ghost function Sum<K>(m: map<K, int>): int {
    if m == map[] then 0 else var k :| k in m; m[k] + Sum(m - {k})
  }

  lemma {:induction false} SumRemove<K>(m: map<K, int>, k: K)
    requires k in m
    ensures Sum(m) == m[k] + Sum(m - {k})
    decreases |m|
  {
    var k0 :| k0 in m && Sum(m) == m[k0] + Sum(m - {k0});
    if k0 != k {
      SumRemove(m - {k0}, k);
      SumRemove(m - {k}, k0);
      assert m - {k0} - {k} == m - {k} - {k0};
    }
  }

  lemma SumPut<K>(m: map<K, int>, k: K, v: int)
    ensures Sum(m[k := v]) == Sum(m) - Get(m, k) + v
    ensures Sum(Put(m, k, v)) == Sum(m) - Get(m, k) + v
    ensures Sum(m - {k}) == Sum(m) - Get(m, k)
  {
    if k in m { SumRemove(m, k); } else { assert m - {k} == m; }
    SumRemove(m[k := v], k);
    assert m[k := v] - {k} == m - {k};
  }

  lemma SumAdd<K>(m: map<K, int>, k: K, d: int)
    ensures Sum(Add(m, k, d)) == Sum(m) + d
  {
    SumPut(m, k, Get(m, k) + d);
  }

  /** A value of a non-negative map is at most the sum. */
  lemma {:induction false} SumBounds<K>(m: map<K, int>)
    requires forall k <- m :: m[k] >= 0
    ensures Sum(m) >= 0 && forall k :: 0 <= Get(m, k) <= Sum(m)
    decreases |m|
  {
    if m != map[] {
      forall k ensures 0 <= Get(m, k) <= Sum(m) {
        if k in m {
          SumRemove(m, k);
          SumBounds(m - {k});
        } else {
          var j :| j in m;
          SumRemove(m, j);
          SumBounds(m - {j});
        }
      }
      var j :| j in m;
      assert Get(m, j) <= Sum(m);
    }
  }

  /** Removing zero entries does not change the sum. */
  lemma {:induction false} SumNorm<K(!new)>(m: map<K, int>)
    ensures Sum(Norm(m)) == Sum(m)
    decreases |m|
  {
    if k :| k in m && m[k] == 0 {
      SumRemove(m, k);
      SumNorm(m - {k});
      assert Norm(m - {k}) == Norm(m);
    } else {
      assert Norm(m) == m;
    }
  }

  lemma SizeWithout<K, V>(m: map<K, V>, k: K)
    requires k in m
    ensures |m| == |m - {k}| + 1
  {
    assert m.Keys == (m - {k}).Keys + {k};
  }

  /** What is left when a clamped counter is taken down by the deltas that raised it:
      each step subtracts one delta and floors the result at zero. */
  function ClampedUndo(x: int, ds: seq<int>): int
    decreases |ds|
  {
    if ds == [] then x else ClampedUndo(Max(0, x - ds[0]), ds[1..])
  }

  function Total(ds: seq<int>): int {
    if ds == [] then 0 else ds[0] + Total(ds[1..])
  }

  /** No step of the walk goes below zero. */
  predicate NeverBelow(x: int, ds: seq<int>)
    decreases |ds|
  {
    ds == [] || (x - ds[0] >= 0 && NeverBelow(x - ds[0], ds[1..]))
  }

  /** Taking deltas back in their original order, with a floor at zero, is exact if and only
      if the unclamped walk never dips below zero; otherwise the result is too high. */
  lemma {:induction false} ClampedUndoExact(x: int, ds: seq<int>)
    ensures ClampedUndo(x, ds) >= x - Total(ds)
    ensures ClampedUndo(x, ds) == x - Total(ds) <==> NeverBelow(x, ds)
    decreases |ds|
  {
    if ds != [] {
      ClampedUndoExact(Max(0, x - ds[0]), ds[1..]);
    }
  }

  lemma WalkStep(x: int, d: int, ds: seq<int>)
    ensures ClampedUndo(x, [d] + ds) == ClampedUndo(Max(0, x - d), ds)
    ensures Total([d] + ds) == d + Total(ds)
    ensures NeverBelow(x, [d] + ds) <==> x - d >= 0 && NeverBelow(x - d, ds)
  {
    assert ([d] + ds)[1..] == ds;
  }

  /** The deltas a counter was raised by, seen as a walk down. */
  function Negated(ds: seq<int>): seq<int> { seq(|ds|, i requires 0 <= i < |ds| => -ds[i]) }

  lemma NegatedStep(d: int, ds: seq<int>)
    ensures Negated([d] + ds) == [-d] + Negated(ds)
  {}

  lemma {:induction false} TotalNegated(ds: seq<int>)
    ensures Total(Negated(ds)) == -Total(ds)
  {
    if ds != [] {
      assert ds == [ds[0]] + ds[1..];
      NegatedStep(ds[0], ds[1..]);
      WalkStep(0, -ds[0], Negated(ds[1..]));
      TotalNegated(ds[1..]);
    }
  }

  /** A counter that is raised by deltas with a floor at zero and taken down by the same deltas
      in the same order, with the same floor, is back where it was if and only if neither walk
      dips below zero. */
  lemma ThereAndBack(x: int, ds: seq<int>)
    ensures var y := ClampedUndo(x, Negated(ds));
            ClampedUndo(y, ds) == x <==> NeverBelow(x, Negated(ds)) && NeverBelow(y, ds)
  {
    TotalNegated(ds);
    ClampedUndoExact(x, Negated(ds));
    ClampedUndoExact(ClampedUndo(x, Negated(ds)), ds);
  }

  /** Every tail of the deltas has a sum that is not negative. */
  predicate TailsNonNegative(ds: seq<int>) {
    ds == [] || (Total(ds) >= 0 && TailsNonNegative(ds[1..]))
  }

  /** The clamped walk ends at zero if and only if no tail of the deltas is a net debit and
      all of them together cover the start. */
  lemma {:induction false} ClampedUndoToZero(x: int, ds: seq<int>)
    requires x >= 0
    ensures ClampedUndo(x, ds) == 0 <==> x <= Total(ds) && TailsNonNegative(ds)
    decreases |ds|
  {
    if ds != [] { ClampedUndoToZero(Max(0, x - ds[0]), ds[1..]); }
  }

  /** Walks whose deltas all have one sign never dip below zero when both ends are non-negative. */
  lemma {:induction false} OneSignNeverBelow(x: int, ds: seq<int>)
    requires x >= 0 && x - Total(ds) >= 0
    requires (forall i | 0 <= i < |ds| :: ds[i] >= 0) || (forall i | 0 <= i < |ds| :: ds[i] <= 0)
    ensures NeverBelow(x, ds)
    decreases |ds|
  {
    if ds != [] {
      TotalSign(ds[1..]);
      assert ds[0] >= 0 || ds[0] <= 0;
      OneSignNeverBelow(x - ds[0], ds[1..]);
    }
  }

  lemma TotalSign(ds: seq<int>)
    ensures (forall i | 0 <= i < |ds| :: ds[i] >= 0) ==> Total(ds) >= 0
    ensures (forall i | 0 <= i < |ds| :: ds[i] <= 0) ==> Total(ds) <= 0
  {
    if ds != [] { TotalSign(ds[1..]); }
  }
}
