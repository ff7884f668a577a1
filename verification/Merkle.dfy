/** The Merkle tree of qbit_network/crypto/hashing.py: the layered loops with promotion of an
    odd last node, proved against the recursive definitions of section 2.1 of RFC 6962. */
module Merkle {
  import opened Hashing

  /** The largest power of two smaller than n (RFC 6962, section 2.1). */
  function Split(n: nat): (k: nat)
    requires n >= 2
    ensures 1 <= k < n <= 2 * k
    ensures n > 2 ==> k % 2 == 0
  {
    if n == 2 then 1 else 2 * Split((n + 1) / 2)
  }

  function Pow2(e: nat): (p: nat)
    ensures p >= 1
  {
    if e == 0 then 1 else 2 * Pow2(e - 1)
  }

  lemma {:induction false} SplitIsPowerOfTwo(n: nat) returns (e: nat)
    requires n >= 2
    ensures Split(n) == Pow2(e)
  {
    if n == 2 {
      e := 0;
    } else {
      e := SplitIsPowerOfTwo((n + 1) / 2);
      e := e + 1;
    }
  }

  /** The Merkle Tree Hash of RFC 6962, section 2.1, over already hashed leaves. */
  function TreeHash(layer: seq<Digest>): Digest
    requires layer != []
    decreases |layer|
  {
    if |layer| == 1 then layer[0] else
    var k := Split(|layer|);
    NodeHash(TreeHash(layer[..k]), TreeHash(layer[k..]))
  }

  /** The audit path of RFC 6962, section 2.1.1; the flag says that the sibling is on the left. */
  function AuditPath(m: nat, layer: seq<Digest>): seq<(Digest, bool)>
    requires m < |layer|
    decreases |layer|
  {
    if |layer| == 1 then [] else
    var k := Split(|layer|);
    if m < k then AuditPath(m, layer[..k]) + [(TreeHash(layer[k..]), false)]
    else AuditPath(m - k, layer[k..]) + [(TreeHash(layer[..k]), true)]
  }

  /** What the verifier computes from a leaf hash and a path. */
  function Fold(current: Digest, proof: seq<(Digest, bool)>): Digest
    decreases |proof|
  {
    if proof == [] then current else
    var rest, last := proof[..|proof| - 1], proof[|proof| - 1];
    if last.1 then NodeHash(last.0, Fold(current, rest)) else NodeHash(Fold(current, rest), last.0)
  }

  /** The root of a list of items: 32 zero bytes when there is none. */
  function Root(items: seq<Bytes>): Digest {
    if items == [] then Zero32 else TreeHash(LeafHashes(items))
  }

  /** Node t of the layer above: a pair of neighbours hashed, or a promoted last node. */
  function Parent(layer: seq<Digest>, t: nat): Digest
    requires 2 * t < |layer|
  {
    if 2 * t + 1 < |layer| then NodeHash(layer[2 * t], layer[2 * t + 1]) else layer[2 * t]
  }

  function NextLayer(layer: seq<Digest>): (up: seq<Digest>)
    ensures |up| == (|layer| + 1) / 2
    ensures forall t | 0 <= t < |up| :: up[t] == Parent(layer, t)
  {
    seq((|layer| + 1) / 2, t requires 0 <= t < (|layer| + 1) / 2 => Parent(layer, t))
  }

  /** The split of the next layer is half the split of this one. */
  lemma {:induction false} SplitHalf(n: nat)
    requires n > 2
    ensures Split((n + 1) / 2) * 2 == Split(n)
  {}

  lemma UpLeft(layer: seq<Digest>, h: nat)
    requires 2 * h <= |layer|
    ensures NextLayer(layer)[..h] == NextLayer(layer[..2 * h])
  {
    var up, left := NextLayer(layer), NextLayer(layer[..2 * h]);
    assert |left| == h;
    forall t | 0 <= t < h ensures up[t] == left[t] {
      assert Parent(layer, t) == Parent(layer[..2 * h], t);
    }
  }

  lemma UpRight(layer: seq<Digest>, h: nat)
    requires 2 * h <= |layer|
    ensures NextLayer(layer)[h..] == NextLayer(layer[2 * h..])
  {
    var up, right := NextLayer(layer), NextLayer(layer[2 * h..]);
    assert |right| == |up| - h;
    forall t | 0 <= t < |right| ensures up[h + t] == right[t] {
      assert Parent(layer, h + t) == Parent(layer[2 * h..], t);
    }
  }

  /** The two halves of a layer go up separately. */
  lemma UpSplits(layer: seq<Digest>, k: nat)
    requires |layer| > 2 && k == Split(|layer|)
    ensures var up := NextLayer(layer);
            && |up| >= 2
            && Split(|up|) == k / 2
            && up[..k / 2] == NextLayer(layer[..k])
            && up[k / 2..] == NextLayer(layer[k..])
  {
    SplitHalf(|layer|);
    UpLeft(layer, k / 2);
    UpRight(layer, k / 2);
  }

  /** One pass of the loop keeps the recursive tree hash. */
  lemma {:induction false} NextLayerKeepsTreeHash(layer: seq<Digest>)
    requires layer != []
    ensures TreeHash(NextLayer(layer)) == TreeHash(layer)
    decreases |layer|
  {
    if |layer| > 2 {
      var k := Split(|layer|);
      UpSplits(layer, k);
      NextLayerKeepsTreeHash(layer[..k]);
      NextLayerKeepsTreeHash(layer[k..]);
    } else if |layer| == 2 {
      assert layer[..1] == [layer[0]] && layer[1..] == [layer[1]];
    }
  }

  /** The proof entry a layer contributes: the sibling, or nothing for a promoted node. */
  function Sibling(layer: seq<Digest>, idx: nat): seq<(Digest, bool)>
    requires idx < |layer|
  {
    if idx % 2 == 1 then [(layer[idx - 1], true)]
    else if idx + 1 < |layer| then [(layer[idx + 1], false)] else []
  }

  /** Cutting a layer at an even position leaves every sibling where it was. */
  lemma SiblingLeft(layer: seq<Digest>, k: nat, m: nat)
    requires m < k <= |layer| && k % 2 == 0
    ensures Sibling(layer[..k], m) == Sibling(layer, m)
  {}

  lemma SiblingRight(layer: seq<Digest>, k: nat, m: nat)
    requires k <= m < |layer| && k % 2 == 0
    ensures Sibling(layer[k..], m - k) == Sibling(layer, m)
  {}

  lemma AuditPathDown(m: nat, layer: seq<Digest>, k: nat)
    requires m < |layer| && |layer| >= 2 && k == Split(|layer|)
    ensures m < k ==> AuditPath(m, layer) == AuditPath(m, layer[..k]) + [(TreeHash(layer[k..]), false)]
    ensures m >= k ==> AuditPath(m, layer) == AuditPath(m - k, layer[k..]) + [(TreeHash(layer[..k]), true)]
  {}

  lemma HalveIndex(m: nat, k: nat)
    requires k % 2 == 0
    ensures m < k ==> m / 2 < k / 2
    ensures m >= k ==> m / 2 >= k / 2 && (m - k) / 2 == m / 2 - k / 2
  {}

  lemma PathStep<T>(path: seq<T>, low: seq<T>, mid: seq<T>, top: seq<T>, rest: seq<T>)
    requires path == low + mid + top && rest == mid + top
    ensures path == low + rest
  {}

  lemma PathAssoc<T>(a: seq<T>, b: seq<T>, c: seq<T>)
    ensures a + (b + c) == a + b + c
  {}

  lemma LeftStep(layer: seq<Digest>, m: nat, k: nat)
    requires |layer| > 2 && k == Split(|layer|) && m < k
    requires AuditPath(m, layer[..k]) == Sibling(layer[..k], m) + AuditPath(m / 2, NextLayer(layer[..k]))
    ensures AuditPath(m, layer) == Sibling(layer, m) + AuditPath(m / 2, NextLayer(layer))
  {
    UpSplits(layer, k);
    HalveIndex(m, k);
    AuditPathDown(m, layer, k);
    AuditPathDown(m / 2, NextLayer(layer), k / 2);
    NextLayerKeepsTreeHash(layer[k..]);
    SiblingLeft(layer, k, m);
    PathStep(AuditPath(m, layer), Sibling(layer, m), AuditPath(m / 2, NextLayer(layer[..k])),
             [(TreeHash(layer[k..]), false)], AuditPath(m / 2, NextLayer(layer)));
  }

  lemma RightStep(layer: seq<Digest>, m: nat, k: nat)
    requires |layer| > 2 && k == Split(|layer|) && k <= m < |layer|
    requires (m - k) / 2 < |NextLayer(layer[k..])|
    requires AuditPath(m - k, layer[k..]) == Sibling(layer[k..], m - k) + AuditPath((m - k) / 2, NextLayer(layer[k..]))
    ensures AuditPath(m, layer) == Sibling(layer, m) + AuditPath(m / 2, NextLayer(layer))
  {
    UpSplits(layer, k);
    HalveIndex(m, k);
    AuditPathDown(m, layer, k);
    AuditPathDown(m / 2, NextLayer(layer), k / 2);
    NextLayerKeepsTreeHash(layer[..k]);
    SiblingRight(layer, k, m);
    PathStep(AuditPath(m, layer), Sibling(layer, m), AuditPath((m - k) / 2, NextLayer(layer[k..])),
             [(TreeHash(layer[..k]), true)], AuditPath(m / 2, NextLayer(layer)));
  }

  /** One pass of the proof loop takes exactly the lowest entry off the audit path. */
  lemma {:induction false} NextLayerKeepsAuditPath(layer: seq<Digest>, m: nat)
    requires m < |layer| && |layer| >= 2
    ensures m / 2 < |NextLayer(layer)|
    ensures AuditPath(m, layer) == Sibling(layer, m) + AuditPath(m / 2, NextLayer(layer))
    decreases |layer|
  {
    if |layer| == 2 {
      assert layer[..1] == [layer[0]] && layer[1..] == [layer[1]];
      assert AuditPath(m, layer) == Sibling(layer, m);
    } else {
      var k := Split(|layer|);
      if m < k {
        NextLayerKeepsAuditPath(layer[..k], m);
        LeftStep(layer, m, k);
      } else {
        if |layer| - k >= 2 { NextLayerKeepsAuditPath(layer[k..], m - k); }
        RightStep(layer, m, k);
      }
    }
  }

  lemma NextLayerComplete(layer: seq<Digest>, up: seq<Digest>)
    requires |layer| <= 2 * |up| <= |layer| + 1
    requires forall t | 0 <= t < |up| :: up[t] == Parent(layer, t)
    ensures up == NextLayer(layer)
  {
    assert |up| == (|layer| + 1) / 2;
  }

  /** What the proof loop has appended once it has paired the first 2n nodes of a layer. */
  function Gained(layer: seq<Digest>, idx: int, n: nat): seq<(Digest, bool)>
    requires idx < |layer|
  {
    if 0 <= idx / 2 < n then Sibling(layer, idx) else []
  }

  lemma GainedNothing(layer: seq<Digest>, idx: int)
    requires idx < |layer|
    ensures Gained(layer, idx, 0) == []
  {}

  lemma GainedStep(layer: seq<Digest>, idx: int, n: nat)
    requires idx < |layer| && 2 * n + 1 < |layer|
    ensures Gained(layer, idx, n + 1) == Gained(layer, idx, n) +
            if 2 * n != idx - idx % 2 then []
            else if idx % 2 == 0 then [(layer[2 * n + 1], false)] else [(layer[2 * n], true)]
  {}

  lemma GainedAll(layer: seq<Digest>, idx: int, n: nat)
    requires idx < |layer| && |layer| - 1 <= 2 * n
    ensures Gained(layer, idx, n) == if idx >= 0 then Sibling(layer, idx) else []
  {}

  lemma ParentAt(layer: seq<Digest>, t: nat)
    requires 2 * t < |layer|
    ensures Parent(layer, t) == if 2 * t == |layer| - 1 then layer[2 * t] else NodeHash(layer[2 * t], layer[2 * t + 1])
  {}

  lemma OddLength(n: nat, t: nat)
    requires n - 1 <= 2 * t <= n
    ensures n % 2 == 1 <==> 2 * t == n - 1
  {}

  /** The inner loop of merkle_root. */
  method PairLayer(layer: seq<Digest>) returns (nextLayer: seq<Digest>)
    ensures nextLayer == NextLayer(layer)
  {
    hide Parent, NextLayer;
    nextLayer := [];
    var i := 0;
    while i < |layer| - 1
      invariant i == 2 * |nextLayer| <= |layer|
      invariant forall t | 0 <= t < |nextLayer| :: nextLayer[t] == Parent(layer, t)
    {
      ParentAt(layer, |nextLayer|);
      nextLayer := nextLayer + [NodeHash(layer[i], layer[i + 1])];
      i := i + 2;
    }
    if |layer| > 0 { OddLength(|layer|, |nextLayer|); }
    if |layer| % 2 == 1 {
      ParentAt(layer, |nextLayer|);
      nextLayer := nextLayer + [layer[|layer| - 1]];
    }
    NextLayerComplete(layer, nextLayer);
  }

  method MerkleRoot(items: seq<Bytes>) returns (root: Digest)
    ensures root == Root(items)
  {
    if items == [] { return Zero32; }
    var layer := LeafHashes(items);
    while |layer| > 1
      invariant layer != [] && TreeHash(layer) == Root(items)
      decreases |layer|
    {
      NextLayerKeepsTreeHash(layer);
      layer := PairLayer(layer);
    }
    root := layer[0];
  }

  /** The inner loop of merkle_proof: it also appends the sibling of the node it tracks. */
  method PairLayerTracking(layer: seq<Digest>, idx: int, sofar: seq<(Digest, bool)>)
    returns (nextLayer: seq<Digest>, proof: seq<(Digest, bool)>)
    requires idx < |layer|
    ensures nextLayer == NextLayer(layer)
    ensures proof == sofar + if idx >= 0 then Sibling(layer, idx) else []
  {
    hide Parent, NextLayer, Gained, Sibling;
    nextLayer, proof := [], sofar;
    assert sofar + Gained(layer, idx, 0) == sofar by { GainedNothing(layer, idx); }
    var i := 0;
    while i < |layer| - 1
      invariant i == 2 * |nextLayer| <= |layer|
      invariant forall t | 0 <= t < |nextLayer| :: nextLayer[t] == Parent(layer, t)
      invariant proof == sofar + Gained(layer, idx, |nextLayer|)
    {
      GainedStep(layer, idx, |nextLayer|);
      ParentAt(layer, |nextLayer|);
      if i == idx - idx % 2 {
        if idx % 2 == 0 {
          proof := proof + [(layer[i + 1], false)];
        } else {
          proof := proof + [(layer[i], true)];
        }
      }
      nextLayer := nextLayer + [NodeHash(layer[i], layer[i + 1])];
      i := i + 2;
    }
    GainedAll(layer, idx, |nextLayer|);
    if |layer| > 0 { OddLength(|layer|, |nextLayer|); }
    if |layer| % 2 == 1 {
      ParentAt(layer, |nextLayer|);
      nextLayer := nextLayer + [layer[|layer| - 1]];
    }
    NextLayerComplete(layer, nextLayer);
  }

  /** An index past the end gives the empty proof, and so does a negative one, for which the
      floor division never meets a layer index. */
  method MerkleProof(items: seq<Bytes>, index: int) returns (proof: seq<(Digest, bool)>)
    ensures 0 <= index < |items| ==> proof == AuditPath(index, LeafHashes(items))
    ensures !(0 <= index < |items|) ==> proof == []
  {
    if items == [] || index >= |items| { return []; }
    var layer := LeafHashes(items);
    proof := [];
    var idx := index;
    while |layer| > 1
      invariant layer != []
      invariant index < 0 ==> idx < 0 && proof == []
      invariant index >= 0 ==> 0 <= idx < |layer|
      invariant index >= 0 ==> AuditPath(index, LeafHashes(items)) == proof + AuditPath(idx, layer)
      decreases |layer|
    {
      ghost var before, below, at := proof, layer, idx;
      layer, proof := PairLayerTracking(layer, idx, proof);
      idx := idx / 2;
      if index >= 0 {
        NextLayerKeepsAuditPath(below, at);
        PathAssoc(before, Sibling(below, at), AuditPath(idx, layer));
      }
    }
  }

  method VerifyMerkleProof(leaf: Bytes, proof: seq<(Digest, bool)>, root: Digest) returns (ok: bool)
    ensures ok <==> Fold(LeafHash(leaf), proof) == root
  {
    var current := LeafHash(leaf);
    for i := 0 to |proof|
      invariant current == Fold(LeafHash(leaf), proof[..i])
    {
      assert proof[..i + 1][..i] == proof[..i];
      var (sibling, isLeft) := proof[i];
      if isLeft {
        current := NodeHash(sibling, current);
      } else {
        current := NodeHash(current, sibling);
      }
    }
    assert proof[..|proof|] == proof;
    ok := current == root;
  }

  lemma {:induction false} AuditPathFolds(m: nat, layer: seq<Digest>)
    requires m < |layer|
    ensures Fold(layer[m], AuditPath(m, layer)) == TreeHash(layer)
    decreases |layer|
  {
    if |layer| >= 2 {
      var k := Split(|layer|);
      var path := AuditPath(m, layer);
      if m < k {
        AuditPathFolds(m, layer[..k]);
        assert path[..|path| - 1] == AuditPath(m, layer[..k]);
      } else {
        AuditPathFolds(m - k, layer[k..]);
        assert path[..|path| - 1] == AuditPath(m - k, layer[k..]);
      }
    }
  }

  lemma LeafHashesSplit(items: seq<Bytes>, k: nat)
    requires k <= |items|
    ensures LeafHashes(items)[..k] == LeafHashes(items[..k])
    ensures LeafHashes(items)[k..] == LeafHashes(items[k..])
  {}

  lemma TreeHashOfItems(items: seq<Bytes>, k: nat)
    requires |items| >= 2 && k == Split(|items|)
    ensures TreeHash(LeafHashes(items)) ==
            NodeHash(TreeHash(LeafHashes(items[..k])), TreeHash(LeafHashes(items[k..])))
  {
    LeafHashesSplit(items, k);
  }

  lemma AuditPathOfItems(i: nat, items: seq<Bytes>, k: nat)
    requires |items| >= 2 && k == Split(|items|) && i < |items|
    ensures i < k ==>
              AuditPath(i, LeafHashes(items)) ==
              AuditPath(i, LeafHashes(items[..k])) + [(TreeHash(LeafHashes(items[k..])), false)]
    ensures i >= k ==>
              AuditPath(i, LeafHashes(items)) ==
              AuditPath(i - k, LeafHashes(items[k..])) + [(TreeHash(LeafHashes(items[..k])), true)]
  {
    LeafHashesSplit(items, k);
    AuditPathDown(i, LeafHashes(items), k);
  }

  lemma SingleTree(items: seq<Bytes>)
    requires |items| == 1
    ensures TreeHash(LeafHashes(items)) == LeafHash(items[0])
  {}

  lemma FoldToSingle(leaf: Bytes, proof: seq<(Digest, bool)>, item: Bytes)
    requires Fold(LeafHash(leaf), proof) == LeafHash(item)
    ensures leaf == item && proof == []
  {
    if proof == [] {
      HashFacts(leaf, item, Zero32, Zero32, Zero32, Zero32);
    } else {
      FoldIsNode(LeafHash(leaf), proof, item);
      assert false;
    }
  }

  /** A path that leads from a leaf hash to the tree hash of leaf hashes is an audit path. */
  lemma {:induction false} FoldIsAuditPath(leaf: Bytes, proof: seq<(Digest, bool)>, items: seq<Bytes>) returns (i: nat)
    requires items != [] && Fold(LeafHash(leaf), proof) == TreeHash(LeafHashes(items))
    ensures i < |items| && items[i] == leaf && proof == AuditPath(i, LeafHashes(items))
    decreases |items|
  {
    hide Fold, TreeHash, LeafHashes;
    if |items| == 1 {
      SingleTree(items);
      FoldToSingle(leaf, proof, items[0]);
      i := 0;
    } else {
      var k := Split(|items|);
      var rest, last := TopOfFold(leaf, proof, items, k);
      if last.1 {
        var j := FoldIsAuditPath(leaf, rest, items[k..]);
        i := j + k;
        AuditPathOfItems(i, items, k);
        assert items[k..][j] == items[i];
      } else {
        i := FoldIsAuditPath(leaf, rest, items[..k]);
        AuditPathOfItems(i, items, k);
      }
    }
  }

  /** The last proof entry is the other half of the tree. */
  lemma TopOfFold(leaf: Bytes, proof: seq<(Digest, bool)>, items: seq<Bytes>, k: nat)
    returns (rest: seq<(Digest, bool)>, last: (Digest, bool))
    requires |items| >= 2 && k == Split(|items|)
    requires Fold(LeafHash(leaf), proof) == TreeHash(LeafHashes(items))
    ensures proof == rest + [last]
    ensures last.1 ==> last.0 == TreeHash(LeafHashes(items[..k])) &&
                       Fold(LeafHash(leaf), rest) == TreeHash(LeafHashes(items[k..]))
    ensures !last.1 ==> last.0 == TreeHash(LeafHashes(items[k..])) &&
                        Fold(LeafHash(leaf), rest) == TreeHash(LeafHashes(items[..k]))
  {
    TreeHashOfItems(items, k);
    var l, r := TreeHash(LeafHashes(items[..k])), TreeHash(LeafHashes(items[k..]));
    HashFacts(leaf, leaf, l, r, l, r);
    rest, last := proof[..|proof| - 1], proof[|proof| - 1];
    var inner := Fold(LeafHash(leaf), rest);
    HashFacts(leaf, leaf, l, r, if last.1 then last.0 else inner, if last.1 then inner else last.0);
  }

  lemma FoldIsNode(current: Digest, proof: seq<(Digest, bool)>, item: Bytes)
    requires proof != []
    ensures Fold(current, proof) != LeafHash(item)
  {
    var rest, last := proof[..|proof| - 1], proof[|proof| - 1];
    var inner := Fold(current, rest);
    HashFacts(item, item, if last.1 then last.0 else inner, if last.1 then inner else last.0, Zero32, Zero32);
  }

  /** Completeness and binding at once: a proof is accepted against the root of a list if and
      only if it is the audit path of a position that holds the leaf. */
  lemma AcceptedIffAuditPath(leaf: Bytes, proof: seq<(Digest, bool)>, items: seq<Bytes>)
    ensures Fold(LeafHash(leaf), proof) == Root(items) <==>
            exists i :: 0 <= i < |items| && items[i] == leaf && proof == AuditPath(i, LeafHashes(items))
  {
    if items == [] {
      assert Fold(LeafHash(leaf), proof) != Zero32;
    } else {
      if Fold(LeafHash(leaf), proof) == Root(items) {
        var i := FoldIsAuditPath(leaf, proof, items);
      }
      forall i | 0 <= i < |items| && items[i] == leaf && proof == AuditPath(i, LeafHashes(items))
        ensures Fold(LeafHash(leaf), proof) == Root(items)
      {
        AuditPathFolds(i, LeafHashes(items));
      }
    }
  }

  lemma {:induction false} TreeHashInjective(a: seq<Bytes>, b: seq<Bytes>)
    requires a != [] && b != [] && TreeHash(LeafHashes(a)) == TreeHash(LeafHashes(b))
    ensures a == b
    decreases |a| + |b|, |a|
  {
    if |a| == 1 && |b| == 1 {
      HashFacts(a[0], b[0], Zero32, Zero32, Zero32, Zero32);
    } else if |a| == 1 {
      var k := Split(|b|);
      TreeHashOfItems(b, k);
      HashFacts(a[0], a[0], TreeHash(LeafHashes(b[..k])), TreeHash(LeafHashes(b[k..])), Zero32, Zero32);
      assert false;
    } else if |b| == 1 {
      var k := Split(|a|);
      TreeHashOfItems(a, k);
      HashFacts(b[0], b[0], TreeHash(LeafHashes(a[..k])), TreeHash(LeafHashes(a[k..])), Zero32, Zero32);
      assert false;
    } else {
      var j, k := Split(|a|), Split(|b|);
      TreeHashOfItems(a, j);
      TreeHashOfItems(b, k);
      HashFacts([], [], TreeHash(LeafHashes(a[..j])), TreeHash(LeafHashes(a[j..])),
                TreeHash(LeafHashes(b[..k])), TreeHash(LeafHashes(b[k..])));
      TreeHashInjective(a[..j], b[..k]);
      TreeHashInjective(a[j..], b[k..]);
      HalvesJoin(a, j, b, k);
    }
  }

  lemma HalvesJoin<T>(a: seq<T>, j: nat, b: seq<T>, k: nat)
    requires j <= |a| && k <= |b| && a[..j] == b[..k] && a[j..] == b[k..]
    ensures a == b
  {
    assert |a[..j]| == j && |b[..k]| == k;
    assert a == a[..j] + a[j..] && b == b[..k] + b[k..];
  }

  /** The root determines the list, whatever the two lengths: promotion causes no ambiguity. */
  lemma RootInjective(a: seq<Bytes>, b: seq<Bytes>)
    ensures Root(a) == Root(b) <==> a == b
  {
    if Root(a) == Root(b) {
      if a != [] && b != [] {
        TreeHashInjective(a, b);
      } else if a != [] {
        TreeHashIsSha3(LeafHashes(a));
      } else if b != [] {
        TreeHashIsSha3(LeafHashes(b));
      }
    }
  }

  lemma TreeHashIsSha3(layer: seq<Digest>)
    requires layer != [] && forall d <- layer :: d.Sha3?
    ensures TreeHash(layer).Sha3?
  {}

  lemma {:induction false} Pow2Mono(d: nat, e: nat)
    ensures Pow2(d) < Pow2(e) ==> d < e
    decreases e
  {
    if d > 0 && e > 0 { Pow2Mono(d - 1, e - 1); }
  }

  /** A proof has at most ceil(log2 n) entries: no more than any e with 2^e >= n. */
  lemma {:induction false} AuditPathLength(m: nat, layer: seq<Digest>, e: nat)
    requires m < |layer| <= Pow2(e)
    ensures |AuditPath(m, layer)| <= e
    decreases |layer|
  {
    if |layer| >= 2 {
      var k := Split(|layer|);
      var d := SplitIsPowerOfTwo(|layer|);
      Pow2Mono(d, e);
      Pow2Grows(d, e - 1);
      if m < k {
        AuditPathLength(m, layer[..k], e - 1);
      } else {
        AuditPathLength(m - k, layer[k..], e - 1);
      }
    }
  }

  lemma {:induction false} Pow2Grows(d: nat, e: nat)
    requires d <= e
    ensures Pow2(d) <= Pow2(e)
    decreases e
  {
    if d < e { Pow2Grows(d, e - 1); }
  }
}
