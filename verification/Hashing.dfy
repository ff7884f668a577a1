/** SHA3-256 as a free constructor. Hash inputs are byte strings in which a 32-byte digest
    stands as one symbol, so equal digests have equal inputs and nothing else collides. */
module Hashing {
  newtype byte = x: int | 0 <= x < 256
  datatype Sym = Byte(b: byte) | Dig(d: Digest)
  type Bytes = seq<Sym>
  datatype Digest = Zero32 | Sha3(data: Bytes)

  function LeafHash(item: Bytes): Digest { Sha3([Byte(0)] + item) }

  function NodeHash(l: Digest, r: Digest): Digest { Sha3([Byte(1), Dig(l), Dig(r)]) }

  function LeafHashes(items: seq<Bytes>): (layer: seq<Digest>)
    ensures |layer| == |items|
    ensures forall i | 0 <= i < |items| :: layer[i] == LeafHash(items[i])
  {
    seq(|items|, i requires 0 <= i < |items| => LeafHash(items[i]))
  }

  lemma HashFacts(item: Bytes, item': Bytes, l: Digest, r: Digest, l': Digest, r': Digest)
    ensures LeafHash(item) == LeafHash(item') ==> item == item'
    ensures NodeHash(l, r) == NodeHash(l', r') ==> l == l' && r == r'
    ensures LeafHash(item) != NodeHash(l, r)
  {
    var a, b := [Byte(0)] + item, [Byte(0)] + item';
    assert a[1..] == item && b[1..] == item';
    var n, n' := [Byte(1), Dig(l), Dig(r)], [Byte(1), Dig(l'), Dig(r')];
    assert n == n' ==> n[1] == n'[1] && n[2] == n'[2];
    assert a[0] != n[0];
  }
}
