/** The sorted key-value Merkle trie of qbit_network/core/state_tree.py. */
module StateTries {
  import opened Maps
  import opened Hashing
  import opened Text
  import opened Merkle

  type Entries = map<string, seq<byte>>

  datatype InclusionProof = InclusionProof(key: string, value: seq<byte>, path: seq<(Digest, bool)>, root: Digest)

  function Syms(b: seq<byte>): (r: Bytes)
    ensures |r| == |b|
    ensures forall i | 0 <= i < |b| :: r[i] == Byte(b[i])
  {
    seq(|b|, i requires 0 <= i < |b| => Byte(b[i]))
  }

  /** sha3_256(key.encode() + value), the item that becomes a Merkle leaf. */
  function Item(key: string, value: seq<byte>): Bytes {
    [Dig(Sha3(Syms(Encode(key) + value)))]
  }

  function Items(e: Entries): (r: seq<Bytes>)
    ensures |r| == |SortedKeys(e.Keys)|
    ensures forall i | 0 <= i < |r| :: r[i] == Item(SortedKeys(e.Keys)[i], e[SortedKeys(e.Keys)[i]])
  {
    var keys := SortedKeys(e.Keys);
    seq(|keys|, i requires 0 <= i < |keys| => assert keys[i] in keys; Item(keys[i], e[keys[i]]))
  }

  const EMPTY_STATE_ROOT := Sha3(Syms(Encode("empty_state")))

  function RootOf(e: Entries): Digest {
    if e == map[] then EMPTY_STATE_ROOT else Root(Items(e))
  }

  /** Every value has the same width, as the 8-byte values of the ledger state do. */
  predicate FixedWidth(e: Entries, width: nat) {
    forall k <- e :: |e[k]| == width
  }

  lemma ItemInjective(k: string, v: seq<byte>, l: string, w: seq<byte>)
    ensures Item(k, v) == Item(l, w) <==> Encode(k) + v == Encode(l) + w
    ensures |v| == |w| && Item(k, v) == Item(l, w) ==> k == l && v == w
  {
    var a, b := Encode(k) + v, Encode(l) + w;
    if Item(k, v) == Item(l, w) {
      assert Item(k, v)[0] == Item(l, w)[0];
      assert Syms(a) == Syms(b);
      forall i | 0 <= i < |a| ensures a[i] == b[i] { assert Syms(a)[i] == Syms(b)[i]; }
      assert a == b;
      if |v| == |w| { KeyValueInjective(k, l, v, w); }
    }
  }

  lemma RootIsNotEmptyRoot(items: seq<Bytes>)
    requires items != []
    ensures Root(items) != EMPTY_STATE_ROOT
  {
    var tag := Encode("empty_state");
    assert "empty_state"[0] == 'e' && EncodeChar('e') == [101];
    assert tag[0] == 101;
    assert Syms(tag)[0] == Byte(101);
    if |items| == 1 {
      assert ([Byte(0)] + items[0])[0] == Byte(0);
    } else {
      var k := Split(|items|);
      TreeHashOfItems(items, k);
      assert [Byte(1), Dig(TreeHash(LeafHashes(items[..k]))), Dig(TreeHash(LeafHashes(items[k..])))][0] == Byte(1);
    }
  }

  lemma ItemsNonEmpty(e: Entries)
    ensures Items(e) == [] <==> e == map[]
  {
    if e != map[] {
      var k :| k in e;
      assert k in SortedKeys(e.Keys);
    }
  }

  /** The root commits to the entries, and nothing but the entries: two tries whose values
      have one width have equal roots exactly when they hold the same key-value pairs,
      the empty trie included. */
  lemma RootCommits(a: Entries, b: Entries, width: nat)
    requires FixedWidth(a, width) && FixedWidth(b, width)
    ensures RootOf(a) == RootOf(b) <==> a == b
  {
    if RootOf(a) == RootOf(b) {
      ItemsNonEmpty(a);
      ItemsNonEmpty(b);
      if a == map[] && b != map[] {
        RootIsNotEmptyRoot(Items(b));
      } else if a != map[] && b == map[] {
        RootIsNotEmptyRoot(Items(a));
      } else if a != map[] {
        RootInjective(Items(a), Items(b));
        SameItems(a, b, width);
        SameItems(b, a, width);
        SameEntries(a, b);
      }
    }
  }

  lemma SameEntries(a: Entries, b: Entries)
    requires forall k <- a :: k in b && b[k] == a[k]
    requires forall k <- b :: k in a && a[k] == b[k]
    ensures a == b
  {}

  lemma SameItems(a: Entries, b: Entries, width: nat)
    requires FixedWidth(a, width) && FixedWidth(b, width) && Items(a) == Items(b)
    ensures forall k <- a :: k in b && b[k] == a[k]
  {
    var ka, kb := SortedKeys(a.Keys), SortedKeys(b.Keys);
    forall k | k in a ensures k in b && b[k] == a[k] {
      assert k in ka;
      var i :| 0 <= i < |ka| && ka[i] == k;
      assert Items(a)[i] == Items(b)[i];
      assert kb[i] in kb;
      ItemInjective(ka[i], a[ka[i]], kb[i], b[kb[i]]);
    }
  }

  /** Without the fixed width the root does not commit: the boundary between a key and its
      value is not part of what is hashed. */
  lemma RootAmbiguity()
    ensures var a, b: Entries := map["k" := [98, 1]], map["kb" := [1]];
            a != b && RootOf(a) == RootOf(b)
  {
    var a, b: Entries := map["k" := [98, 1]], map["kb" := [1]];
    assert "kb"[1..] == "b" && "kb"[0] == 'k' && "k"[1..] == "" && "b"[1..] == "";
    assert Encode("b") == [98] && Encode("k") == [107];
    assert Encode("kb") == [107, 98];
    assert Encode("k") + [98, 1] == Encode("kb") + [1];
    ItemInjective("k", [98, 1], "kb", [1]);
    assert "k" in a && "kb" in b && "k" !in b;
    SingleKey("k", [98, 1]);
    SingleKey("kb", [1]);
  }

  lemma SingleKey(k: string, v: seq<byte>)
    ensures RootOf(map[k := v]) == Root([Item(k, v)])
  {
    var e: Entries := map[k := v];
    assert e.Keys == {k};
    var keys := SortedKeys({k});
    assert |keys| == 1 && keys[0] in keys && keys[0] == k;
    assert Items(e) == [Item(k, v)];
    assert k in e;
  }

  /** What can be proved against a root: the pairs whose key and value, run together, are those
      of a pair in the trie. */
  lemma ProvableIff(e: Entries, key: string, value: seq<byte>)
    ensures (exists path :: Fold(LeafHash(Item(key, value)), path) == RootOf(e)) <==>
            (exists k <- e :: Encode(k) + e[k] == Encode(key) + value)
  {
    var leaf, keys := Item(key, value), SortedKeys(e.Keys);
    ItemsNonEmpty(e);
    if k :| k in e && Encode(k) + e[k] == Encode(key) + value {
      ItemInjective(k, e[k], key, value);
      var i := IndexOf(keys, k);
      assert Items(e)[i] == leaf;
      AcceptedIffAuditPath(leaf, AuditPath(i, LeafHashes(Items(e))), Items(e));
    }
    if path :| Fold(LeafHash(leaf), path) == RootOf(e) {
      if e == map[] {
        NoPathToEmptyRoot(leaf, path);
      } else {
        AcceptedIffAuditPath(leaf, path, Items(e));
        var i :| 0 <= i < |Items(e)| && Items(e)[i] == leaf;
        assert keys[i] in keys;
        ItemInjective(keys[i], e[keys[i]], key, value);
      }
    }
  }

  /** For a value of the width of the trie those are exactly the pairs in the trie. */
  lemma ProvableIffPresent(e: Entries, key: string, value: seq<byte>)
    requires FixedWidth(e, |value|)
    ensures (exists path :: Fold(LeafHash(Item(key, value)), path) == RootOf(e)) <==> key in e && e[key] == value
  {
    ProvableIff(e, key, value);
    if k :| k in e && Encode(k) + e[k] == Encode(key) + value {
      ItemInjective(k, e[k], key, value);
    }
  }

  lemma ByteMoves(key: string, value: seq<byte>)
    requires value != [] && value[0] < 0x80
    ensures Encode(key + [value[0] as char]) + value[1..] == Encode(key) + value
  {
    hide Encode, EncodeChar;
    EncodeAppend(key, [value[0] as char]);
    EncodeAscii(value[0]);
    assert value == [value[0]] + value[1..];
  }

  /** For other widths an absent pair is provable: the first byte of any value that starts with
      an ASCII byte passes for the last character of its key. */
  lemma AbsentPairProvable(e: Entries, key: string)
    requires key in e && e[key] != [] && e[key][0] < 0x80 && FixedWidth(e, |e[key]|)
    ensures var longer, rest := key + [e[key][0] as char], e[key][1..];
            && !(longer in e && e[longer] == rest)
            && exists path :: Fold(LeafHash(Item(longer, rest)), path) == RootOf(e)
  {
    hide Encode, Item;
    ByteMoves(key, e[key]);
    ProvableIff(e, key + [e[key][0] as char], e[key][1..]);
  }

  lemma NoPathToEmptyRoot(leaf: Bytes, path: seq<(Digest, bool)>)
    ensures Fold(LeafHash(leaf), path) != EMPTY_STATE_ROOT
  {
    RootIsNotEmptyRoot([leaf]);
    assert LeafHashes([leaf]) == [LeafHash(leaf)];
    if path != [] {
      var tag := Encode("empty_state");
      assert "empty_state"[0] == 'e' && EncodeChar('e') == [101];
      assert Syms(tag)[0] == Byte(101);
      var rest, last := path[..|path| - 1], path[|path| - 1];
      var inner := Fold(LeafHash(leaf), rest);
      var l, r := if last.1 then last.0 else inner, if last.1 then inner else last.0;
      assert [Byte(1), Dig(l), Dig(r)][0] == Byte(1);
    }
  }

  /** The audit path of an entry folds to the root. */
  lemma EntryProof(e: Entries, key: string, path: seq<(Digest, bool)>)
    requires key in e && path == AuditPath(IndexOf(SortedKeys(e.Keys), key), LeafHashes(Items(e)))
    ensures Fold(LeafHash(Item(key, e[key])), path) == RootOf(e)
  {
    hide Fold, AuditPath, Item;
    var i := IndexOf(SortedKeys(e.Keys), key);
    ItemsNonEmpty(e);
    assert Items(e)[i] == Item(key, e[key]);
    AcceptedIffAuditPath(Item(key, e[key]), path, Items(e));
  }

  class StateTrie {
    var entries: Entries
    var dirty: bool
    var cachedRoot: Option<Digest>

    /** The cache, when it is served, is the root of the current entries. */
    ghost predicate Valid()
      reads this
    {
      !dirty && cachedRoot.Some? ==> cachedRoot.value == RootOf(entries)
    }

    constructor ()
      ensures Valid() && entries == map[] && dirty && cachedRoot == None
    {
      entries, dirty, cachedRoot := map[], true, None;
    }

    method Set(key: string, value: seq<byte>)
      modifies this
      ensures old(Valid()) ==> Valid()
      ensures entries == old(entries)[key := value] && cachedRoot == old(cachedRoot)
      ensures dirty == (old(dirty) || key !in old(entries) || old(entries)[key] != value)
    {
      if key !in entries || entries[key] != value {
        entries := entries[key := value];
        dirty := true;
      }
    }

    method Delete(key: string)
      requires Valid()
      modifies this
      ensures Valid() && entries == old(entries) - {key} && cachedRoot == old(cachedRoot)
    {
      if key in entries {
        entries := entries - {key};
        dirty := true;
      }
    }

    /** The cached root is always the root of the current entries. */
    method RootHash() returns (r: Digest)
      requires Valid()
      modifies this`dirty, this`cachedRoot
      ensures Valid() && r == RootOf(entries)
    {
      if !dirty && cachedRoot.Some? {
        return cachedRoot.value;
      }
      if entries == map[] {
        cachedRoot := Some(Sha3(Syms(Encode("empty_state"))));
      } else {
        r := MerkleRoot(Items(entries));
        cachedRoot := Some(r);
      }
      dirty := false;
      r := cachedRoot.value;
    }

    /** A present key gets a proof of its value that verifies against the current root. */
    method GetProof(key: string) returns (p: Option<InclusionProof>)
      requires Valid()
      modifies this`dirty, this`cachedRoot
      ensures Valid()
      ensures p.Some? <==> key in entries
      ensures p.Some? ==>
                && p.value.key == key && p.value.value == entries[key]
                && p.value.root == RootOf(entries)
                && Fold(LeafHash(Item(key, entries[key])), p.value.path) == p.value.root
    {
      hide Fold, RootOf, Item, AuditPath;
      if key !in entries { return None; }
      var keys := SortedKeys(entries.Keys);
      var i := IndexOf(keys, key);
      var path := MerkleProof(Items(entries), i);
      EntryProof(entries, key, path);
      var r := RootHash();
      p := Some(InclusionProof(key, entries[key], path, r));
    }

    static method VerifyProof(key: string, value: seq<byte>, path: seq<(Digest, bool)>, root: Digest) returns (ok: bool)
      ensures ok <==> Fold(LeafHash(Item(key, value)), path) == root
    {
      ok := VerifyMerkleProof(Item(key, value), path, root);
    }

    method Snapshot() returns (e: Entries)
      ensures e == entries
    {
      e := entries;
    }

    method Restore(e: Entries)
      modifies this
      ensures Valid() && entries == e
    {
      entries := e;
      dirty := true;
    }
  }
}
