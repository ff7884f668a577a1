/** Strings as the state trie uses them: UTF-8 encoding and code-point order. */
module Text {
  import opened Hashing

  function EncodeChar(c: char): (r: seq<byte>)
    ensures 1 <= |r| <= 4
  {
    var v := c as int;
    if v < 0x80 then [v as byte]
    else if v < 0x800 then [(0xC0 + v / 64) as byte, (0x80 + v % 64) as byte]
    else if v < 0x10000 then [(0xE0 + v / 4096) as byte, (0x80 + v / 64 % 64) as byte, (0x80 + v % 64) as byte]
    else [(0xF0 + v / 262144) as byte, (0x80 + v / 4096 % 64) as byte, (0x80 + v / 64 % 64) as byte,
          (0x80 + v % 64) as byte]
  }

  /** The UTF-8 bytes of a string. */
  function Encode(s: string): (r: seq<byte>)
    ensures |s| <= |r|
  {
    if s == "" then [] else EncodeChar(s[0]) + Encode(s[1..])
  }

  /** UTF-8 is a prefix code. */
  lemma EncodeCharPrefix(c: char, d: char, x: seq<byte>, y: seq<byte>)
    requires EncodeChar(c) + x == EncodeChar(d) + y
    ensures c == d && x == y
  {
    var a, b := EncodeChar(c), EncodeChar(d);
    var whole := a + x;
    assert whole[0] == a[0] && whole[0] == b[0];
    LengthFromFirst(c);
    LengthFromFirst(d);
    assert |a| == |b|;
    assert whole[..|a|] == a && whole[..|a|] == b;
    assert whole[|a|..] == x && whole[|a|..] == y;
    EncodeCharInjective(c, d);
  }

  lemma LengthFromFirst(c: char)
    ensures var r := EncodeChar(c);
            |r| == if r[0] < 0x80 then 1 else if r[0] < 0xE0 then 2 else if r[0] < 0xF0 then 3 else 4
  {}

  lemma EncodeCharInjective(c: char, d: char)
    requires EncodeChar(c) == EncodeChar(d)
    ensures c == d
  {
    var r, v, w := EncodeChar(c), c as int, d as int;
    LengthFromFirst(c);
    LengthFromFirst(d);
    if |r| == 3 {
      Base64Digits(v);
      Base64Digits(w);
    } else if |r| == 4 {
      Base64Digits(v);
      Base64Digits(w);
      Base64Digits(v / 64);
      Base64Digits(w / 64);
    }
  }

  lemma Base64Digits(v: int)
    requires v >= 0
    ensures v == 4096 * (v / 4096) + 64 * (v / 64 % 64) + v % 64
    ensures v / 64 / 64 % 64 == v / 4096 % 64 && v / 64 / 4096 == v / 262144
  {}

  lemma EncodeAscii(b: byte)
    requires b < 0x80
    ensures Encode([b as char]) == [b]
  {
    var c := b as char;
    assert EncodeChar(c) == [b];
    assert [c][1..] == "";
  }

  lemma {:induction false} EncodeAppend(s: string, t: string)
    ensures Encode(s + t) == Encode(s) + Encode(t)
    decreases |s|
  {
    if s == "" {
      assert s + t == t;
    } else {
      assert (s + t)[1..] == s[1..] + t;
      EncodeAppend(s[1..], t);
    }
  }

  lemma {:induction false} EncodeInjective(s: string, t: string)
    requires Encode(s) == Encode(t)
    ensures s == t
    decreases |s|
  {
    if s != "" && t != "" {
      EncodeCharPrefix(s[0], t[0], Encode(s[1..]), Encode(t[1..]));
      EncodeInjective(s[1..], t[1..]);
      assert s == [s[0]] + s[1..] && t == [t[0]] + t[1..];
    }
  }

  /** A key and a value of known width can be read back from their concatenation. */
  lemma KeyValueInjective(s: string, t: string, v: seq<byte>, w: seq<byte>)
    requires Encode(s) + v == Encode(t) + w && |v| == |w|
    ensures s == t && v == w
  {
    var whole, n := Encode(s) + v, |Encode(s)|;
    assert |whole| == n + |v| && |whole| == |Encode(t)| + |w|;
    assert whole[n..] == v && whole[n..] == w;
    assert whole[..n] == Encode(s) && whole[..n] == Encode(t);
    EncodeInjective(s, t);
  }

  /** Strict lexicographic order by code point, Python's `<` on strings. */
  predicate Below(a: string, b: string) {
    b != "" && (a == "" || a[0] < b[0] || (a[0] == b[0] && Below(a[1..], b[1..])))
  }

  lemma {:induction false} BelowIrreflexive(a: string)
    ensures !Below(a, a)
  {
    if a != "" { BelowIrreflexive(a[1..]); }
  }

  lemma {:induction false} BelowOrder(a: string, b: string)
    ensures a == b || Below(a, b) || Below(b, a)
    ensures !(Below(a, b) && Below(b, a)) && !Below(a, a)
    decreases |a| + |b|
  {
    BelowIrreflexive(a);
    if a != "" && b != "" {
      BelowOrder(a[1..], b[1..]);
      assert a == [a[0]] + a[1..] && b == [b[0]] + b[1..];
    }
  }

  lemma {:induction false} BelowTransitive(a: string, b: string, c: string)
    requires Below(a, b) && Below(b, c)
    ensures Below(a, c)
    decreases |a|
  {
    if a != "" && a[0] == b[0] && b[0] == c[0] { BelowTransitive(a[1..], b[1..], c[1..]); }
  }

  predicate IsLeast(k: string, keys: set<string>) {
    k in keys && forall x <- keys :: x == k || Below(k, x)
  }

  lemma {:induction false} LeastExists(keys: set<string>)
    requires keys != {}
    ensures exists k :: IsLeast(k, keys)
    ensures forall k, l :: IsLeast(k, keys) && IsLeast(l, keys) ==> k == l
    decreases |keys|
  {
    var x :| x in keys;
    var rest := keys - {x};
    assert keys == rest + {x};
    if rest == {} {
      assert IsLeast(x, keys);
    } else {
      LeastExists(rest);
      var k :| IsLeast(k, rest);
      BelowOrder(x, k);
      if Below(x, k) {
        forall y <- keys ensures y == x || Below(x, y) {
          if y != x && y != k { BelowTransitive(x, k, y); }
        }
        assert IsLeast(x, keys);
      } else {
        assert IsLeast(k, keys);
      }
    }
    forall k, l | IsLeast(k, keys) && IsLeast(l, keys) ensures k == l { BelowOrder(k, l); }
  }

  predicate Sorted(s: seq<string>) {
    forall i, j | 0 <= i < j < |s| :: Below(s[i], s[j])
  }

  /** The keys in code-point order. */
  function SortedKeys(keys: set<string>): (r: seq<string>)
    ensures Sorted(r) && |r| == |keys|
    ensures forall k :: k in r <==> k in keys
  {
    if keys == {} then [] else
    LeastExists(keys);
    var k :| IsLeast(k, keys);
    [k] + SortedKeys(keys - {k})
  }

  /** `bisect_left(sorted_keys, key)` for a key that is present. */
  function IndexOf(s: seq<string>, k: string): (i: nat)
    requires k in s
    ensures i < |s| && s[i] == k
  {
    if s[0] == k then 0 else 1 + IndexOf(s[1..], k)
  }
}
