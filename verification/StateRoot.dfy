/** The encoding of ledger state into trie keys and 8-byte values:
    `_rebuild_state_trie` of qbit_network/core/state_ops.py. */
module StateRoots {
  import opened Maps
  import opened Hashing
  import opened StateTries

  datatype Key = BalanceOf(a: string) | NonceOf(a: string) | HoldingOf(id: string, a: string) | SupplyOf(id: string)

  /** The tables the trie is built from: balances, last nonces, token balances, token supplies. */
  datatype Tables = Tables(bal: map<string, int>, nonce: map<string, int>, held: map<(string, string), int>,
    supply: map<string, int>)

  // ---- Values: 8-byte big-endian ----

  function Pow256(n: nat): int { if n == 0 then 1 else 256 * Pow256(n - 1) }

  const LIMIT := 0x1_0000_0000_0000_0000

  function BigEndian(x: nat, n: nat): (r: seq<byte>)
    ensures |r| == n
    decreases n
  {
    if n == 0 then [] else BigEndian(x / 256, n - 1) + [(x % 256) as byte]
  }

  lemma {:induction false} BigEndianInjective(x: nat, y: nat, n: nat)
    requires x < Pow256(n) && y < Pow256(n) && BigEndian(x, n) == BigEndian(y, n)
    ensures x == y
    decreases n
  {
    if n > 0 {
      var a, b := BigEndian(x, n), BigEndian(y, n);
      assert a[..n - 1] == BigEndian(x / 256, n - 1) && b[..n - 1] == BigEndian(y / 256, n - 1);
      assert a[n - 1] == (x % 256) as byte && b[n - 1] == (y % 256) as byte;
      BigEndianInjective(x / 256, y / 256, n - 1);
    }
  }

  function Word(x: nat): (r: seq<byte>)
    ensures |r| == 8
  {
    BigEndian(x, 8)
  }

  lemma WordInjective(x: nat, y: nat)
    requires x < LIMIT && y < LIMIT && Word(x) == Word(y)
    ensures x == y
  {
    assert Pow256(4) == 0x1_0000_0000;
    assert Pow256(8) == LIMIT;
    BigEndianInjective(x, y, 8);
  }

  /** Reads a big-endian number, the most significant byte first. */
  function Number(bytes: seq<byte>): int {
    if bytes == [] then 0 else bytes[0] as int * Pow256(|bytes| - 1) + Number(bytes[1..])
  }

  lemma {:induction false} NumberAppend(bytes: seq<byte>, last: byte)
    ensures Number(bytes + [last]) == Number(bytes) * 256 + last as int
    decreases |bytes|
  {
    if bytes == [] {
      assert bytes + [last] == [last];
      assert [last][1..] == [];
    } else {
      assert (bytes + [last])[0] == bytes[0] && (bytes + [last])[1..] == bytes[1..] + [last];
      NumberAppend(bytes[1..], last);
      var d, p := bytes[0] as int, Pow256(|bytes| - 1);
      assert d * (256 * p) == d * p * 256;
    }
  }

  lemma {:induction false} NumberOfBigEndian(x: nat, n: nat)
    requires x < Pow256(n)
    ensures Number(BigEndian(x, n)) == x
    decreases n
  {
    if n > 0 {
      NumberOfBigEndian(x / 256, n - 1);
      NumberAppend(BigEndian(x / 256, n - 1), (x % 256) as byte);
    }
  }

  /** A word reads back as the value it was made from, its first byte being the most significant. */
  lemma WordReadsBack(x: nat)
    requires x < LIMIT
    ensures Number(Word(x)) == x
  {
    assert Pow256(4) == 0x1_0000_0000;
    assert Pow256(8) == LIMIT;
    NumberOfBigEndian(x, 8);
  }

  // ---- Keys ----

  predicate IsHex(c: char) { '0' <= c <= '9' || 'a' <= c <= 'f' || 'A' <= c <= 'F' }

  /** `re.match(r'^[0-9a-fA-F]{32}$')`, whose `$` also lets one final newline pass. */
  predicate ValidTokenId(id: string) {
    (|id| == 32 || (|id| == 33 && id[32] == '\n')) && forall i | 0 <= i < 32 :: IsHex(id[i])
  }

  function Format(k: Key): string {
    match k
    case BalanceOf(a) => "balance:" + a
    case NonceOf(a) => "nonce:" + a
    case HoldingOf(id, a) => "token:" + id + ":balance:" + a
    case SupplyOf(id) => "token:" + id + ":supply"
  }

  function ColonAt(s: string): (n: nat)
    ensures n <= |s|
  {
    if s == "" || s[0] == ':' then 0 else 1 + ColonAt(s[1..])
  }

  lemma {:induction false} ColonAfter(id: string, rest: string)
    requires ':' !in id && rest != "" && rest[0] == ':'
    ensures ColonAt(id + rest) == |id|
    decreases |id|
  {
    if id == "" {
      assert id + rest == rest;
    } else {
      assert id[0] in id && (id + rest)[0] == id[0] && (id + rest)[1..] == id[1..] + rest;
      ColonAfter(id[1..], rest);
    }
  }

  /** Reads a key back from its text. */
  function Parse(s: string): Key {
    if |s| >= 8 && s[0] == 'b' then BalanceOf(s[8..])
    else if |s| >= 6 && s[0] == 'n' then NonceOf(s[6..])
    else if |s| >= 6 then
      var n := 6 + ColonAt(s[6..]);
      if |s| >= n + 9 && s[n + 1] == 'b' then HoldingOf(s[6..n], s[n + 9..]) else SupplyOf(s[6..n])
    else SupplyOf(s)
  }

  predicate ValidKey(k: Key) {
    match k
    case HoldingOf(id, _) => ValidTokenId(id)
    case SupplyOf(id) => ValidTokenId(id)
    case _ => true
  }

  lemma ParseToken(id: string, rest: string)
    requires ValidTokenId(id) && rest != "" && rest[0] == ':'
    ensures var s := "token:" + id + rest;
            && 6 + ColonAt(s[6..]) == 6 + |id| && s[6..6 + |id|] == id && s[6 + |id|..] == rest && s[0] == 't'
  {
    var s := "token:" + id + rest;
    assert ':' !in id by { if i :| 0 <= i < |id| && id[i] == ':' { assert i == 32 || IsHex(id[i]); } }
    ColonAfter(id, rest);
    assert s[6..] == id + rest;
  }

  lemma ParseHolding(id: string, a: string)
    requires ValidTokenId(id)
    ensures Parse("token:" + id + ":balance:" + a) == HoldingOf(id, a)
  {
    var s, rest := "token:" + id + ":balance:" + a, ":balance:" + a;
    assert s == "token:" + id + rest;
    ParseToken(id, rest);
    var n := 6 + |id|;
    assert s[n + 1] == s[n..][1] == rest[1];
    assert s[n + 9..] == s[n..][9..] == rest[9..] == a;
  }

  lemma ParseSupply(id: string)
    requires ValidTokenId(id)
    ensures Parse("token:" + id + ":supply") == SupplyOf(id)
  {
    ParseToken(id, ":supply");
  }

  /** No two valid keys share a text: token ids hold no colon, so the boundary is unique. */
  lemma ParseFormat(k: Key)
    requires ValidKey(k)
    ensures Parse(Format(k)) == k
  {
    match k
    case BalanceOf(a) => assert Format(k)[8..] == a;
    case NonceOf(a) => assert Format(k)[6..] == a;
    case HoldingOf(id, a) => ParseHolding(id, a);
    case SupplyOf(id) => ParseSupply(id);
  }

  // ---- The entries of the tables ----

  /** What the trie shows at a key: negative balances and nonces are skipped, and so are token
      balances that are not positive. */
  function Value(t: Tables, k: Key): Option<int> {
    match k
    case BalanceOf(a) => if a in t.bal && t.bal[a] >= 0 then Some(t.bal[a]) else None
    case NonceOf(a) => if a in t.nonce && t.nonce[a] >= 0 then Some(t.nonce[a]) else None
    case HoldingOf(id, a) => if (id, a) in t.held && t.held[(id, a)] > 0 then Some(t.held[(id, a)]) else None
    case SupplyOf(id) => if id in t.supply then Some(t.supply[id]) else None
  }

  predicate Encodes(k: Key, x: int) { ValidKey(k) && 0 <= x < LIMIT }

  /** Everything shown fits 8 bytes and every token id is well formed. */
  ghost predicate Encodable(t: Tables) {
    forall k :: Value(t, k).Some? ==> Encodes(k, Value(t, k).value)
  }

  predicate EntryOk(e: Entries, t: Tables, s: string) {
    var k := Parse(s);
    s in e ==> Format(k) == s && Value(t, k).Some? && Encodes(k, Value(t, k).value) && e[s] == Word(Value(t, k).value)
  }

  /** The entries are those of the tables: every entry is shown, everything shown is an entry. */
  ghost predicate Represents(e: Entries, t: Tables) {
    && (forall s :: EntryOk(e, t, s))
    && (forall k :: Value(t, k).Some? ==> Encodes(k, Value(t, k).value) && Format(k) in e)
  }

  function AllKeys(t: Tables): (r: set<Key>)
    ensures forall k :: Value(t, k).Some? ==> k in r
  {
    (set a | a in t.bal :: BalanceOf(a)) + (set a | a in t.nonce :: NonceOf(a))
    + (set h | h in t.held :: HoldingOf(h.0, h.1)) + (set id | id in t.supply :: SupplyOf(id))
  }

  function Texts(t: Tables): set<string> { set k | k in AllKeys(t) && Value(t, k).Some? :: Format(k) }

  lemma TextsParse(t: Tables, s: string)
    requires Encodable(t) && s in Texts(t)
    ensures var k := Parse(s); Format(k) == s && Value(t, k).Some? && Encodes(k, Value(t, k).value)
  {
    var k :| k in AllKeys(t) && Value(t, k).Some? && Format(k) == s;
    ParseFormat(k);
  }

  ghost function EntriesOf(t: Tables): (e: Entries)
    requires Encodable(t)
    ensures Represents(e, t)
  {
    EntriesRepresent(t);
    map s | s in Texts(t) :: TextsParse(t, s); Word(Value(t, Parse(s)).value)
  }

  lemma EntriesRepresent(t: Tables)
    requires Encodable(t)
    ensures forall s | s in Texts(t) :: var k := Parse(s);
            Format(k) == s && Value(t, k).Some? && Encodes(k, Value(t, k).value)
    ensures forall k :: Value(t, k).Some? ==> Format(k) in Texts(t)
  {
    forall s | s in Texts(t)
      ensures var k := Parse(s); Format(k) == s && Value(t, k).Some? && Encodes(k, Value(t, k).value)
    {
      TextsParse(t, s);
    }
  }

  /** Everything shown by one set of tables is shown by the other. */
  lemma SameEntriesShow(e: Entries, t: Tables, u: Tables, k: Key)
    requires Represents(e, t) && Represents(e, u) && Value(t, k).Some?
    ensures Value(u, k) == Value(t, k)
  {
    var s := Format(k);
    ParseFormat(k);
    assert EntryOk(e, t, s) && EntryOk(e, u, s);
    WordInjective(Value(t, k).value, Value(u, k).value);
  }

  lemma ShownIn(e: Entries, f: Entries, t: Tables, u: Tables, s: string)
    requires Represents(e, t) && Represents(f, u) && s in e && Value(u, Parse(s)) == Value(t, Parse(s))
    ensures s in f && f[s] == e[s]
  {
    assert EntryOk(e, t, s) && EntryOk(f, u, s);
  }

  /** Entries represent the same tables exactly when they are the same entries. */
  lemma RepresentsSame(e: Entries, f: Entries, t: Tables, u: Tables)
    requires Represents(e, t) && Represents(f, u)
    ensures e == f <==> forall k :: Value(t, k) == Value(u, k)
  {
    if e == f {
      forall k ensures Value(t, k) == Value(u, k) {
        if Value(t, k).Some? { SameEntriesShow(e, t, u, k); }
        if Value(u, k).Some? { SameEntriesShow(e, u, t, k); }
      }
    }
    if forall k :: Value(t, k) == Value(u, k) {
      forall s | s in e ensures s in f && f[s] == e[s] { ShownIn(e, f, t, u, s); }
      forall s | s in f ensures s in e { ShownIn(f, e, u, t, s); }
      assert e == f;
    }
  }

  /** The state root commits to the tables: equal roots show equal balances, nonces, token
      balances and supplies, and nothing else tells two roots apart. */
  lemma StateRootCommits(t: Tables, u: Tables)
    requires Encodable(t) && Encodable(u)
    ensures RootOf(EntriesOf(t)) == RootOf(EntriesOf(u)) <==> forall k :: Value(t, k) == Value(u, k)
  {
    var e, f := EntriesOf(t), EntriesOf(u);
    Width8(e, t);
    Width8(f, u);
    RootCommits(e, f, 8);
    RepresentsSame(e, f, t, u);
  }

  lemma Width8(e: Entries, t: Tables)
    requires Represents(e, t)
    ensures FixedWidth(e, 8)
  {
    forall s | s in e ensures |e[s]| == 8 { assert EntryOk(e, t, s); }
  }

  // ---- The rebuild ----

  datatype RebuildError = Overflow | InvalidTokenId

  lemma OneMoreEntry(e: Entries, t: Tables, u: Tables, k: Key, x: int)
    requires Represents(e, t) && Encodes(k, x) && Value(t, k) == None
    requires forall j :: Value(u, j) == if j == k then Some(x) else Value(t, j)
    ensures Represents(e[Format(k) := Word(x)], u) && Format(k) !in e
  {
    ParseFormat(k);
    assert EntryOk(e, t, Format(k));
    var f := e[Format(k) := Word(x)];
    forall s ensures EntryOk(f, u, s) { assert EntryOk(e, t, s); }
  }

  /** A trie being refilled after it was cleared: it holds what was set so far, and is marked
      dirty as soon as that is something. */
  ghost predicate Refilling(trie: StateTrie, t: Tables, dirty: bool, cached: Option<Digest>)
    reads trie
  {
    Represents(trie.entries, t) && trie.cachedRoot == cached && trie.dirty == (dirty || trie.entries != map[])
  }

  /** One value of a table: refused or set. */
  method SetEntry(trie: StateTrie, ghost t: Tables, ghost u: Tables, k: Key, x: int, ghost dirty: bool,
                  ghost cached: Option<Digest>)
    returns (error: Option<RebuildError>)
    requires Refilling(trie, t, dirty, cached) && Value(t, k) == None
    requires forall j :: Value(u, j) == if j == k then Some(x) else Value(t, j)
    modifies trie
    ensures error.None? <==> Encodes(k, x)
    ensures error.None? ==> Refilling(trie, u, dirty, cached)
  {
    if !ValidKey(k) { return Some(InvalidTokenId); }
    if !(0 <= x < LIMIT) { return Some(Overflow); }
    OneMoreEntry(trie.entries, t, u, k, x);
    trie.Set(Format(k), Word(x));
    error := None;
  }

  lemma SameShown(e: Entries, t: Tables, u: Tables)
    requires Represents(e, t) && forall k :: Value(u, k) == Value(t, k)
    ensures Represents(e, u)
  {
    forall s ensures EntryOk(e, u, s) { assert EntryOk(e, t, s); }
  }

  /** A value that makes the rebuild raise. */
  predicate Refused(t: Tables, k: Key) {
    Value(t, k).Some? && !Encodes(k, Value(t, k).value)
  }

  lemma BalancesStep(t: Tables, m: map<string, int>, todo: set<string>, a: string)
    requires a in todo && todo <= m.Keys
    ensures var before, after := t.(bal := m - todo), t.(bal := m - (todo - {a}));
            && Value(before, BalanceOf(a)) == None
            && forall j :: Value(after, j) == if j == BalanceOf(a) && m[a] >= 0 then Some(m[a]) else Value(before, j)
  {}

  /** The loop over the balances, from tables that show none. */
  method SetBalances(trie: StateTrie, ghost t: Tables, m: map<string, int>, ghost dirty: bool,
                     ghost cached: Option<Digest>)
    returns (error: Option<RebuildError>)
    requires Refilling(trie, t, dirty, cached) && t.bal == map[]
    modifies trie
    ensures error.None? ==> Refilling(trie, t.(bal := m), dirty, cached)
    ensures error.Some? ==> exists k :: Refused(t.(bal := m), k)
  {
    var todo := m.Keys;
    assert m - todo == t.bal && m - {} == m;
    while todo != {}
      invariant todo <= m.Keys && Refilling(trie, t.(bal := m - todo), dirty, cached)
      decreases |todo|
    {
      var a :| a in todo;
      BalancesStep(t, m, todo, a);
      if m[a] >= 0 {
        error := SetEntry(trie, t.(bal := m - todo), t.(bal := m - (todo - {a})), BalanceOf(a), m[a], dirty, cached);
        if error.Some? {
          assert Refused(t.(bal := m), BalanceOf(a));
          return;
        }
      } else {
        SameShown(trie.entries, t.(bal := m - todo), t.(bal := m - (todo - {a})));
      }
      todo := todo - {a};
    }
    error := None;
  }

  lemma NoncesStep(t: Tables, m: map<string, int>, todo: set<string>, a: string)
    requires a in todo && todo <= m.Keys
    ensures var before, after := t.(nonce := m - todo), t.(nonce := m - (todo - {a}));
            && Value(before, NonceOf(a)) == None
            && forall j :: Value(after, j) == if j == NonceOf(a) && m[a] >= 0 then Some(m[a]) else Value(before, j)
  {}

  /** The loop over the nonces, from tables that show none. */
  method SetNonces(trie: StateTrie, ghost t: Tables, m: map<string, int>, ghost dirty: bool,
                   ghost cached: Option<Digest>)
    returns (error: Option<RebuildError>)
    requires Refilling(trie, t, dirty, cached) && t.nonce == map[]
    modifies trie
    ensures error.None? ==> Refilling(trie, t.(nonce := m), dirty, cached)
    ensures error.Some? ==> exists k :: Refused(t.(nonce := m), k)
  {
    var todo := m.Keys;
    assert m - todo == t.nonce && m - {} == m;
    while todo != {}
      invariant todo <= m.Keys && Refilling(trie, t.(nonce := m - todo), dirty, cached)
      decreases |todo|
    {
      var a :| a in todo;
      NoncesStep(t, m, todo, a);
      if m[a] >= 0 {
        error := SetEntry(trie, t.(nonce := m - todo), t.(nonce := m - (todo - {a})), NonceOf(a), m[a], dirty, cached);
        if error.Some? {
          assert Refused(t.(nonce := m), NonceOf(a));
          return;
        }
      } else {
        SameShown(trie.entries, t.(nonce := m - todo), t.(nonce := m - (todo - {a})));
      }
      todo := todo - {a};
    }
    error := None;
  }

  lemma HoldingsStep(t: Tables, m: map<(string, string), int>, todo: set<(string, string)>, a: (string, string))
    requires a in todo && todo <= m.Keys
    ensures var before, after := t.(held := m - todo), t.(held := m - (todo - {a}));
            && Value(before, HoldingOf(a.0, a.1)) == None
            && forall j :: Value(after, j) == if j == HoldingOf(a.0, a.1) &&
               m[a] > 0 then Some(m[a]) else Value(before, j)
  {}

  /** The loop over the token balances, from tables that show none. */
  method SetHoldings(trie: StateTrie, ghost t: Tables, m: map<(string, string), int>, ghost dirty: bool,
                     ghost cached: Option<Digest>)
    returns (error: Option<RebuildError>)
    requires Refilling(trie, t, dirty, cached) && t.held == map[]
    modifies trie
    ensures error.None? ==> Refilling(trie, t.(held := m), dirty, cached)
    ensures error.Some? ==> exists k :: Refused(t.(held := m), k)
  {
    var todo := m.Keys;
    assert m - todo == t.held && m - {} == m;
    while todo != {}
      invariant todo <= m.Keys && Refilling(trie, t.(held := m - todo), dirty, cached)
      decreases |todo|
    {
      var a :| a in todo;
      HoldingsStep(t, m, todo, a);
      if m[a] > 0 {
        error := SetEntry(trie, t.(held := m - todo), t.(held := m - (todo - {a})), HoldingOf(a.0, a.1), m[a], dirty,
          cached);
        if error.Some? {
          assert Refused(t.(held := m), HoldingOf(a.0, a.1));
          return;
        }
      } else {
        SameShown(trie.entries, t.(held := m - todo), t.(held := m - (todo - {a})));
      }
      todo := todo - {a};
    }
    error := None;
  }

  lemma SuppliesStep(t: Tables, m: map<string, int>, todo: set<string>, a: string)
    requires a in todo && todo <= m.Keys
    ensures var before, after := t.(supply := m - todo), t.(supply := m - (todo - {a}));
            && Value(before, SupplyOf(a)) == None
            && forall j :: Value(after, j) == if j == SupplyOf(a) then Some(m[a]) else Value(before, j)
  {}

  /** The loop over the token supplies, from tables that show none. */
  method SetSupplies(trie: StateTrie, ghost t: Tables, m: map<string, int>, ghost dirty: bool,
                     ghost cached: Option<Digest>)
    returns (error: Option<RebuildError>)
    requires Refilling(trie, t, dirty, cached) && t.supply == map[]
    modifies trie
    ensures error.None? ==> Refilling(trie, t.(supply := m), dirty, cached)
    ensures error.Some? ==> exists k :: Refused(t.(supply := m), k)
  {
    var todo := m.Keys;
    assert m - todo == t.supply && m - {} == m;
    while todo != {}
      invariant todo <= m.Keys && Refilling(trie, t.(supply := m - todo), dirty, cached)
      decreases |todo|
    {
      var a :| a in todo;
      SuppliesStep(t, m, todo, a);
      error := SetEntry(trie, t.(supply := m - todo), t.(supply := m - (todo - {a})), SupplyOf(a), m[a], dirty, cached);
      if error.Some? {
        assert Refused(t.(supply := m), SupplyOf(a));
        return;
      }
      todo := todo - {a};
    }
    error := None;
  }

  lemma NothingShown()
    ensures Represents(map[], Tables(map[], map[], map[], map[]))
  {}

  /** What a part of the tables refuses, the whole refuses. */
  lemma RefusedByPart(t: Tables, u: Tables, k: Key)
    requires Refused(t, k)
    requires t.bal in {map[], u.bal} && t.nonce in {map[], u.nonce} && t.held in {map[], u.held} &&
             t.supply in {map[], u.supply}
    ensures Refused(u, k)
  {}

  /** The rebuild raises exactly when something cannot be encoded and otherwise leaves the
      entries of the tables, in whatever order they are visited. Clearing does not mark the
      trie dirty, so the root served afterwards is right exactly when something was set or
      was dirty before, or the cached root is none or that of the empty trie. */
  method RebuildStateTrie(trie: StateTrie, t: Tables) returns (error: Option<RebuildError>)
    modifies trie
    ensures error.None? <==> Encodable(t)
    ensures error.None? ==>
              && trie.entries == EntriesOf(t)
              && (trie.Valid() <==>
                  trie.entries != map[] || old(trie.dirty || trie.cachedRoot in {None, Some(EMPTY_STATE_ROOT)}))
  {
    ghost var d, c := trie.dirty, trie.cachedRoot;
    var u := Tables(map[], map[], map[], map[]);
    NothingShown();
    trie.entries := map[];
    error := SetBalances(trie, u, t.bal, d, c);
    if error.Some? { AllRefuse(u.(bal := t.bal), t); return; }
    u := u.(bal := t.bal);
    error := SetNonces(trie, u, t.nonce, d, c);
    if error.Some? { AllRefuse(u.(nonce := t.nonce), t); return; }
    u := u.(nonce := t.nonce);
    error := SetHoldings(trie, u, t.held, d, c);
    if error.Some? { AllRefuse(u.(held := t.held), t); return; }
    u := u.(held := t.held);
    error := SetSupplies(trie, u, t.supply, d, c);
    if error.Some? { AllRefuse(t, t); return; }
    Rebuilt(trie.entries, t);
    RebuiltCache(trie.entries, d, c);
  }

  lemma AllRefuse(t: Tables, u: Tables)
    requires exists k :: Refused(t, k)
    requires t.bal in {map[], u.bal} && t.nonce in {map[], u.nonce} && t.held in {map[], u.held} &&
             t.supply in {map[], u.supply}
    ensures !Encodable(u)
  {
    var k :| Refused(t, k);
    RefusedByPart(t, u, k);
  }

  lemma Rebuilt(e: Entries, t: Tables)
    requires Represents(e, t)
    ensures Encodable(t) && e == EntriesOf(t)
  {
    RepresentsSame(e, EntriesOf(t), t, t);
  }

  lemma RebuiltCache(e: Entries, dirty: bool, cached: Option<Digest>)
    ensures (!(dirty || e != map[]) && cached.Some? ==> cached.value == RootOf(e)) <==>
            e != map[] || dirty || cached in {None, Some(EMPTY_STATE_ROOT)}
  {}
}
