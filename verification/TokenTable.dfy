/** The token tables as the program keeps them, with the two indexes over the balances:
    the token branches of blockchain.py and rollback.py and `_update_token_index`. */
module TokenTables {
  import opened Maps
  import opened Types
  import opened TokenLedger

  // ---- Indexes: dictionaries of non-empty sets ----

  predicate Listed<A, B>(m: map<A, set<B>>, a: A, b: B) { a in m && b in m[a] }

  predicate NoEmpty<A, B>(m: map<A, set<B>>) { forall a <- m :: m[a] != {} }

  function Insert<A, B>(m: map<A, set<B>>, a: A, b: B): map<A, set<B>> {
    m[a := (if a in m then m[a] else {}) + {b}]
  }

  function Discard<A, B>(m: map<A, set<B>>, a: A, b: B): map<A, set<B>> {
    if a !in m then m else if m[a] - {b} == {} then m - {a} else m[a := m[a] - {b}]
  }

  lemma InsertLists<A, B>(m: map<A, set<B>>, a: A, b: B, x: A, y: B)
    requires NoEmpty(m)
    ensures NoEmpty(Insert(m, a, b)) && NoEmpty(Discard(m, a, b))
    ensures Listed(Insert(m, a, b), x, y) <==> Listed(m, x, y) || (x == a && y == b)
    ensures Listed(Discard(m, a, b), x, y) <==> Listed(m, x, y) && !(x == a && y == b)
  {
    assert b in Insert(m, a, b)[a];
    if a in m && m[a] - {b} == {} && x == a && y in m[a] { assert y == b by { assert y !in m[a] - {b}; } }
  }

  /** The two indexes list exactly the accounts of a set, each from its side. */
  ghost predicate Projects(accounts: set<Account>, holders: map<TokenId, set<Addr>>, tokens: map<Addr, set<TokenId>>) {
    && NoEmpty(holders) && NoEmpty(tokens)
    && (forall id, a :: Listed(holders, id, a) <==> (id, a) in accounts)
    && (forall id, a :: Listed(tokens, a, id) <==> (id, a) in accounts)
  }

  /** Both indexes are determined by the accounts. */
  lemma ProjectionsUnique(accounts: set<Account>, h: map<TokenId, set<Addr>>, t: map<Addr, set<TokenId>>,
                          h': map<TokenId, set<Addr>>, t': map<Addr, set<TokenId>>)
    requires Projects(accounts, h, t) && Projects(accounts, h', t')
    ensures h == h' && t == t'
  {
    SameIndex(h, h') by { forall id, a ensures Listed(h, id, a) <==> Listed(h', id, a) {} }
    SameIndex(t, t') by {
      forall a, id ensures Listed(t, a, id) <==> Listed(t', a, id) { assert Listed(t, a, id) <==> (id, a) in accounts; }
    }
  }

  lemma SameIndex<A, B>(m: map<A, set<B>>, n: map<A, set<B>>)
    requires NoEmpty(m) && NoEmpty(n) && forall a, b :: Listed(m, a, b) <==> Listed(n, a, b)
    ensures m == n
  {
    forall a ensures a in m <==> a in n {
      if a in m { var b :| b in m[a]; assert Listed(m, a, b); }
      if a in n { var b :| b in n[a]; assert Listed(n, a, b); }
    }
    forall a | a in m ensures m[a] == n[a] {
      forall b ensures b in m[a] <==> b in n[a] { assert Listed(m, a, b) <==> Listed(n, a, b); }
    }
  }

  lemma ProjectsStep(accounts: set<Account>, holders: map<TokenId, set<Addr>>, tokens: map<Addr, set<TokenId>>,
                     id: TokenId, a: Addr)
    requires Projects(accounts, holders, tokens)
    ensures Projects(accounts + {(id, a)}, Insert(holders, id, a), Insert(tokens, a, id))
    ensures Projects(accounts - {(id, a)}, Discard(holders, id, a), Discard(tokens, a, id))
  {
    InsertLists(holders, id, a, id, a);
    InsertLists(tokens, a, id, a, id);
    forall x, y
      ensures Listed(Insert(holders, id, a), x, y) <==> (x, y) in accounts + {(id, a)}
      ensures Listed(Discard(holders, id, a), x, y) <==> (x, y) in accounts - {(id, a)}
    {
      InsertLists(holders, id, a, x, y);
    }
    forall x, y
      ensures Listed(Insert(tokens, a, id), y, x) <==> (x, y) in accounts + {(id, a)}
      ensures Listed(Discard(tokens, a, id), y, x) <==> (x, y) in accounts - {(id, a)}
    {
      InsertLists(tokens, a, id, y, x);
    }
  }

  class TokenTable {
    var registry: map<TokenId, TokenInfo>
    var bySymbol: map<string, TokenId>
    var balances: map<Account, int>
    var holdersByToken: map<TokenId, set<Addr>>
    var tokensByAddress: map<Addr, set<TokenId>>

    function Abs(): Tokens
      reads this
    {
      Tokens(registry, bySymbol, balances)
    }

    /** The indexes are the two projections of the positive balances. */
    ghost predicate Valid()
      reads this
    {
      Positive(balances) && Projects(balances.Keys, holdersByToken, tokensByAddress)
    }

    constructor ()
      ensures Valid() && Abs() == Tokens(map[], map[], map[])
    {
      registry, bySymbol, balances, holdersByToken, tokensByAddress := map[], map[], map[], map[], map[];
    }

    /** `_update_token_index` after a balance change. */
    method UpdateTokenIndex(id: TokenId, a: Addr, newBalance: int, ghost accounts: set<Account>)
      requires Projects(accounts, holdersByToken, tokensByAddress)
      modifies this`holdersByToken, this`tokensByAddress
      ensures Projects(if newBalance > 0 then accounts + {(id, a)}
              else accounts - {(id, a)}, holdersByToken, tokensByAddress)
    {
      ProjectsStep(accounts, holdersByToken, tokensByAddress, id, a);
      if newBalance > 0 {
        holdersByToken := Insert(holdersByToken, id, a);
        tokensByAddress := Insert(tokensByAddress, a, id);
      } else {
        holdersByToken := Discard(holdersByToken, id, a);
        tokensByAddress := Discard(tokensByAddress, a, id);
      }
    }

    /** A balance that is set, dropped when it is not positive, and indexed. */
    method SetBalance(id: TokenId, a: Addr, balance: int)
      requires Valid()
      modifies this`balances, this`holdersByToken, this`tokensByAddress
      ensures Valid() && balances == Put(old(balances), (id, a), Max(0, balance))
    {
      ghost var accounts := balances.Keys;
      if balance <= 0 {
        balances := balances - {(id, a)};
        assert balances.Keys == accounts - {(id, a)};
      } else {
        balances := balances[(id, a) := balance];
        assert balances.Keys == accounts + {(id, a)};
      }
      UpdateTokenIndex(id, a, Max(0, balance), accounts);
    }

    method IssueToken(index: int, sender: Addr, id: TokenId, symbol: string, maxSupply: int,
                      transferable: bool) returns (ok: bool)
      requires Valid()
      modifies this`registry, this`bySymbol
      ensures Valid() && (Abs(), ok) == Issue(old(Abs()), index, sender, id, symbol, maxSupply, transferable)
    {
      if symbol in bySymbol { return false; }
      if id in registry { return false; }
      registry := registry[id := TokenInfo(sender, symbol, maxSupply, 0, transferable, index)];
      bySymbol := bySymbol[symbol := id];
      ok := true;
    }

    method MintToken(sender: Addr, id: TokenId, recipient: Addr, amount: int) returns (ok: bool)
      requires Valid() && amount > 0
      modifies this`registry, this`balances, this`holdersByToken, this`tokensByAddress
      ensures Valid() && (Abs(), ok) == Mint(old(Abs()), sender, id, recipient, amount)
    {
      if id !in registry { return false; }
      var info := registry[id];
      if info.issuer != sender { return false; }
      if info.minted + amount > MAX_TOKEN_AMOUNT { return false; }
      if info.maxSupply > 0 && info.minted + amount > info.maxSupply { return false; }
      registry := registry[id := info.(minted := info.minted + amount)];
      SetBalance(id, recipient, Get(balances, (id, recipient)) + amount);
      ok := true;
    }

    method TransferToken(sender: Addr, id: TokenId, recipient: Addr, amount: int) returns (ok: bool)
      requires Valid() && amount > 0
      modifies this`balances, this`holdersByToken, this`tokensByAddress
      ensures Valid() && (Abs(), ok) == MoveTokens(old(Abs()), sender, id, recipient, amount)
    {
      if id !in registry { return false; }
      if !registry[id].transferable { return false; }
      var balance := Get(balances, (id, sender));
      if balance < amount { return false; }
      SetBalance(id, sender, balance - amount);
      SetBalance(id, recipient, Get(balances, (id, recipient)) + amount);
      ok := true;
    }

    method ProcessTx(index: int, tx: Tx) returns (ok: bool)
      requires Valid() && ValidPayload(tx)
      modifies this
      ensures Valid() && (Abs(), ok) == TokenTx(old(Abs()), index, tx)
    {
      ok := true;
      match tx.payload
      case IssueToken(id, symbol, m, f) => ok := IssueToken(index, tx.sender, id, symbol, m, f);
      case MintToken(id, r, a) => ok := MintToken(tx.sender, id, r, a);
      case TransferToken(id, r, a) => ok := TransferToken(tx.sender, id, r, a);
      case _ =>
    }

    // ---- Reversal ----

    method UndoIssue(id: TokenId, symbol: string)
      requires Valid()
      modifies this
      ensures Valid() && Abs() == Tokens(old(registry) - {id}, old(bySymbol) - {symbol}, Wipe(old(balances), id))
    {
      registry := registry - {id};
      bySymbol := bySymbol - {symbol};
      ghost var before := balances;
      var todo := set k | k in balances && k.0 == id;
      while todo != {}
        invariant Valid() && registry == old(registry) - {id} && bySymbol == old(bySymbol) - {symbol}
        invariant forall k <- todo :: k.0 == id
        invariant forall k :: k in balances <==> k in before && (k.0 == id ==> k in todo)
        invariant forall k <- balances :: balances[k] == before[k]
        decreases |todo|
      {
        var k :| k in todo;
        SetBalance(id, k.1, 0);
        assert k == (id, k.1);
        todo := todo - {k};
      }
      assert balances == Wipe(before, id);
    }

    method UndoMint(id: TokenId, recipient: Addr, amount: int)
      requires Valid() && amount > 0
      modifies this
      ensures Valid() && bySymbol == old(bySymbol)
      ensures registry == if id in old(registry)
              then old(registry)[id := old(registry)[id].(minted := Max(0, old(registry)[id].minted - amount))]
                          else old(registry)
      ensures balances == Put(old(balances), (id, recipient), Max(0, Get(old(balances), (id, recipient)) - amount))
    {
      if id in registry {
        registry := registry[id := registry[id].(minted := Max(0, registry[id].minted - amount))];
      }
      SetBalance(id, recipient, Get(balances, (id, recipient)) - amount);
    }

    method UndoTransfer(sender: Addr, id: TokenId, recipient: Addr, amount: int)
      requires Valid() && amount > 0
      modifies this`balances, this`holdersByToken, this`tokensByAddress
      ensures Valid()
      ensures balances ==
              Maps.Add(Put(old(balances), (id, recipient), Max(0, Get(old(balances), (id, recipient)) - amount)),
                (id, sender), amount)
    {
      SetBalance(id, recipient, Get(balances, (id, recipient)) - amount);
      SetBalance(id, sender, Get(balances, (id, sender)) + amount);
    }

    method UndoTx(tx: Tx)
      requires Valid() && ValidPayload(tx)
      modifies this
      ensures Valid() && Abs() == UndoTokenTx(old(Abs()), tx)
    {
      match tx.payload
      case IssueToken(id, symbol, _, _) => UndoIssue(id, symbol);
      case MintToken(id, r, a) => UndoMint(id, r, a);
      case TransferToken(id, r, a) => UndoTransfer(tx.sender, id, r, a);
      case _ =>
    }
  }
}
