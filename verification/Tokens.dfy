/** Issued tokens: the token part of block processing and of its reversal. */
module TokenLedger {
  import opened Maps
  import opened Types

  type Account = (TokenId, Addr)

  datatype TokenInfo = TokenInfo(issuer: Addr, symbol: string, maxSupply: int, minted: int, transferable: bool,
    created: int)

  datatype Tokens = Tokens(registry: map<TokenId, TokenInfo>, bySymbol: map<string, TokenId>, bal: map<Account, int>)

  // ---- Forward: a failed check leaves the tables as they are ----

  function Issue(t: Tokens, index: int, sender: Addr, id: TokenId, symbol: string, maxSupply: int,
                 transferable: bool): (Tokens, bool) {
    if symbol in t.bySymbol || id in t.registry then (t, false) else
    (t.(registry := t.registry[id := TokenInfo(sender, symbol, maxSupply, 0, transferable, index)],
        bySymbol := t.bySymbol[symbol := id]), true)
  }

  predicate MayMint(t: Tokens, sender: Addr, id: TokenId, amount: int) {
    && id in t.registry
    && t.registry[id].issuer == sender
    && t.registry[id].minted + amount <= MAX_TOKEN_AMOUNT
    && !(t.registry[id].maxSupply > 0 && t.registry[id].minted + amount > t.registry[id].maxSupply)
  }

  function Mint(t: Tokens, sender: Addr, id: TokenId, recipient: Addr, amount: int): (Tokens, bool) {
    if !MayMint(t, sender, id, amount) then (t, false) else
    (t.(registry := t.registry[id := t.registry[id].(minted := t.registry[id].minted + amount)],
        bal := Add(t.bal, (id, recipient), amount)), true)
  }

  predicate MayMove(t: Tokens, sender: Addr, id: TokenId, amount: int) {
    id in t.registry && t.registry[id].transferable && Get(t.bal, (id, sender)) >= amount
  }

  function MoveTokens(t: Tokens, sender: Addr, id: TokenId, recipient: Addr, amount: int): (Tokens, bool) {
    if !MayMove(t, sender, id, amount) then (t, false) else
    (t.(bal := Add(Add(t.bal, (id, sender), -amount), (id, recipient), amount)), true)
  }

  function TokenTx(t: Tokens, index: int, tx: Tx): (Tokens, bool) {
    match tx.payload
    case IssueToken(id, symbol, m, f) => Issue(t, index, tx.sender, id, symbol, m, f)
    case MintToken(id, r, a) => Mint(t, tx.sender, id, r, a)
    case TransferToken(id, r, a) => MoveTokens(t, tx.sender, id, r, a)
    case _ => (t, true)
  }

  function TokenTxs(t: Tokens, index: int, txs: seq<Tx>): (Tokens, bool)
    decreases |txs|
  {
    if txs == [] then (t, true) else
    var (n, ok) := TokenTx(t, index, txs[0]);
    if ok then TokenTxs(n, index, txs[1..]) else (n, false)
  }

  // ---- Reversal, in the original order of the transactions ----

  function Wipe(bal: map<Account, int>, id: TokenId): map<Account, int> {
    map k | k in bal && k.0 != id :: if k.0 != id then bal[k] else 0
  }

  function UndoTokenTx(t: Tokens, tx: Tx): Tokens {
    match tx.payload
    case IssueToken(id, symbol, _, _) => Tokens(t.registry - {id}, t.bySymbol - {symbol}, Wipe(t.bal, id))
    case MintToken(id, r, a) =>
      Tokens(if id in t.registry then t.registry[id := t.registry[id].(minted := Max(0, t.registry[id].minted - a))]
        else t.registry,
             t.bySymbol, Put(t.bal, (id, r), Max(0, Get(t.bal, (id, r)) - a)))
    case TransferToken(id, r, a) =>
      t.(bal := Add(Put(t.bal, (id, r), Max(0, Get(t.bal, (id, r)) - a)), (id, tx.sender), a))
    case _ => t
  }

  function UndoTokenTxs(t: Tokens, txs: seq<Tx>): Tokens
    decreases |txs|
  {
    if txs == [] then t else UndoTokenTxs(UndoTokenTx(t, txs[0]), txs[1..])
  }

  // ---- The token invariant ----

  function HoldingsOf(bal: map<Account, int>, id: TokenId): map<Account, int> {
    map k | k in bal && k.0 == id :: if k.0 == id then bal[k] else 0
  }

  function MintedOf(t: Tokens, id: TokenId): int {
    if id in t.registry then t.registry[id].minted else 0
  }

  function MintedTable(t: Tokens): map<TokenId, int> { map id | id in t.registry :: MintedOf(t, id) }

  predicate SymbolsInverse(t: Tokens) {
    && (forall id <- t.registry :: t.registry[id].symbol in t.bySymbol && t.bySymbol[t.registry[id].symbol] == id)
    && (forall s <- t.bySymbol :: t.bySymbol[s] in t.registry && t.registry[t.bySymbol[s]].symbol == s)
  }

  predicate WithinCap(info: TokenInfo) {
    0 <= info.minted <= MAX_TOKEN_AMOUNT && (info.maxSupply > 0 ==> info.minted <= info.maxSupply)
  }

  /** Holders' balances of each token sum to its minted amount, which respects both caps;
      symbol and id tables are inverse; balances are positive. */
  ghost predicate TokensOk(t: Tokens) {
    && Positive(t.bal) && SymbolsInverse(t)
    && (forall id <- t.registry :: WithinCap(t.registry[id]))
    && (forall id :: Sum(HoldingsOf(t.bal, id)) == MintedOf(t, id))
  }

  lemma HoldingsAdd(bal: map<Account, int>, k: Account, d: int, id: TokenId)
    ensures Sum(HoldingsOf(Add(bal, k, d), id)) == Sum(HoldingsOf(bal, id)) + if k.0 == id then d else 0
  {
    var h := HoldingsOf(bal, id);
    if k.0 == id {
      assert Get(h, k) == Get(bal, k);
      SumAdd(h, k, d);
      assert HoldingsOf(Add(bal, k, d), id) == Add(h, k, d);
    } else {
      assert HoldingsOf(Add(bal, k, d), id) == h;
    }
  }

  lemma IssueKeepsOk(t: Tokens, index: int, tx: Tx)
    requires TokensOk(t) && ValidPayload(tx) && tx.payload.IssueToken? && TokenTx(t, index, tx).1
    ensures TokensOk(TokenTx(t, index, tx).0)
  {
    var n := TokenTx(t, index, tx).0;
    forall id ensures Sum(HoldingsOf(n.bal, id)) == MintedOf(n, id) {
      assert Sum(HoldingsOf(t.bal, id)) == MintedOf(t, id);
    }
  }

  lemma MintKeepsOk(t: Tokens, index: int, tx: Tx)
    requires TokensOk(t) && ValidPayload(tx) && tx.payload.MintToken? && TokenTx(t, index, tx).1
    ensures TokensOk(TokenTx(t, index, tx).0)
  {
    var n, k, a := TokenTx(t, index, tx).0, (tx.payload.tokenId, tx.payload.recipient), tx.payload.amount;
    PutGets(t.bal, k, Get(t.bal, k) + a, k);
    forall id ensures Sum(HoldingsOf(n.bal, id)) == MintedOf(n, id) {
      HoldingsAdd(t.bal, k, a, id);
      assert Sum(HoldingsOf(t.bal, id)) == MintedOf(t, id);
    }
  }

  lemma MoveKeepsSums(bal: map<Account, int>, id0: TokenId, src: Addr, dst: Addr, a: int, id: TokenId)
    ensures Sum(HoldingsOf(Add(Add(bal, (id0, src), -a), (id0, dst), a), id)) == Sum(HoldingsOf(bal, id))
  {
    hide HoldingsOf, Add;
    HoldingsAdd(bal, (id0, src), -a, id);
    HoldingsAdd(Add(bal, (id0, src), -a), (id0, dst), a, id);
  }

  lemma MoveKeepsPositive(bal: map<Account, int>, src: Account, dst: Account, a: int)
    requires Positive(bal) && 0 < a <= Get(bal, src)
    ensures Positive(Add(Add(bal, src, -a), dst, a))
  {
    PutGets(bal, src, Get(bal, src) - a, dst);
    PutGets(Add(bal, src, -a), dst, Get(Add(bal, src, -a), dst) + a, dst);
  }

  lemma MoveKeepsOk(t: Tokens, index: int, tx: Tx)
    requires TokensOk(t) && ValidPayload(tx) && tx.payload.TransferToken? && TokenTx(t, index, tx).1
    ensures TokensOk(TokenTx(t, index, tx).0)
  {
    hide HoldingsOf, Add, Positive, Get, WithinCap, SymbolsInverse;
    var n, id0, a := TokenTx(t, index, tx).0, tx.payload.tokenId, tx.payload.amount;
    MoveKeepsPositive(t.bal, (id0, tx.sender), (id0, tx.payload.recipient), a);
    assert SymbolsInverse(n) by { SymbolsInverseMoves(t, n); }
    forall id ensures Sum(HoldingsOf(n.bal, id)) == MintedOf(n, id) {
      MoveKeepsSums(t.bal, id0, tx.sender, tx.payload.recipient, a, id);
      assert Sum(HoldingsOf(t.bal, id)) == MintedOf(t, id);
    }
  }

  lemma SymbolsInverseMoves(t: Tokens, n: Tokens)
    requires SymbolsInverse(t) && n.registry == t.registry && n.bySymbol == t.bySymbol
    ensures SymbolsInverse(n)
  {}

  lemma {:induction false} TokenTxsKeepOk(t: Tokens, index: int, txs: seq<Tx>)
    requires TokensOk(t) && ValidPayloads(txs)
    ensures TokensOk(TokenTxs(t, index, txs).0)
    decreases |txs|
  {
    if txs != [] {
      var (n, ok) := TokenTx(t, index, txs[0]);
      if ok {
        if txs[0].payload.IssueToken? { IssueKeepsOk(t, index, txs[0]); }
        if txs[0].payload.MintToken? { MintKeepsOk(t, index, txs[0]); }
        if txs[0].payload.TransferToken? { MoveKeepsOk(t, index, txs[0]); }
        TokenTxsKeepOk(n, index, txs[1..]);
      }
    }
  }

  // ---- Who may do what ----

  /** A token belongs to whoever issued it: the registry shows the token as it was issued, only its
      issuer mints it, and only a transferable one is sent. */
  predicate Authorized(registry: map<TokenId, TokenInfo>, tx: Tx) {
    match tx.payload
    case IssueToken(id, symbol, cap, transferable) =>
      && id in registry && registry[id].issuer == tx.sender && registry[id].symbol == symbol
      && registry[id].maxSupply == cap && registry[id].transferable == transferable
    case MintToken(id, _, _) => id in registry && registry[id].issuer == tx.sender
    case TransferToken(id, _, _) => id in registry && registry[id].transferable
    case _ => true
  }

  /** A registered token keeps all but its minted amount. */
  predicate Persists(before: map<TokenId, TokenInfo>, after: map<TokenId, TokenInfo>) {
    forall id <- before :: id in after && after[id] == before[id].(minted := after[id].minted)
  }

  lemma PersistsKeeps(before: map<TokenId, TokenInfo>, middle: map<TokenId, TokenInfo>,
                      after: map<TokenId, TokenInfo>, tx: Tx, index: int)
    requires Persists(before, middle) && Persists(middle, after) && Bears(middle, tx, index)
    ensures Persists(before, after) && Bears(after, tx, index)
  {}

  /** What the registry says of a transaction of the block at an index. */
  predicate Bears(registry: map<TokenId, TokenInfo>, tx: Tx, index: int) {
    && Authorized(registry, tx)
    && (tx.payload.IssueToken? ==>
          tx.payload.tokenId in registry && registry[tx.payload.tokenId].created == index)
  }

  lemma TxAuthorized(t: Tokens, index: int, tx: Tx)
    requires TokenTx(t, index, tx).1
    ensures var n := TokenTx(t, index, tx).0; Persists(t.registry, n.registry) && Bears(n.registry, tx, index)
  {}

  /** Every token transaction of a block that goes through was sent by someone who may, and a token
      it issues bears its height. */
  lemma {:induction false} TxsAuthorized(t: Tokens, index: int, txs: seq<Tx>)
    requires TokenTxs(t, index, txs).1
    ensures var n := TokenTxs(t, index, txs).0;
            Persists(t.registry, n.registry) && forall i | 0 <= i < |txs| :: Bears(n.registry, txs[i], index)
    decreases |txs|
  {
    hide TokenTx, Persists, Bears;
    if txs != [] {
      var t', n := TokenTx(t, index, txs[0]).0, TokenTxs(t, index, txs).0;
      TxAuthorized(t, index, txs[0]);
      TxsAuthorized(t', index, txs[1..]);
      PersistsKeeps(t.registry, t'.registry, n.registry, txs[0], index);
      forall i | 0 < i < |txs| ensures Bears(n.registry, txs[i], index) { assert txs[i] == txs[1..][i - 1]; }
    } else {
      PersistsSame(t.registry);
    }
  }

  lemma PersistsSame(registry: map<TokenId, TokenInfo>)
    ensures Persists(registry, registry)
  {}

  /** Which token transactions go through: an issue of a new symbol and id, a mint by the issuer
      that stays within both caps, a transfer of a transferable token that leaves its sender no
      debt. */
  lemma TokenTxIff(t: Tokens, index: int, tx: Tx)
    ensures TokenTx(t, index, tx).1 <==>
            match tx.payload
            case IssueToken(id, symbol, _, _) => id !in t.registry && symbol !in t.bySymbol
            case MintToken(id, _, a) =>
              id in t.registry && t.registry[id].issuer == tx.sender &&
                WithinCap(t.registry[id].(minted := Max(0, t.registry[id].minted + a)))
            case TransferToken(id, _, a) =>
              id in t.registry && t.registry[id].transferable && Get(t.bal, (id, tx.sender)) - a >= 0
            case _ => true
  {}

  // ---- One account at a time ----

  function HoldingDelta(tx: Tx, k: Account): int {
    match tx.payload
    case MintToken(id, r, a) => if k == (id, r) then a else 0
    case TransferToken(id, r, a) => if k == (id, tx.sender) then -a else if k == (id, r) then a else 0
    case _ => 0
  }

  function MintDelta(tx: Tx, id: TokenId): int {
    match tx.payload
    case MintToken(i, _, a) => if i == id then a else 0
    case _ => 0
  }

  function HoldingDeltas(txs: seq<Tx>, k: Account): seq<int> {
    seq(|txs|, i requires 0 <= i < |txs| => HoldingDelta(txs[i], k))
  }

  function MintDeltas(txs: seq<Tx>, id: TokenId): seq<int> {
    seq(|txs|, i requires 0 <= i < |txs| => MintDelta(txs[i], id))
  }

  predicate IssuesId(tx: Tx, id: TokenId) { tx.payload.IssueToken? && tx.payload.tokenId == id }

  predicate IssuesSymbol(tx: Tx, s: string) { tx.payload.IssueToken? && tx.payload.symbol == s }

  predicate IdIssuedIn(txs: seq<Tx>, id: TokenId) { exists i | 0 <= i < |txs| :: IssuesId(txs[i], id) }

  predicate SymbolIssuedIn(txs: seq<Tx>, s: string) { exists i | 0 <= i < |txs| :: IssuesSymbol(txs[i], s) }

  lemma IssuedStep(txs: seq<Tx>, id: TokenId, s: string)
    requires txs != []
    ensures IdIssuedIn(txs, id) <==> IssuesId(txs[0], id) || IdIssuedIn(txs[1..], id)
    ensures SymbolIssuedIn(txs, s) <==> IssuesSymbol(txs[0], s) || SymbolIssuedIn(txs[1..], s)
  {
    assert txs == [txs[0]] + txs[1..];
    if IdIssuedIn(txs[1..], id) {
      var i :| 0 <= i < |txs[1..]| && IssuesId(txs[1..][i], id);
      assert IssuesId(txs[i + 1], id);
    }
    if SymbolIssuedIn(txs[1..], s) {
      var i :| 0 <= i < |txs[1..]| && IssuesSymbol(txs[1..][i], s);
      assert IssuesSymbol(txs[i + 1], s);
    }
    if i :| 1 <= i < |txs| && IssuesId(txs[i], id) { assert IssuesId(txs[1..][i - 1], id); }
    if i :| 1 <= i < |txs| && IssuesSymbol(txs[i], s) { assert IssuesSymbol(txs[1..][i - 1], s); }
  }

  lemma HoldingStep(txs: seq<Tx>, k: Account, id: TokenId)
    requires txs != []
    ensures HoldingDeltas(txs, k) == [HoldingDelta(txs[0], k)] + HoldingDeltas(txs[1..], k)
    ensures MintDeltas(txs, id) == [MintDelta(txs[0], id)] + MintDeltas(txs[1..], id)
  {}

  lemma MovedGets(bal: map<Account, int>, src: Account, dst: Account, a: int, k: Account)
    requires Positive(bal) && src != dst && 0 < a <= Get(bal, src)
    ensures var n := Add(Add(bal, src, -a), dst, a);
            Positive(n) && Get(n, k) == Get(bal, k) + if k == src then -a else if k == dst then a else 0
  {
    MoveKeepsPositive(bal, src, dst, a);
    PutGets(bal, src, Get(bal, src) - a, k);
    PutGets(bal, src, Get(bal, src) - a, dst);
    PutGets(Add(bal, src, -a), dst, Get(Add(bal, src, -a), dst) + a, k);
  }

  lemma MovedBackGets(bal: map<Account, int>, src: Account, dst: Account, a: int, k: Account)
    requires Positive(bal) && src != dst && a > 0
    ensures var n := Add(Put(bal, dst, Max(0, Get(bal, dst) - a)), src, a);
            Positive(n) && Get(n, k) == if k == src then Get(bal, k) + a else if k == dst then Max(0, Get(bal, k) - a)
              else Get(bal, k)
  {
    var left := Max(0, Get(bal, dst) - a);
    var mid := Put(bal, dst, left);
    PutGets(bal, dst, left, k);
    PutGets(bal, dst, left, src);
    assert Get(bal, src) >= 0;
    PutGets(mid, src, Get(mid, src) + a, k);
  }

  /** What one applied transaction does to one account. */
  lemma TokenTxHolding(t: Tokens, index: int, tx: Tx, k: Account)
    requires Positive(t.bal) && ValidPayload(tx) && TokenTx(t, index, tx).1
    ensures var n := TokenTx(t, index, tx).0;
            Positive(n.bal) && Get(n.bal, k) == Get(t.bal, k) + HoldingDelta(tx, k)
  {
    if tx.payload.MintToken? {
      var key := (tx.payload.tokenId, tx.payload.recipient);
      PutGets(t.bal, key, Get(t.bal, key) + tx.payload.amount, k);
    } else if tx.payload.TransferToken? {
      MovedGets(t.bal, (tx.payload.tokenId, tx.sender), (tx.payload.tokenId, tx.payload.recipient), tx.payload.amount,
        k);
    }
  }

  /** What it does to one token and one symbol. */
  lemma TokenTxRegistry(t: Tokens, index: int, tx: Tx, id: TokenId, s: string)
    requires TokenTx(t, index, tx).1
    ensures var n := TokenTx(t, index, tx).0;
            && (id in n.registry <==> id in t.registry || IssuesId(tx, id))
            && (IssuesId(tx, id) ==> id !in t.registry)
            && (id in t.registry ==>
               n.registry[id] == t.registry[id].(minted := t.registry[id].minted + MintDelta(tx, id)))
            && (s in n.bySymbol <==> s in t.bySymbol || IssuesSymbol(tx, s))
            && (IssuesSymbol(tx, s) ==> s !in t.bySymbol)
            && (s in t.bySymbol ==> n.bySymbol[s] == t.bySymbol[s])
  {}

  lemma UndoTokenTxHolding(t: Tokens, tx: Tx, k: Account)
    requires Positive(t.bal) && ValidPayload(tx)
    ensures var n := UndoTokenTx(t, tx);
            && Positive(n.bal)
            && Get(n.bal, k) == (if IssuesId(tx, k.0) then 0 else Max(0, Get(t.bal, k) - HoldingDelta(tx, k)))
  {
    if tx.payload.MintToken? {
      var key := (tx.payload.tokenId, tx.payload.recipient);
      PutGets(t.bal, key, Max(0, Get(t.bal, key) - tx.payload.amount), k);
    } else if tx.payload.TransferToken? {
      MovedBackGets(t.bal, (tx.payload.tokenId, tx.sender), (tx.payload.tokenId, tx.payload.recipient),
        tx.payload.amount, k);
    }
  }

  lemma UndoTokenTxRegistry(t: Tokens, tx: Tx, id: TokenId, s: string)
    requires ValidPayload(tx)
    ensures var n := UndoTokenTx(t, tx);
            && (id in n.registry <==> id in t.registry && !IssuesId(tx, id))
            && (id in n.registry && t.registry[id].minted >= 0 ==>
                  n.registry[id] == t.registry[id].(minted := Max(0, t.registry[id].minted - MintDelta(tx, id))))
            && (s in n.bySymbol <==> s in t.bySymbol && !IssuesSymbol(tx, s))
            && (s in n.bySymbol ==> n.bySymbol[s] == t.bySymbol[s])
  {}

  lemma {:induction false} TokenTxsGets(t: Tokens, index: int, txs: seq<Tx>, k: Account, id: TokenId, s: string)
    requires Positive(t.bal) && ValidPayloads(txs) && TokenTxs(t, index, txs).1
    ensures var n := TokenTxs(t, index, txs).0;
            && Positive(n.bal) && Get(n.bal, k) == Get(t.bal, k) + Total(HoldingDeltas(txs, k))
            && (id in n.registry <==> id in t.registry || IdIssuedIn(txs, id))
            && (IdIssuedIn(txs, id) ==> id !in t.registry)
            && (id in t.registry ==>
               n.registry[id] == t.registry[id].(minted := t.registry[id].minted + Total(MintDeltas(txs, id))))
            && (s in n.bySymbol <==> s in t.bySymbol || SymbolIssuedIn(txs, s))
            && (SymbolIssuedIn(txs, s) ==> s !in t.bySymbol)
            && (s in t.bySymbol ==> n.bySymbol[s] == t.bySymbol[s])
    decreases |txs|
  {
    if txs != [] {
      TokenTxHolding(t, index, txs[0], k);
      TokenTxRegistry(t, index, txs[0], id, s);
      IssuedStep(txs, id, s);
      HoldingStep(txs, k, id);
      WalkStep(0, HoldingDelta(txs[0], k), HoldingDeltas(txs[1..], k));
      WalkStep(0, MintDelta(txs[0], id), MintDeltas(txs[1..], id));
      TokenTxsGets(TokenTx(t, index, txs[0]).0, index, txs[1..], k, id, s);
    }
  }

  /** Backward, a balance of a token the block does not issue is the clamped walk over the
      deltas. */
  lemma {:induction false} UndoTokenTxsGets(t: Tokens, txs: seq<Tx>, k: Account, id: TokenId, s: string)
    requires Positive(t.bal) && ValidPayloads(txs)
    ensures var n := UndoTokenTxs(t, txs);
            && Positive(n.bal)
            && (!IdIssuedIn(txs, k.0) ==> Get(n.bal, k) == ClampedUndo(Get(t.bal, k), HoldingDeltas(txs, k)))
            && (id in n.registry <==> id in t.registry && !IdIssuedIn(txs, id))
            && (id in n.registry && t.registry[id].minted >= 0 ==>
                  n.registry[id] == t.registry[id].(minted := ClampedUndo(t.registry[id].minted, MintDeltas(txs, id))))
            && (s in n.bySymbol <==> s in t.bySymbol && !SymbolIssuedIn(txs, s))
            && (s in n.bySymbol ==> n.bySymbol[s] == t.bySymbol[s])
    decreases |txs|
  {
    if txs != [] {
      var n := UndoTokenTx(t, txs[0]);
      UndoTokenTxHolding(t, txs[0], k);
      UndoTokenTxRegistry(t, txs[0], id, s);
      IssuedStep(txs, id, s);
      IssuedStep(txs, k.0, s);
      HoldingStep(txs, k, id);
      WalkStep(Get(t.bal, k), HoldingDelta(txs[0], k), HoldingDeltas(txs[1..], k));
      if id in t.registry { WalkStep(t.registry[id].minted, MintDelta(txs[0], id), MintDeltas(txs[1..], id)); }
      UndoTokenTxsGets(n, txs[1..], k, id, s);
    }
  }

  /** Nothing can move before its token is issued. */
  lemma QuietBeforeIssue(t: Tokens, index: int, tx: Tx, k: Account)
    requires TokenTx(t, index, tx).1 && k.0 !in t.registry
    ensures HoldingDelta(tx, k) == 0
  {}

  /** A balance of a token the block issues is wiped early on and then walks from zero. */
  lemma {:induction false} UndoIssuedHolding(t: Tokens, index: int, u: Tokens, txs: seq<Tx>, k: Account)
    requires Positive(t.bal) && Positive(u.bal) && ValidPayloads(txs) && TokenTxs(t, index, txs).1
    requires k.0 !in t.registry && IdIssuedIn(txs, k.0)
    ensures Get(UndoTokenTxs(u, txs).bal, k) == ClampedUndo(0, HoldingDeltas(txs, k))
    decreases |txs|
  {
    var t', u' := TokenTx(t, index, txs[0]).0, UndoTokenTx(u, txs[0]);
    QuietBeforeIssue(t, index, txs[0], k);
    TokenTxHolding(t, index, txs[0], k);
    UndoTokenTxHolding(u, txs[0], k);
    TokenTxRegistry(t, index, txs[0], k.0, "");
    IssuedStep(txs, k.0, "");
    HoldingStep(txs, k, k.0);
    WalkStep(0, 0, HoldingDeltas(txs[1..], k));
    if IssuesId(txs[0], k.0) {
      TokenTxsGets(t', index, txs[1..], k, k.0, "");
      UndoTokenTxsGets(u', txs[1..], k, k.0, "");
    } else {
      UndoIssuedHolding(t', index, u', txs[1..], k);
    }
  }

  lemma MintDeltasPositive(txs: seq<Tx>, id: TokenId)
    requires ValidPayloads(txs)
    ensures forall i | 0 <= i < |txs| :: MintDeltas(txs, id)[i] >= 0
  {}

  /** When the reversal restores one account: the walk over the deltas of a token issued before
      the block never dips below zero; for a token the block itself issues, no tail of the
      deltas is a net debit. */
  predicate HoldingRestored(after: Tokens, txs: seq<Tx>, k: Account) {
    var ds := HoldingDeltas(txs, k);
    if IdIssuedIn(txs, k.0) then TailsNonNegative(ds) else NeverBelow(Get(after.bal, k), ds)
  }

  lemma UndoHoldingExact(t: Tokens, index: int, txs: seq<Tx>, k: Account)
    requires TokensOk(t) && ValidPayloads(txs) && TokenTxs(t, index, txs).1
    ensures var after := TokenTxs(t, index, txs).0;
            Get(UndoTokenTxs(after, txs).bal, k) == Get(t.bal, k) <==> HoldingRestored(after, txs, k)
  {
    var after, ds := TokenTxs(t, index, txs).0, HoldingDeltas(txs, k);
    TokenTxsGets(t, index, txs, k, k.0, "");
    if IdIssuedIn(txs, k.0) {
      NoHoldings(t, k);
      UndoIssuedHolding(t, index, after, txs, k);
      ClampedUndoToZero(0, ds);
    } else {
      UndoTokenTxsGets(after, txs, k, k.0, "");
      ClampedUndoExact(Get(after.bal, k), ds);
    }
  }

  /** No token is both issued and transferred in the block, and no account of a token is both
      credited and debited. */
  predicate TokensOneSided(txs: seq<Tx>) {
    && (forall i, j | 0 <= i < |txs| && 0 <= j < |txs| ::
          txs[i].payload.TransferToken? ==> !IssuesId(txs[j], txs[i].payload.tokenId))
    && (forall i, j | 0 <= i < |txs| && 0 <= j < |txs| :: txs[i].payload.TransferToken? ==>
          HoldingDelta(txs[j], (txs[i].payload.tokenId, txs[i].sender)) <= 0)
  }

  lemma OneSidedHolding(txs: seq<Tx>, k: Account)
    requires ValidPayloads(txs) && TokensOneSided(txs)
    ensures (forall i | 0 <= i < |txs| :: HoldingDelta(txs[i], k) >= 0) ||
            (forall i | 0 <= i < |txs| :: HoldingDelta(txs[i], k) <= 0)
    ensures IdIssuedIn(txs, k.0) ==> forall i | 0 <= i < |txs| :: HoldingDelta(txs[i], k) >= 0
  {
    if i :| 0 <= i < |txs| && HoldingDelta(txs[i], k) < 0 {
      assert txs[i].payload.TransferToken? && k == (txs[i].payload.tokenId, txs[i].sender);
    }
  }

  lemma {:induction false} CreditsHaveNoDebitTail(ds: seq<int>)
    requires forall i | 0 <= i < |ds| :: ds[i] >= 0
    ensures TailsNonNegative(ds)
    decreases |ds|
  {
    if ds != [] {
      TotalSign(ds);
      CreditsHaveNoDebitTail(ds[1..]);
    }
  }

  /** A block that does not both credit and debit an account is reversed exactly. */
  lemma OneSidedRestored(t: Tokens, index: int, txs: seq<Tx>, k: Account)
    requires TokensOk(t) && ValidPayloads(txs) && TokensOneSided(txs) && TokenTxs(t, index, txs).1
    ensures HoldingRestored(TokenTxs(t, index, txs).0, txs, k)
  {
    var after, ds := TokenTxs(t, index, txs).0, HoldingDeltas(txs, k);
    OneSidedHolding(txs, k);
    TokenTxsGets(t, index, txs, k, k.0, "");
    if IdIssuedIn(txs, k.0) {
      CreditsHaveNoDebitTail(ds);
    } else {
      OneSignNeverBelow(Get(after.bal, k), ds);
    }
  }

  lemma NoHoldings(t: Tokens, k: Account)
    requires TokensOk(t) && k.0 !in t.registry
    ensures Get(t.bal, k) == 0
  {
    var h := HoldingsOf(t.bal, k.0);
    assert Sum(h) == MintedOf(t, k.0) == 0;
    SumBounds(h);
    assert Get(h, k) == Get(t.bal, k);
  }

  ghost predicate TokensRestored(after: Tokens, txs: seq<Tx>) {
    forall k :: HoldingRestored(after, txs, k)
  }

  lemma UndoSymbolsExact(t: Tokens, index: int, txs: seq<Tx>)
    requires TokensOk(t) && ValidPayloads(txs) && TokenTxs(t, index, txs).1
    ensures var undone := UndoTokenTxs(TokenTxs(t, index, txs).0, txs);
            undone.registry == t.registry && undone.bySymbol == t.bySymbol && Positive(undone.bal)
  {
    var after := TokenTxs(t, index, txs).0;
    var undone := UndoTokenTxs(after, txs);
    forall id
      ensures id in undone.registry <==> id in t.registry
      ensures id in t.registry ==> undone.registry[id] == t.registry[id]
    {
      UndoRegistryExact(t, index, txs, id);
    }
    forall s
      ensures s in undone.bySymbol <==> s in t.bySymbol
      ensures s in t.bySymbol ==> undone.bySymbol[s] == t.bySymbol[s]
    {
      TokenTxsGets(t, index, txs, ("", ""), "", s);
      UndoTokenTxsGets(after, txs, ("", ""), "", s);
    }
    TokenTxsGets(t, index, txs, ("", ""), "", "");
    UndoTokenTxsGets(after, txs, ("", ""), "", "");
  }

  /** Registry, supplies and symbols are always restored; balances exactly when each account
      meets its condition. */
  lemma UndoTokensExact(t: Tokens, index: int, txs: seq<Tx>)
    requires TokensOk(t) && ValidPayloads(txs) && TokenTxs(t, index, txs).1
    ensures var after := TokenTxs(t, index, txs).0;
            UndoTokenTxs(after, txs) == t <==> TokensRestored(after, txs)
  {
    var after := TokenTxs(t, index, txs).0;
    var undone := UndoTokenTxs(after, txs);
    UndoSymbolsExact(t, index, txs);
    forall k ensures Get(undone.bal, k) == Get(t.bal, k) <==> HoldingRestored(after, txs, k) {
      UndoHoldingExact(t, index, txs, k);
    }
    if TokensRestored(after, txs) { Ext(undone.bal, t.bal); }
  }

  lemma UndoRegistryExact(t: Tokens, index: int, txs: seq<Tx>, id: TokenId)
    requires TokensOk(t) && ValidPayloads(txs) && TokenTxs(t, index, txs).1
    ensures var undone := UndoTokenTxs(TokenTxs(t, index, txs).0, txs);
            (id in undone.registry <==> id in t.registry) &&
              (id in t.registry ==> undone.registry[id] == t.registry[id])
  {
    var after := TokenTxs(t, index, txs).0;
    TokenTxsGets(t, index, txs, ("", ""), id, "");
    UndoTokenTxsGets(after, txs, ("", ""), id, "");
    if id in t.registry {
      var m, ds := after.registry[id].minted, MintDeltas(txs, id);
      MintDeltasPositive(txs, id);
      TotalSign(ds);
      ClampedUndoExact(m, ds);
      OneSignNeverBelow(m, ds);
    }
  }
}
