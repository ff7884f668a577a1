/** The transaction pool: admission, draining and the cached debits,
    qbit_network/core/tx_pool.py, ledger.py and blockchain.py. */
module TxPools {
  import opened Maps
  import opened Types
  import opened MoneyLedger
  import opened TokenLedger
  import opened Ledger
  import opened LedgerLaws
  import opened LedgerChain
  import opened PoolLaws
  import opened BlockFacts
  import opened Blockchains
  import opened BalanceLedgers
  import opened StakeLedger
  import opened StakeTables
  import opened StakingLaws
  import LedgerUndo
  import Validation
  import Fees

  datatype Refusal =
    | PoolFull | NotAuthentic | BadPayload | AlreadyInChain | AlreadyInPool
    | NoRecipient | NoSuchValidator | TooLittleStake | FeeBelowBase | TooLittleBalance
    | BadEvidence | NotRevocable | SymbolTaken | NotTheIssuer | SupplyExceeded | NotTransferable | TooFewTokens
    | WrongNonce | Untimely

  class TxPool {
    const bc: Blockchain
    var txs: seq<Tx>
    var ids: set<TxId>
    var senderCount: map<Addr, int>
    var pendingDebits: map<Addr, int>

    constructor (bc: Blockchain)
      ensures this.bc == bc && txs == [] && Indexed() && forall d :: Cached(d)
    {
      this.bc := bc;
      txs, ids, senderCount, pendingDebits := [], {}, map[], map[];
    }

    /** The id set and the counts are those of the pool. */
    ghost predicate Indexed()
      reads this
    {
      DistinctIds(txs) && ids == IdSet(txs) && forall s :: Get(senderCount, s) == CountOf(txs, s)
    }

    /** The cached debits equal their recomputation under a fee model. */
    ghost predicate Cached(dynamic: bool)
      reads this
    {
      AllPayable(dynamic, txs) && forall s :: Get(pendingDebits, s) == PendingOf(dynamic, txs, s)
    }

    /** Every balance covers what the sender's transactions may cost at most. */
    ghost predicate Solvent(dynamic: bool, bal: map<Addr, int>)
      reads this
    {
      Cached(dynamic) && forall s :: PendingOf(dynamic, txs, s) <= Get(bal, s)
    }

    /** Each sender's transactions carry the nonces that follow the recorded one, in order. */
    ghost predicate Queued(next: map<Addr, int>)
      reads this
    {
      Validation.NoncesInOrder(txs, next)
    }

    /** Whether the next block falls under the dynamic fee model. */
    predicate DynamicNext()
      reads bc`height
    {
      bc.height + 1 >= bc.net.activation && bc.height >= 0
    }

    /** `_current_base_fee`. */
    function CurrentBaseFee(): int
      requires bc.chain != []
      reads bc`chain
    {
      Fees.ExpectedBaseFee(bc.net.activation, bc.chain[|bc.chain| - 1])
    }

    // ---- What is admitted ----

    predicate IsNew(tx: Tx)
      reads this, bc, bc.index
    {
      && |txs| < MAX_TX_POOL_SIZE && bc.signed(tx) && ValidPayload(tx)
      && tx.id !in bc.index.chainTxIds && tx.id !in ids
    }

    predicate TargetOk(tx: Tx)
      reads bc, bc.staking
    {
      match tx.payload
      case Share(r) => r != ""
      case Stake(v, _) => v in bc.staking.registry && v !in bc.staking.processedEvidence
      case Delegate(v, _) => v in bc.staking.registry && v !in bc.staking.processedEvidence
      case Unstake(v, a) => v in bc.staking.registry && a <= StakeOf(bc.staking.stakes, v, tx.sender)
      case _ => true
    }

    predicate OffersEnough(tx: Tx)
      requires bc.chain != []
      reads bc
    {
      DynamicNext() && Weight(tx.payload) > 0 ==> tx.maxFee >= CurrentBaseFee()
    }

    /** What the transaction may cost at most is nothing, or covered by the balance less what the
        pool may cost. */
    predicate Affordable(tx: Tx)
      reads this, bc, bc.ledger
    {
      || MaxDebit(DynamicNext(), tx) == 0
      || Get(bc.ledger.balances, tx.sender) - Get(pendingDebits, tx.sender) >= MaxDebit(DynamicNext(), tx)
    }

    ghost predicate SubjectOk(tx: Tx, revocable: bool)
      reads this, bc, bc.tokens, bc.staking
    {
      && TokenAdmissible(bc.tokens.Abs(), txs, tx) && (tx.payload.RevokeKey? ==> revocable)
      && (tx.payload.Evidence? ==>
            tx.payload.validator in bc.staking.registry && tx.payload.validator !in bc.staking.processedEvidence)
    }

    predicate InTurn(tx: Tx)
      reads this, bc, bc.index
    {
      tx.nonce == Validation.LastNonce(bc.index.senderNonce, tx.sender) + 1 + Get(senderCount, tx.sender)
    }

    /** Everything `submit_tx` asks for. */
    ghost predicate Admissible(tx: Tx, revocable: bool, timely: bool)
      requires bc.chain != []
      reads this, bc, bc.index, bc.ledger, bc.staking, bc.tokens
    {
      && IsNew(tx) && TargetOk(tx) && OffersEnough(tx) && Affordable(tx) && SubjectOk(tx, revocable) && InTurn(tx) &&
         timely
    }

    // ---- What that means ----

    lemma NewIff(tx: Tx)
      requires bc.Valid() && Indexed()
      ensures IsNew(tx) <==>
                && |txs| < 10_000 && bc.signed(tx) && ValidPayload(tx)
                && tx.id !in Validation.IdsOf(bc.chain) && forall i | 0 <= i < |txs| :: txs[i].id != tx.id
    {
      PoolFacts();
    }

    /** What a transaction may be aimed at: a stake at a registered validator that has not been
        slashed, an UNSTAKE at a registered one with whom the sender has at least that stake. */
    ghost predicate WellAimed(k: Staking, tx: Tx) {
      match tx.payload
      case Share(r) => r != ""
      case Stake(v, _) => v in k.registered && v !in k.punished
      case Delegate(v, _) => v in k.registered && v !in k.punished
      case Unstake(v, a) => v in k.registered && StakeOf(k.stakes, v, tx.sender) - a >= 0
      case _ => true
    }

    lemma TargetIff(tx: Tx)
      ensures TargetOk(tx) <==> WellAimed(bc.staking.Abs(), tx)
    {
      if tx.payload.Unstake? { RawInner(bc.staking.stakes, tx.payload.validator); }
    }

    lemma PriceIff(tx: Tx)
      requires bc.chain != []
      ensures OffersEnough(tx) <==>
              (DynamicNext() ==> tx.maxFee * Weight(tx.payload) >= CurrentBaseFee() * Weight(tx.payload))
    {
      hide Weight;
      Validation.OffersIff(tx.maxFee, CurrentBaseFee(), Weight(tx.payload));
    }

    lemma AffordableIff(tx: Tx)
      requires Cached(DynamicNext())
      ensures Affordable(tx) <==>
                || MaxDebit(DynamicNext(), tx) == 0
                || PendingOf(DynamicNext(), txs + [tx], tx.sender) <= Get(bc.ledger.balances, tx.sender)
    {
      SumOneMore(Debits(DynamicNext()), txs, tx, tx.sender);
    }

    /** What is admitted, in terms of the chain, its state and the pool with the transaction in it: it
        is new, authentic and well formed, aims at a proper validator, offers the base fee that
        the next block has to carry, is paid for together with all that its sender has pending,
        carries the nonce that follows them, and keeps the rules for tokens, evidence and
        revocations. */
    lemma AdmissibleIff(tx: Tx, revocable: bool, timely: bool)
      requires bc.Valid() && Indexed() && Cached(DynamicNext())
      ensures bc.chain != []
      ensures var s, chain, dynamic := bc.Abs(), bc.chain, |bc.chain| >= bc.net.activation;
              var price := Fees.ExpectedBaseFee(bc.net.activation, chain[|chain| - 1]);
              Admissible(tx, revocable, timely) <==>
                && |txs| < 10_000 && bc.signed(tx) && ValidPayload(tx)
                && tx.id !in Validation.IdsOf(chain) && (forall i | 0 <= i < |txs| :: txs[i].id != tx.id)
                && WellAimed(s.staking, tx)
                && (dynamic ==> tx.maxFee * Weight(tx.payload) >= price * Weight(tx.payload))
                && (MaxDebit(dynamic, tx) == 0 ||
                    PendingOf(dynamic, txs + [tx], tx.sender) <= Get(s.money.bal, tx.sender))
                && tx.nonce == Get(s.next, tx.sender) + CountOf(txs, tx.sender)
                && TokenAdmissible(s.tokens, txs, tx)
                && (tx.payload.Evidence? ==> tx.payload.validator in s.staking.registered - s.staking.punished)
                && (tx.payload.RevokeKey? ==> revocable) && timely
    {
      hide Blockchain.Settled, IsNew, TargetOk, OffersEnough, Affordable, InTurn, Indexed, Cached, MaxDebit, PendingOf;
      hide ValidPayload, TokenAdmissible, WellAimed, Weight, Validation.IdsOf, Fees.ExpectedBaseFee;
      ScreenFacts(tx);
      NewIff(tx);
      TargetIff(tx);
      PriceIff(tx);
      AffordableIff(tx);
      bc.ValidFacts();
    }

    /** With the totals of the ledger in balance an UNSTAKE the pool admits is covered, so that it
        creates no coins unless something comes before it. */
    lemma AdmittedUnstakeCovered(tx: Tx)
      requires bc.Valid() && TargetOk(tx) && Balanced(bc.Abs().staking)
      ensures UnstakeCovered(bc.Abs().staking, tx)
    {
      hide Blockchain.SettledWith;
      TargetIff(tx);
      AimedCovered(tx);
    }

    lemma AimedCovered(tx: Tx)
      requires bc.Valid() && WellAimed(bc.Abs().staking, tx) && Balanced(bc.Abs().staking)
      ensures UnstakeCovered(bc.Abs().staking, tx)
    {
      hide Blockchain.Abs;
      StakingTidy();
      if tx.payload.Unstake? { StakeWithinTotal(bc.Abs().staking, tx.payload.validator, tx.sender); }
    }

    lemma StakingTidy()
      requires bc.Valid()
      ensures Tidy(bc.Abs().staking)
    {}

    /** The checks that a transaction is authentic, well formed and new. */
    method CheckNew(tx: Tx) returns (refusal: Option<Refusal>)
      ensures refusal in {None, Some(PoolFull), Some(NotAuthentic), Some(BadPayload), Some(AlreadyInChain),
              Some(AlreadyInPool)}
      ensures refusal.None? <==> IsNew(tx)
    {
      if |txs| >= MAX_TX_POOL_SIZE { return Some(PoolFull); }
      if !bc.signed(tx) { return Some(NotAuthentic); }
      if !ValidPayload(tx) { return Some(BadPayload); }
      if tx.id in bc.index.chainTxIds { return Some(AlreadyInChain); }
      if tx.id in ids { return Some(AlreadyInPool); }
      refusal := None;
    }

    /** The checks on a recipient, on the validator of a stake and on the offered fee. */
    method CheckTarget(tx: Tx) returns (refusal: Option<Refusal>)
      requires bc.chain != []
      ensures refusal in {None, Some(NoRecipient), Some(NoSuchValidator), Some(TooLittleStake), Some(FeeBelowBase)}
      ensures refusal.None? <==> TargetOk(tx) && OffersEnough(tx)
    {
      refusal := None;
      match tx.payload {
      case Share(r) => if r == "" { return Some(NoRecipient); }
      case Stake(v, _) => if v !in bc.staking.registry ||
        v in bc.staking.processedEvidence { return Some(NoSuchValidator); }
      case Delegate(v, _) => if v !in bc.staking.registry ||
        v in bc.staking.processedEvidence { return Some(NoSuchValidator); }
      case Unstake(v, a) =>
        if v !in bc.staking.registry { return Some(NoSuchValidator); }
        if a > StakeOf(bc.staking.stakes, v, tx.sender) { return Some(TooLittleStake); }
      case _ =>
      }
      if DynamicNext() && Weight(tx.payload) > 0 && tx.maxFee < CurrentBaseFee() { return Some(FeeBelowBase); }
    }

    /** The balance check under the current fee model. A transaction that pays no fee is only
        checked when it is a transfer. */
    method CheckBalance(tx: Tx) returns (refusal: Option<Refusal>)
      requires Payable(DynamicNext(), tx)
      ensures refusal == None || refusal == Some(TooLittleBalance)
      ensures refusal.None? <==> Affordable(tx)
    {
      refusal := None;
      var available := Get(bc.ledger.balances, tx.sender) - Get(pendingDebits, tx.sender);
      if DynamicNext() {
        var w := Weight(tx.payload);
        if w > 0 {
          FeePositive(tx.maxFee, w);
          var extra := if tx.payload.Transfer? || tx.payload.Stake? ||
            tx.payload.Delegate? then tx.payload.amount else 0;
          if available < tx.maxFee * w + extra { refusal := Some(TooLittleBalance); }
        }
      } else if tx.payload.Transfer? {
        if available < tx.payload.amount + LegacyFee(tx.payload) { refusal := Some(TooLittleBalance); }
      } else {
        var fee := LegacyFee(tx.payload);
        if fee > 0 {
          var extra := if tx.payload.Stake? || tx.payload.Delegate? then tx.payload.amount else 0;
          if available < fee + extra { refusal := Some(TooLittleBalance); }
        }
      }
    }

    /** The pending amounts of one token: minted, and sent by one holder. */
    method PendingTokens(id: TokenId, sender: Addr) returns (minted: int, sent: int)
      ensures minted == PendingMint(txs, id) && sent == PendingSent(txs, id, sender)
    {
      minted, sent := 0, 0;
      for i := 0 to |txs|
        invariant minted == PendingMint(txs[..i], id) && sent == PendingSent(txs[..i], id, sender)
      {
        assert txs[..i + 1][..i] == txs[..i];
        match txs[i].payload
        case MintToken(t, _, a) => if t == id { minted := minted + a; }
        case TransferToken(t, _, a) => if t == id && txs[i].sender == sender { sent := sent + a; }
        case _ =>
      }
      assert txs[..|txs|] == txs;
    }

    /** The checks on evidence, key revocations, and tokens against the ledger and the rest of
        the pool. */
    method CheckSubject(tx: Tx, revocable: bool) returns (refusal: Option<Refusal>)
      ensures refusal != Some(TooLittleBalance) && refusal != Some(WrongNonce)
      ensures refusal.None? <==> SubjectOk(tx, revocable)
    {
      refusal := None;
      match tx.payload
      case Evidence(v, _) => if v !in bc.staking.registry ||
        v in bc.staking.processedEvidence { return Some(BadEvidence); }
      case RevokeKey(_) => if !revocable { return Some(NotRevocable); }
      case IssueToken(_, symbol, _, _) =>
        if symbol in bc.tokens.bySymbol { return Some(SymbolTaken); }
        for i := 0 to |txs|
          invariant forall j | 0 <= j < i :: !IssuesSymbol(txs[j], symbol)
        {
          if txs[i].payload.IssueToken? && txs[i].payload.symbol == symbol {
            assert IssuesSymbol(txs[i], symbol);
            return Some(SymbolTaken);
          }
        }
      case MintToken(id, _, amount) =>
        if id !in bc.tokens.registry { return Some(NotTheIssuer); }
        var info := bc.tokens.registry[id];
        if info.issuer != tx.sender { return Some(NotTheIssuer); }
        if info.maxSupply > 0 {
          var minted, _ := PendingTokens(id, tx.sender);
          if info.minted + minted + amount > info.maxSupply { return Some(SupplyExceeded); }
        }
      case TransferToken(id, _, amount) =>
        if id !in bc.tokens.registry { return Some(NotTransferable); }
        if !bc.tokens.registry[id].transferable { return Some(NotTransferable); }
        var _, sent := PendingTokens(id, tx.sender);
        if Get(bc.tokens.balances, (id, tx.sender)) - sent < amount { return Some(TooFewTokens); }
      case _ =>
    }

    /** All the checks of `submit_tx`. The refusals for want of money or for a nonce are never
        mistaken, and what is admissible is not refused. */
    method Screen(tx: Tx, revocable: bool, timely: bool) returns (refusal: Option<Refusal>)
      requires bc.Valid() && Indexed() && Cached(DynamicNext())
      ensures bc.chain != [] && (refusal.None? <==> Admissible(tx, revocable, timely))
      ensures refusal.None? ==>
                && tx.id !in Validation.IdsOf(bc.chain) && Payable(DynamicNext(), tx)
                && tx.nonce == Get(bc.Abs().next, tx.sender) + CountOf(txs, tx.sender)
      ensures refusal == Some(TooLittleBalance) ==>
              PendingOf(DynamicNext(), txs + [tx], tx.sender) > Get(bc.ledger.balances, tx.sender)
      ensures refusal == Some(WrongNonce) ==> tx.nonce != Get(bc.Abs().next, tx.sender) + CountOf(txs, tx.sender)
    {
      hide Blockchain.Settled, Blockchain.Abs, Indexed, Cached;
      hide IsNew, TargetOk, OffersEnough, Affordable, SubjectOk, InTurn;
      ScreenFacts(tx);
      TurnExpected(tx);
      refusal := CheckNew(tx);
      if refusal.Some? { return; }
      refusal := CheckTarget(tx);
      if refusal.Some? { return; }
      refusal := CheckBalance(tx);
      if refusal.Some? { return; }
      refusal := CheckSubject(tx, revocable);
      if refusal.Some? { return; }
      var expected := Validation.LastNonce(bc.index.senderNonce, tx.sender) + 1;
      if tx.nonce != expected + Get(senderCount, tx.sender) { return Some(WrongNonce); }
      if !timely { return Some(Untimely); }
    }

    lemma TurnExpected(tx: Tx)
      ensures InTurn(tx) <==>
              tx.nonce == Validation.LastNonce(bc.index.senderNonce, tx.sender) + 1 + Get(senderCount, tx.sender)
    {}

    /** What the checks mean for a pool that is in order. */
    lemma ScreenFacts(tx: Tx)
      requires bc.Valid() && Indexed() && Cached(DynamicNext())
      ensures bc.chain != []
      ensures InTurn(tx) <==> tx.nonce == Get(bc.Abs().next, tx.sender) + CountOf(txs, tx.sender)
      ensures IsNew(tx) ==> tx.id !in Validation.IdsOf(bc.chain)
      ensures IsNew(tx) && OffersEnough(tx) ==> Payable(DynamicNext(), tx)
      ensures !Affordable(tx) ==>
                PendingOf(DynamicNext(), txs + [tx], tx.sender) > Get(bc.ledger.balances, tx.sender)
    {
      hide Blockchain.Settled, Blockchain.Abs, AllPayable, DistinctIds, Payable, ValidPayload, MaxDebit;
      PoolFacts();
      SumOneMore(Debits(DynamicNext()), txs, tx, tx.sender);
      if IsNew(tx) && OffersEnough(tx) {
        PayableOnceAccepted(bc.net.activation, bc.chain[|bc.chain| - 1], DynamicNext(), tx);
      }
    }

    /** `submit_tx`. `revocable` stands for the checks of a key revocation and `timely` for
        those of the timestamp. An admitted transaction keeps the pool indexed, solvent and in
        nonce order; a refused one changes nothing. */
    method SubmitTx(tx: Tx, revocable: bool, timely: bool) returns (refusal: Option<Refusal>)
      requires bc.Valid() && Indexed() && Cached(DynamicNext()) && Queued(bc.Abs().next)
      modifies this
      ensures Indexed() && Cached(DynamicNext()) && Queued(bc.Abs().next)
      ensures old(Solvent(DynamicNext(), bc.ledger.balances)) ==> Solvent(DynamicNext(), bc.ledger.balances)
      ensures refusal.None? && MaxDebit(DynamicNext(), tx) > 0 ==>
                PendingOf(DynamicNext(), txs, tx.sender) <= Get(bc.ledger.balances, tx.sender)
      ensures txs == if refusal.None? then old(txs) + [tx] else old(txs)
      ensures refusal.Some? ==>
              ids == old(ids) && pendingDebits == old(pendingDebits) && senderCount == old(senderCount)
      ensures bc.chain != [] && (refusal.None? <==> old(Admissible(tx, revocable, timely)))
      ensures refusal == Some(TooLittleBalance) ==>
              PendingOf(DynamicNext(), txs + [tx], tx.sender) > Get(bc.ledger.balances, tx.sender)
      ensures refusal == Some(WrongNonce) ==> tx.nonce != Get(bc.Abs().next, tx.sender) + CountOf(txs, tx.sender)
    {
      hide Blockchain.Settled, Blockchain.Abs, Validation.NoncesInOrder, AllPayable, DistinctIds, Payable, ValidPayload;
      hide TokenAdmissible, MaxDebit, TargetOk, SubjectOk;
      refusal := Screen(tx, revocable, timely);
      if refusal.None? {
        QueuedOneMore(txs, tx, bc.Abs().next);
        Enqueue(tx, Get(senderCount, tx.sender));
      }
    }

    /** The end of an admission. */
    method Enqueue(tx: Tx, pendingFromSender: int)
      requires Indexed() && Cached(DynamicNext()) && tx.id !in ids && Payable(DynamicNext(), tx)
      requires pendingFromSender == Get(senderCount, tx.sender)
      requires Affordable(tx)
      modifies this
      ensures Indexed() && Cached(DynamicNext()) && txs == old(txs) + [tx]
      ensures old(Solvent(DynamicNext(), bc.ledger.balances)) ==> Solvent(DynamicNext(), bc.ledger.balances)
      ensures MaxDebit(DynamicNext(), tx) > 0 ==>
                PendingOf(DynamicNext(), txs, tx.sender) <= Get(bc.ledger.balances, tx.sender)
    {
      forall s
        ensures PendingOf(DynamicNext(), txs + [tx], s) == PendingOf(DynamicNext(), txs, s) + if tx.sender == s
                then MaxDebit(DynamicNext(), tx) else 0
        ensures CountOf(txs + [tx], s) == CountOf(txs, s) + if tx.sender == s then 1 else 0
      {
        SumOneMore(Debits(DynamicNext()), txs, tx, s);
        CountOneMore(txs, tx, s);
      }
      IdsOneMore(txs, tx);
      txs := txs + [tx];
      ids := ids + {tx.id};
      senderCount := senderCount[tx.sender := pendingFromSender + 1];
      pendingDebits := pendingDebits[tx.sender := Get(pendingDebits, tx.sender) + CalcTxDebit(tx)];
    }

    /** `_calc_tx_debit`. */
    function CalcTxDebit(tx: Tx): int
      reads bc`height
    {
      MaxDebit(DynamicNext(), tx)
    }

    // ---- After a block ----

    /** `_rebuild_pending_debits_cache`. */
    method RebuildPendingDebits()
      modifies this`pendingDebits
      ensures forall s :: Get(pendingDebits, s) == PendingOf(DynamicNext(), txs, s)
    {
      var cache: map<Addr, int> := map[];
      var dynamic := DynamicNext();
      for i := 0 to |txs|
        invariant CacheOf(cache, dynamic, txs[..i])
      {
        CacheStep(cache, dynamic, txs, i);
        cache := cache[txs[i].sender := Get(cache, txs[i].sender) + CalcTxDebit(txs[i])];
      }
      assert txs[..|txs|] == txs;
      pendingDebits := cache;
    }

    /** How many transactions of a block each sender has. */
    method MinedSenders(mined: seq<Tx>) returns (count: map<Addr, int>)
      ensures forall s :: Get(count, s) == SumOf(Ones, mined, s)
    {
      count := map[];
      for i := 0 to |mined|
        invariant forall s :: Get(count, s) == SumOf(Ones, mined[..i], s)
      {
        assert mined[..i + 1][..i] == mined[..i];
        count := count[mined[i].sender := Get(count, mined[i].sender) + 1];
      }
      assert mined[..|mined|] == mined;
    }

    /** The counts of the senders of a block go down. */
    method LowerCounts(count: map<Addr, int>)
      requires forall s :: 0 <= Get(count, s) <= Get(senderCount, s)
      modifies this`senderCount
      ensures forall s :: Get(senderCount, s) == Get(old(senderCount), s) - Get(count, s)
    {
      var todo := count.Keys;
      while todo != {}
        invariant todo <= count.Keys
        invariant forall s :: Get(senderCount, s) == Get(old(senderCount), s) - if s in todo then 0 else Get(count, s)
        decreases |todo|
      {
        var s :| s in todo;
        assert 0 <= Get(count, s) <= Get(old(senderCount), s);
        var remaining := (if s in senderCount then senderCount[s] else count[s]) - count[s];
        if remaining <= 0 {
          senderCount := senderCount - {s};
        } else {
          senderCount := senderCount[s := remaining];
        }
        todo := todo - {s};
      }
    }

    /** `_drain_pool`, for a block drawn from this pool. */
    method DrainPool(b: Block)
      requires Indexed() && Drawn(txs, b.txs)
      modifies this
      ensures Indexed() && txs == Without(old(txs), IdSet(b.txs))
      ensures forall s :: Get(pendingDebits, s) == PendingOf(DynamicNext(), txs, s)
    {
      var minedIds := IdSet(b.txs);
      var count := MinedSenders(b.txs);
      forall s
        ensures CountOf(Without(txs, minedIds), s) == CountOf(txs, s) - SumOf(Ones, b.txs, s)
        ensures 0 <= SumOf(Ones, b.txs, s)
      {
        CountsAreSums(txs, s);
        CountsAreSums(Without(txs, minedIds), s);
        CountsAreSums(b.txs, s);
        DrainedSum(Ones, txs, b.txs, s);
      }
      WithoutMembers(txs, minedIds);
      WithoutIds(txs, minedIds);
      txs := Without(txs, minedIds);
      ids := ids - minedIds;
      LowerCounts(count);
      RebuildPendingDebits();
    }

    /** One fee model holds for a block and the next one. */
    predicate OneModel()
      reads bc`height
    {
      DynamicNext() == (bc.height + 2 >= bc.net.activation)
    }

    /** A block drawn from the pool is appended and drained. It can only fail for its token checks
        or its state root, never for want of money, when the pool is solvent, or, at an epoch
        boundary, when its senders afford it besides what they pay out there. Whoever affords all it has in the
        pool can cover what is left of it, so that away from boundaries the pool is solvent
        again; a block with its nonces in order leaves the rest in nonce order. */
    method MineFromPool(b: Block) returns (outcome: Outcome)
      requires bc.Valid() && Fits(bc.chain, b) && OneModel()
      requires AllReversible(b.txs) || Apply(bc.Abs(), bc.net.activation, b).1 == Applied
      requires Indexed() && Cached(DynamicNext()) && Queued(bc.Abs().next) && Drawn(txs, b.txs)
      requires forall i | 0 <= i < |b.txs| :: FeeWithin(bc.net.activation, b, b.txs[i])
      requires (Solvent(DynamicNext(), bc.ledger.balances) && !AtBoundary(bc.Abs(), b.index)) ||
               AllAfford(bc.Abs(), b.index, DynamicNext(), b.txs)
      modifies this, bc, bc.ledger, bc.staking, bc.tokens, bc.notary, bc.index, bc.trie
      ensures outcome == TxFailed <==> !TokenTxs(old(bc.Abs()).tokens, b.index, b.txs).1
      ensures outcome == Applied ==>
                && bc.Valid() && bc.chain == old(bc.chain) + [b] && txs == Without(old(txs), IdSet(b.txs))
                && Indexed() && Cached(DynamicNext())
      ensures outcome == Applied ==>
                forall a | Affords(old(bc.Abs()), b.index, old(DynamicNext()), old(txs), a) ::
                  PendingOf(DynamicNext(), txs, a) <= Get(bc.ledger.balances, a)
      ensures outcome == Applied && old(Solvent(DynamicNext(), bc.ledger.balances)) ==>
                AtBoundary(old(bc.Abs()), b.index) || Solvent(DynamicNext(), bc.ledger.balances)
      ensures outcome == Applied && Validation.NoncesInOrder(b.txs, old(bc.Abs()).next) ==> Queued(bc.Abs().next)
    {
      hide Blockchain.Settled, Apply, FeeWithin, Affords, AllAfford, Validation.NoncesInOrder, Replay, Grown, StateOk;
      hide WellFormed, PendingOf, Drawn, DistinctIds, AllReversible, FeesOk, Without, IdSet, TokenTxs, AllPayable;
      hide AtBoundary, Blockchain.Valid;
      ghost var s, before, pool, dynamic := bc.Abs(), bc.chain, txs, DynamicNext();
      bc.ValidFacts();
      if Solvent(dynamic, bc.ledger.balances) && !AtBoundary(s, b.index) {
        SolventAffords(s, b.index, dynamic, pool, b.txs);
      }
      MiningFacts(bc.net, before, s, b, pool, dynamic);
      outcome := AppendMined(b);
      if outcome == Applied { DrainPool(b); }
    }

    /** The block is appended; the pool stays as it is. */
    method AppendMined(b: Block) returns (outcome: Outcome)
      requires bc.Valid() && Fits(bc.chain, b) && FeesOk(bc.net.activation, b, b.txs)
      requires AllReversible(b.txs) || Apply(bc.Abs(), bc.net.activation, b).1 == Applied
      modifies bc, bc.ledger, bc.staking, bc.tokens, bc.notary, bc.index, bc.trie
      ensures outcome == Apply(old(bc.Abs()), bc.net.activation, b).1
      ensures outcome == Applied ==>
                && bc.Valid() && bc.chain == old(bc.chain) + [b] && bc.height == old(bc.height) + 1
                && bc.Abs() == Apply(old(bc.Abs()), bc.net.activation, b).0
                && bc.ledger.balances == bc.Abs().money.bal
    {
      hide Blockchain.Settled, Apply, Fits, Replay, Grown, FeesOk, AllReversible, BlockReward, Norm, Undoable;
      hide TakenBack, LedgerUndo.ButForRewards, LedgerUndo.RestorableOnRecord, LedgerUndo.Returns;
      bc.ValidFacts();
      Extended(bc.net, bc.chain, b);
      outcome := bc.AppendBlock(b);
      if outcome == Applied { bc.ValidFacts(); }
    }

    lemma PoolFacts()
      requires bc.Valid()
      ensures bc.chain != [] && bc.index.chainTxIds == Validation.IdsOf(bc.chain)
      ensures forall s :: Get(bc.Abs().next, s) == Validation.LastNonce(bc.index.senderNonce, s) + 1
    {
      HistoryIds(bc.chain);
    }
  }

  lemma RawInner(stakes: Stakes, v: Addr)
    ensures Inner(DropEmpty(stakes), v) == Inner(stakes, v)
  {}

  lemma StakeWithinTotal(k: Staking, v: Addr, s: Addr)
    requires Tidy(k) && Balanced(k)
    ensures StakeOf(k.stakes, v, s) <= Get(k.total, v)
  {
    assert BalancedAt(k, v);
    SumBounds(Inner(k.stakes, v));
  }

  lemma CountOneMore(txs: seq<Tx>, tx: Tx, s: Addr)
    ensures CountOf(txs + [tx], s) == CountOf(txs, s) + if tx.sender == s then 1 else 0
  {
    CountPrefix(txs, [tx], |txs|, s);
  }

  lemma {:induction false} CountPrefix(a: seq<Tx>, b: seq<Tx>, i: nat, s: Addr)
    requires i <= |a|
    ensures Validation.CountBefore(a + b, i, s) == Validation.CountBefore(a, i, s)
    decreases i
  {
    if i > 0 { CountPrefix(a, b, i - 1, s); }
  }

  lemma IdsOneMore(txs: seq<Tx>, tx: Tx)
    ensures IdSet(txs + [tx]) == IdSet(txs) + {tx.id}
    ensures DistinctIds(txs) && tx.id !in IdSet(txs) ==> DistinctIds(txs + [tx])
  {
    var more := txs + [tx];
    assert more[|txs|].id == tx.id;
    forall i | 0 <= i < |txs| ensures txs[i].id in IdSet(more) && txs[i].id in IdSet(txs) {
      assert more[i].id == txs[i].id;
    }
  }

  lemma QueuedOneMore(txs: seq<Tx>, tx: Tx, next: map<Addr, int>)
    requires Validation.NoncesInOrder(txs, next) && tx.nonce == Get(next, tx.sender) + CountOf(txs, tx.sender)
    ensures Validation.NoncesInOrder(txs + [tx], next)
  {
    var more := txs + [tx];
    forall i | 0 <= i < |more| ensures more[i].nonce
      == Get(next, more[i].sender) + Validation.CountBefore(more, i, more[i].sender) {
      CountPrefix(txs, [tx], i, more[i].sender);
    }
  }

  lemma WithoutIds(txs: seq<Tx>, ids: set<TxId>)
    ensures IdSet(Without(txs, ids)) == IdSet(txs) - ids
  {
    var kept := Without(txs, ids);
    WithoutMembers(txs, ids);
    forall id ensures id in IdSet(kept) <==> id in IdSet(txs) && id !in ids {
      if i :| 0 <= i < |kept| && kept[i].id == id {
        assert kept[i] in txs;
        var j :| 0 <= j < |txs| && txs[j] == kept[i];
        assert txs[j].id in IdSet(txs);
      }
      if j :| 0 <= j < |txs| && txs[j].id == id && id !in ids {
        assert txs[j] in kept;
        var i :| 0 <= i < |kept| && kept[i] == txs[j];
        assert kept[i].id in IdSet(kept);
      }
    }
  }

  /** What is known of a block drawn from a solvent pool before it is appended. */
  lemma MiningFacts(net: Network, chain: seq<Block>, s: State, b: Block, pool: seq<Tx>, dynamic: bool)
    requires Grown(net, chain) && s == Replay(net, chain) && Fits(chain, b) && dynamic == IsDynamic(net.activation, b)
    requires DistinctIds(pool) && Drawn(pool, b.txs) && AllPayable(dynamic, pool) &&
             Validation.NoncesInOrder(pool, s.next)
    requires forall i | 0 <= i < |b.txs| :: FeeWithin(net.activation, b, b.txs[i])
    requires AllAfford(s, b.index, dynamic, b.txs)
    ensures FeesOk(net.activation, b, b.txs) && AllPayable(dynamic, Without(pool, IdSet(b.txs)))
    ensures Apply(s, net.activation, b).1 == TxFailed <==> !TokenTxs(s.tokens, b.index, b.txs).1
    ensures Apply(s, net.activation, b).1 != TxFailed ==>
              forall a | Affords(s, b.index, dynamic, pool, a) ::
                PendingOf(dynamic, Without(pool, IdSet(b.txs)), a) <= Get(Apply(s, net.activation, b).0.money.bal, a)
    ensures Apply(s, net.activation, b).1 != TxFailed && Validation.NoncesInOrder(b.txs, s.next) ==>
              Validation.NoncesInOrder(Without(pool, IdSet(b.txs)), Apply(s, net.activation, b).0.next)
  {
    hide Apply, Grown, FeeWithin, Affords, AllAfford, Validation.NoncesInOrder, FeesOk, AllPayable, DistinctIds;
    GrownOk(net, chain);
    DrawnPayable(dynamic, pool, b.txs);
    FeesWithin(net.activation, b, b.txs);
    SolventThroughBlock(s, |chain| - 1, net.activation, b, pool, b.validator);
    forall a | Affords(s, b.index, dynamic, pool, a)
      ensures Apply(s, net.activation, b).1 != TxFailed ==>
                PendingOf(dynamic, Without(pool, IdSet(b.txs)), a) <= Get(Apply(s, net.activation, b).0.money.bal, a)
    {
      SolventThroughBlock(s, |chain| - 1, net.activation, b, pool, a);
    }
    if Apply(s, net.activation, b).1 != TxFailed && Validation.NoncesInOrder(b.txs, s.next) {
      DrainedInOrder(s, |chain| - 1, net.activation, b, pool);
    }
  }

  lemma DrainedInOrder(s: State, height: int, activation: int, b: Block, pool: seq<Tx>)
    requires WellFormed(s, height) && b.index == height + 1 && DistinctIds(pool) && Drawn(pool, b.txs)
    requires Validation.NoncesInOrder(pool, s.next) && Validation.NoncesInOrder(b.txs, s.next)
    requires Apply(s, activation, b).1 != TxFailed
    ensures Validation.NoncesInOrder(Without(pool, IdSet(b.txs)), Apply(s, activation, b).0.next)
  {
    hide Apply, DistinctIds, Drawn, Validation.NoncesInOrder;
    ApplyIndexes(s, height, activation, b);
    QueuedAfterBlock(pool, b.txs, s.next);
  }

  lemma FeesWithin(activation: int, b: Block, txs: seq<Tx>)
    requires AllPayable(IsDynamic(activation, b), txs) && forall i | 0 <= i < |txs| :: FeeWithin(activation, b, txs[i])
    ensures FeesOk(activation, b, txs)
  {
    forall i | 0 <= i < |txs| ensures FeeOf(activation, b, txs[i]) >= 0 { FeeWithinDebit(activation, b, txs[i]); }
  }

  ghost predicate CacheOf(cache: map<Addr, int>, dynamic: bool, txs: seq<Tx>) {
    forall s :: Get(cache, s) == PendingOf(dynamic, txs, s)
  }

  lemma CacheStep(cache: map<Addr, int>, dynamic: bool, txs: seq<Tx>, i: nat)
    requires i < |txs| && CacheOf(cache, dynamic, txs[..i])
    ensures CacheOf(cache[txs[i].sender := Get(cache, txs[i].sender) + MaxDebit(dynamic, txs[i])], dynamic,
            txs[..i + 1])
  {
    var more := cache[txs[i].sender := Get(cache, txs[i].sender) + MaxDebit(dynamic, txs[i])];
    forall s ensures Get(more, s) == PendingOf(dynamic, txs[..i + 1], s) {
      assert Get(cache, s) == PendingOf(dynamic, txs[..i], s);
      SumOneMore(Debits(dynamic), txs[..i], txs[i], s);
      assert txs[..i + 1] == txs[..i] + [txs[i]];
    }
  }
}
