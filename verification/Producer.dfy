/** The choice of the transactions of a block under the dynamic fee model:
    `produce_block` of qbit_network/core/blockchain.py. */
module Producer {
  import opened Maps
  import opened Types
  import opened PoolLaws
  import opened Fees
  import Validation

  /** A block pays for itself when each fee-bearing transaction offers the base fee. */
  predicate Offers(tx: Tx, baseFee: int) { Weight(tx.payload) == 0 || tx.maxFee >= baseFee }

  /** The eligible transactions of one sender, in pool order. */
  function EligibleOf(pool: seq<Tx>, s: Addr, baseFee: int): seq<Tx> {
    if pool == [] then [] else
    EligibleOf(pool[..|pool| - 1], s, baseFee)
    + if pool[|pool| - 1].sender == s && Offers(pool[|pool| - 1], baseFee) then [pool[|pool| - 1]] else []
  }

  /** A stable sort by nonce: each transaction goes behind those whose nonce is not greater. */
  function ByNonce(q: seq<Tx>): seq<Tx> {
    if q == [] then [] else Insert(ByNonce(q[..|q| - 1]), q[|q| - 1])
  }

  function Insert(q: seq<Tx>, tx: Tx): seq<Tx> {
    if q == [] || q[|q| - 1].nonce <= tx.nonce then q + [tx]
    else Insert(q[..|q| - 1], tx) + [q[|q| - 1]]
  }

  /** The queue of one sender: what is eligible, sorted by nonce. */
  function QueueOf(pool: seq<Tx>, s: Addr, baseFee: int): seq<Tx> { ByNonce(EligibleOf(pool, s, baseFee)) }

  predicate Ascending(q: seq<Tx>) { forall i, j | 0 <= i < j < |q| :: q[i].nonce <= q[j].nonce }

  lemma AppendKeeps(q: seq<Tx>, tx: Tx)
    ensures forall x :: x in q + [tx] <==> x in q || x == tx
    ensures Ascending(q) && (forall x <- q :: x.nonce <= tx.nonce) ==> Ascending(q + [tx])
    ensures DistinctIds(q) && (forall x <- q :: x.id != tx.id) ==> DistinctIds(q + [tx])
  {
    forall i | 0 <= i < |q| ensures q[i] in q {}
  }

  lemma LastOfAll(q: seq<Tx>)
    requires q != []
    ensures q == q[..|q| - 1] + [q[|q| - 1]]
    ensures Ascending(q) ==> Ascending(q[..|q| - 1]) && forall x <- q :: x.nonce <= q[|q| - 1].nonce
    ensures DistinctIds(q) ==> DistinctIds(q[..|q| - 1]) && forall x <- q[..|q| - 1] :: x.id != q[|q| - 1].id
  {
    forall x | x in q[..|q| - 1] ensures DistinctIds(q) ==> x.id != q[|q| - 1].id {
      var j :| 0 <= j < |q| - 1 && q[..|q| - 1][j] == x;
      assert q[j] == x;
    }
  }

  lemma {:induction false} InsertKeeps(q: seq<Tx>, tx: Tx)
    requires Ascending(q)
    ensures Ascending(Insert(q, tx)) && forall x :: x in Insert(q, tx) <==> x in q || x == tx
    ensures DistinctIds(q) && (forall x <- q :: x.id != tx.id) ==> DistinctIds(Insert(q, tx))
    decreases |q|
  {
    hide Ascending, DistinctIds;
    if q == [] || q[|q| - 1].nonce <= tx.nonce {
      if q != [] { LastOfAll(q); }
      AppendKeeps(q, tx);
    } else {
      var front, last := q[..|q| - 1], q[|q| - 1];
      LastOfAll(q);
      AppendKeeps(front, last);
      InsertKeeps(front, tx);
      AppendKeeps(Insert(front, tx), last);
    }
  }

  /** The sort orders by nonce and keeps what it is given. */
  lemma {:induction false} ByNonceSorts(q: seq<Tx>)
    ensures Ascending(ByNonce(q)) && forall x :: x in ByNonce(q) <==> x in q
    ensures DistinctIds(q) ==> DistinctIds(ByNonce(q))
    decreases |q|
  {
    if q != [] {
      LastOfAll(q);
      ByNonceSorts(q[..|q| - 1]);
      InsertKeeps(ByNonce(q[..|q| - 1]), q[|q| - 1]);
    }
  }

  /** What is in order already stays as it is. */
  lemma {:induction false} ByNonceStays(q: seq<Tx>)
    requires Ascending(q)
    ensures ByNonce(q) == q
    decreases |q|
  {
    if q != [] {
      var front, last := q[..|q| - 1], q[|q| - 1];
      assert q == front + [last];
      ByNonceStays(front);
    }
  }

  predicate DistinctSenders(order: seq<Addr>) { forall i, j | 0 <= i < j < |order| :: order[i] != order[j] }

  lemma {:induction false} EligibleMembers(pool: seq<Tx>, s: Addr, baseFee: int)
    ensures forall tx :: tx in EligibleOf(pool, s, baseFee) <==> tx in pool && tx.sender == s && Offers(tx, baseFee)
    ensures DistinctIds(pool) ==> DistinctIds(EligibleOf(pool, s, baseFee))
    decreases |pool|
  {
    if pool != [] {
      var n := |pool| - 1;
      EligibleMembers(pool[..n], s, baseFee);
      assert pool == pool[..n] + [pool[n]];
      if DistinctIds(pool) {
        var q := EligibleOf(pool[..n], s, baseFee);
        forall i | 0 <= i < |q| ensures q[i].id != pool[n].id {
          assert q[i] in pool[..n];
          var j :| 0 <= j < n && pool[..n][j] == q[i];
        }
      }
    }
  }

  lemma QueueMembers(pool: seq<Tx>, s: Addr, baseFee: int)
    ensures forall tx :: tx in QueueOf(pool, s, baseFee) <==> tx in pool && tx.sender == s && Offers(tx, baseFee)
    ensures DistinctIds(pool) ==> DistinctIds(QueueOf(pool, s, baseFee))
  {
    EligibleMembers(pool, s, baseFee);
    ByNonceSorts(EligibleOf(pool, s, baseFee));
  }

  lemma {:induction false} EligibleIsWhole(pool: seq<Tx>, s: Addr, baseFee: int)
    requires forall i | 0 <= i < |pool| :: Offers(pool[i], baseFee)
    ensures EligibleOf(pool, s, baseFee) == Of(pool, s)
    decreases |pool|
  {
    if pool != [] { EligibleIsWhole(pool[..|pool| - 1], s, baseFee); }
  }

  /** When every transaction of a pool in nonce order offers the base fee, a queue is all that
      its sender has there, in the same order. */
  lemma QueueIsWhole(pool: seq<Tx>, s: Addr, baseFee: int, next: map<Addr, int>)
    requires Validation.NoncesInOrder(pool, next) && forall i | 0 <= i < |pool| :: Offers(pool[i], baseFee)
    ensures QueueOf(pool, s, baseFee) == Of(pool, s)
  {
    EligibleIsWhole(pool, s, baseFee);
    InOrderIff(pool, next);
    assert NoncesFrom(Of(pool, s), Get(next, s));
    ByNonceStays(Of(pool, s));
  }

  /** From each sender's queue the head was taken. */
  ghost predicate HeadsTaken(pool: seq<Tx>, baseFee: int, txs: seq<Tx>) {
    forall s :: Of(txs, s) <= QueueOf(pool, s, baseFee)
  }

  /** The choice made so far: transactions of the senders looked at, within both limits. */
  predicate Chosen(pool: seq<Tx>, baseFee: int, senders: set<Addr>, txs: seq<Tx>) {
    && DistinctIds(txs) && |txs| <= MAX_TX_PER_BLOCK && TotalWeight(txs) <= MAX_BLOCK_WEIGHT
    && forall i | 0 <= i < |txs| :: txs[i] in pool && txs[i].sender in senders && Offers(txs[i], baseFee)
  }

  lemma HeadTaken(pool: seq<Tx>, baseFee: int, before: seq<Tx>, senders: set<Addr>, s: Addr, n: nat)
    requires Chosen(pool, baseFee, senders, before) && HeadsTaken(pool, baseFee, before) && s !in senders
    requires n <= |QueueOf(pool, s, baseFee)|
    ensures HeadsTaken(pool, baseFee, before + QueueOf(pool, s, baseFee)[..n])
  {
    hide Of, QueueOf, Chosen;
    forall t ensures Of(before + QueueOf(pool, s, baseFee)[..n], t) <= QueueOf(pool, t, baseFee) {
      TakenOf(pool, baseFee, before, senders, s, n, t);
    }
  }

  lemma {:induction false} WeightAppend(txs: seq<Tx>, tx: Tx)
    ensures TotalWeight(txs + [tx]) == TotalWeight(txs) + Weight(tx.payload)
    decreases |txs|
  {
    if txs == [] {
      assert txs + [tx] == [tx] && [tx][1..] == [];
    } else {
      assert (txs + [tx])[1..] == txs[1..] + [tx];
      WeightAppend(txs[1..], tx);
    }
  }

  lemma ChosenSize(pool: seq<Tx>, baseFee: int, senders: set<Addr>, txs: seq<Tx>)
    requires Chosen(pool, baseFee, senders, txs)
    ensures |txs| <= MAX_TX_PER_BLOCK
  {}

  lemma ChosenStill(pool: seq<Tx>, baseFee: int, senders: set<Addr>, txs: seq<Tx>, s: Addr)
    requires Chosen(pool, baseFee, senders, txs)
    ensures Chosen(pool, baseFee, senders + {s}, txs)
  {}

  lemma ChosenMore(pool: seq<Tx>, baseFee: int, senders: set<Addr>, before: seq<Tx>, n: nat, s: Addr)
    requires DistinctIds(pool) && Chosen(pool, baseFee, senders, before) && s !in senders &&
             n < |QueueOf(pool, s, baseFee)|
    requires var queue := QueueOf(pool, s, baseFee); var txs := before + queue[..n];
             && Chosen(pool, baseFee, senders + {s}, txs)
             && |txs| < MAX_TX_PER_BLOCK && TotalWeight(txs) + Weight(queue[n].payload) <= MAX_BLOCK_WEIGHT
    ensures var queue := QueueOf(pool, s, baseFee); var txs := before + queue[..n];
            && before + queue[..n + 1] == txs + [queue[n]] &&
               TotalWeight(txs + [queue[n]]) == TotalWeight(txs) + Weight(queue[n].payload)
            && Chosen(pool, baseFee, senders + {s}, txs + [queue[n]])
  {
    hide TotalWeight, Weight, QueueOf;
    var queue := QueueOf(pool, s, baseFee);
    var txs := before + queue[..n];
    QueueMembers(pool, s, baseFee);
    FreshChoice(pool, baseFee, senders, before, queue, n, s);
    WeightAppend(txs, queue[n]);
    assert queue[n] in queue;
    assert before + queue[..n + 1] == txs + [queue[n]];
  }

  lemma FreshChoice(pool: seq<Tx>, baseFee: int, senders: set<Addr>, before: seq<Tx>, queue: seq<Tx>, n: nat, s: Addr)
    requires DistinctIds(pool) && Chosen(pool, baseFee, senders, before) && s !in senders
    requires n < |queue| && DistinctIds(queue) && forall tx <- queue :: tx in pool && tx.sender == s
    ensures forall i | 0 <= i < |before + queue[..n]| :: (before + queue[..n])[i].id != queue[n].id
  {
    forall i | 0 <= i < |before| ensures before[i].id != queue[n].id {
      assert queue[n] in queue;
      if before[i].id == queue[n].id { SameId(pool, before[i], queue[n]); }
    }
  }

  /** The queue of one sender, up to the first transaction that does not fit. */
  method TakeQueue(pool: seq<Tx>, baseFee: int, ghost senders: set<Addr>, before: seq<Tx>, weight: int, s: Addr)
    returns (txs: seq<Tx>, total: int, n: nat)
    requires DistinctIds(pool) && Chosen(pool, baseFee, senders, before) && weight == TotalWeight(before) &&
             s !in senders
    ensures Chosen(pool, baseFee, senders + {s}, txs) && total == TotalWeight(txs)
    ensures n <= |QueueOf(pool, s, baseFee)| && txs == before + QueueOf(pool, s, baseFee)[..n]
    ensures n < |QueueOf(pool, s, baseFee)| ==>
              |txs| == MAX_TX_PER_BLOCK || total + Weight(QueueOf(pool, s, baseFee)[n].payload) > MAX_BLOCK_WEIGHT
  {
    hide Chosen, TotalWeight, Weight, DistinctIds, QueueOf;
    var queue := QueueOf(pool, s, baseFee);
    txs, total, n := before, weight, 0;
    ChosenStill(pool, baseFee, senders, before, s);
    assert before + queue[..0] == before;
    while n < |queue|
      invariant n <= |queue| && txs == before + queue[..n] && total == TotalWeight(txs)
      invariant Chosen(pool, baseFee, senders + {s}, txs)
    {
      var tx := queue[n];
      if |txs| >= MAX_TX_PER_BLOCK {
        ChosenSize(pool, baseFee, senders + {s}, txs);
        return;
      }
      if total + Weight(tx.payload) > MAX_BLOCK_WEIGHT { return; }
      ChosenMore(pool, baseFee, senders, before, n, s);
      txs := txs + [tx];
      total := total + Weight(tx.payload);
      n := n + 1;
    }
  }

  /** A queue is left only when the block holds as many transactions as it may, or the next one of
      the queue does not fit its weight. */
  ghost predicate LeftFull(pool: seq<Tx>, baseFee: int, txs: seq<Tx>, s: Addr) {
    var queue, n := QueueOf(pool, s, baseFee), |Of(txs, s)|;
    n < |queue| ==>
      |txs| == MAX_TX_PER_BLOCK || TotalWeight(txs) + Weight(queue[n].payload) > MAX_BLOCK_WEIGHT
  }

  lemma {:induction false} WeightGrows(a: seq<Tx>, b: seq<Tx>)
    ensures TotalWeight(a + b) >= TotalWeight(a)
    decreases |b|
  {
    if b == [] {
      assert a + b == a;
    } else {
      var n := |b| - 1;
      assert a + b == (a + b[..n]) + [b[n]];
      WeightAppend(a + b[..n], b[n]);
      WeightGrows(a, b[..n]);
    }
  }

  lemma TakenOf(pool: seq<Tx>, baseFee: int, before: seq<Tx>, senders: set<Addr>, s: Addr, n: nat, t: Addr)
    requires Chosen(pool, baseFee, senders, before) && s !in senders && n <= |QueueOf(pool, s, baseFee)|
    ensures var queue := QueueOf(pool, s, baseFee);
            Of(before + queue[..n], t) == if t == s then queue[..n] else Of(before, t)
  {
    hide Of, QueueOf;
    var taken := QueueOf(pool, s, baseFee)[..n];
    QueueMembers(pool, s, baseFee);
    forall i | 0 <= i < n ensures taken[i].sender == s { assert taken[i] in QueueOf(pool, s, baseFee); }
    OfAppend(before, taken, t);
    OfSame(taken, s, t);
    if t == s {
      OfNone(before, s);
      assert [] + taken == taken;
    } else {
      assert Of(before, t) + [] == Of(before, t);
    }
  }

  /** Taking from one more queue leaves the earlier ones as full as they were. */
  lemma StaysFull(pool: seq<Tx>, baseFee: int, before: seq<Tx>, senders: set<Addr>, s: Addr, n: nat)
    requires Chosen(pool, baseFee, senders, before) && s !in senders && n <= |QueueOf(pool, s, baseFee)|
    requires var queue := QueueOf(pool, s, baseFee); var txs := before + queue[..n];
             && |txs| <= MAX_TX_PER_BLOCK
             && (n < |queue| ==>
                  |txs| == MAX_TX_PER_BLOCK || TotalWeight(txs) + Weight(queue[n].payload) > MAX_BLOCK_WEIGHT)
    requires forall t <- senders :: LeftFull(pool, baseFee, before, t)
    ensures forall t <- senders + {s} :: LeftFull(pool, baseFee, before + QueueOf(pool, s, baseFee)[..n], t)
  {
    hide Of, QueueOf, TotalWeight, Weight, Chosen;
    var taken := QueueOf(pool, s, baseFee)[..n];
    WeightGrows(before, taken);
    forall t | t in senders + {s} ensures LeftFull(pool, baseFee, before + taken, t) {
      TakenOf(pool, baseFee, before, senders, s, n, t);
      if t != s { assert LeftFull(pool, baseFee, before, t); }
    }
  }

  /** The transactions of a block, from the senders in the order of their priority. They are
      distinct members of the pool that offer the base fee and keep both limits, so that a block
      of them can be mined from a solvent pool, and the head of each sender's queue. Nothing that
      fits is left out: a queue is broken off only by one of the limits. */
  method SelectTxs(pool: seq<Tx>, baseFee: int, order: seq<Addr>) returns (txs: seq<Tx>)
    requires DistinctIds(pool) && DistinctSenders(order)
    ensures Drawn(pool, txs) && |txs| <= MAX_TX_PER_BLOCK && TotalWeight(txs) <= MAX_BLOCK_WEIGHT
    ensures forall i | 0 <= i < |txs| :: Offers(txs[i], baseFee) && txs[i].sender in order
    ensures HeadsTaken(pool, baseFee, txs)
    ensures forall s <- order :: LeftFull(pool, baseFee, txs, s)
  {
    hide Chosen, HeadsTaken, TotalWeight, Offers, QueueOf, Drawn, DistinctIds, LeftFull;
    txs := [];
    var total := 0;
    ghost var senders: set<Addr> := {};
    NothingChosen(pool, baseFee);
    for k := 0 to |order|
      invariant Chosen(pool, baseFee, senders, txs) && total == TotalWeight(txs) && HeadsTaken(pool, baseFee, txs)
      invariant forall s :: s in senders <==> s in order[..k]
      invariant forall s <- senders :: LeftFull(pool, baseFee, txs, s)
    {
      ghost var before := txs;
      var taken;
      NotYet(order, k);
      txs, total, taken := TakeQueue(pool, baseFee, senders, txs, total, order[k]);
      HeadTaken(pool, baseFee, before, senders, order[k], taken);
      ChosenSize(pool, baseFee, senders + {order[k]}, txs);
      StaysFull(pool, baseFee, before, senders, order[k], taken);
      senders := senders + {order[k]};
    }
    assert order[..|order|] == order;
    ChosenIsDrawn(pool, baseFee, senders, order, txs);
  }

  lemma NothingChosen(pool: seq<Tx>, baseFee: int)
    ensures Chosen(pool, baseFee, {}, []) && HeadsTaken(pool, baseFee, []) && TotalWeight([]) == 0
  {}

  lemma NotYet(order: seq<Addr>, k: nat)
    requires DistinctSenders(order) && k < |order|
    ensures order[k] !in order[..k] && order[..k + 1] == order[..k] + [order[k]]
  {}

  lemma ChosenIsDrawn(pool: seq<Tx>, baseFee: int, senders: set<Addr>, order: seq<Addr>, txs: seq<Tx>)
    requires Chosen(pool, baseFee, senders, txs) && forall s <- senders :: s in order
    ensures Drawn(pool, txs) && |txs| <= MAX_TX_PER_BLOCK && TotalWeight(txs) <= MAX_BLOCK_WEIGHT
    ensures forall i | 0 <= i < |txs| :: Offers(txs[i], baseFee) && txs[i].sender in order
  {}

  /** The choice under the legacy model: the head of the pool, as much as a block may hold. */
  method SelectLegacy(pool: seq<Tx>, ghost next: map<Addr, int>) returns (txs: seq<Tx>)
    requires DistinctIds(pool) && Validation.NoncesInOrder(pool, next)
    ensures Drawn(pool, txs) && |txs| == Min(|pool|, MAX_TX_PER_BLOCK) && Validation.NoncesInOrder(txs, next)
  {
    txs := pool[..Min(|pool|, MAX_TX_PER_BLOCK)];
    PrefixInOrder(pool, |txs|, next);
  }

  /** What was left out of a block: a transaction of the pool that offers the base fee for its weight, whose sender
      was looked at, is missing only if the block is full or one of its sender that comes no later,
      and is missing too, would make it too heavy. */
  lemma LeftOut(pool: seq<Tx>, baseFee: int, txs: seq<Tx>, tx: Tx)
    requires DistinctIds(pool) && tx in pool && tx !in txs
    requires tx.maxFee * Weight(tx.payload) >= baseFee * Weight(tx.payload)
    requires HeadsTaken(pool, baseFee, txs) && LeftFull(pool, baseFee, txs, tx.sender)
    ensures |txs| == MAX_TX_PER_BLOCK ||
            exists other :: && other in pool && other !in txs && other.sender == tx.sender
                            && other.nonce <= tx.nonce && TotalWeight(txs) + Weight(other.payload) > MAX_BLOCK_WEIGHT
  {
    hide TotalWeight, Weight, QueueOf, Ascending, DistinctIds, Of, EligibleOf, ByNonce;
    var s := tx.sender;
    Validation.OffersIff(tx.maxFee, baseFee, Weight(tx.payload));
    var queue, n := QueueOf(pool, s, baseFee), |Of(txs, s)|;
    QueueMembers(pool, s, baseFee);
    ByNonceSorts(EligibleOf(pool, s, baseFee));
    QueueIs(pool, s, baseFee);
    assert Of(txs, s) <= queue;
    FirstMissing(txs, queue, s, tx);
    assert queue[n] in queue;
  }

  /** The first of a sorted queue that is missing, when its head was taken. */
  lemma FirstMissing(txs: seq<Tx>, queue: seq<Tx>, s: Addr, tx: Tx)
    requires Ascending(queue) && DistinctIds(queue) && Of(txs, s) <= queue && tx in queue && tx !in txs
    requires forall x <- queue :: x.sender == s
    ensures var n := |Of(txs, s)|; n < |queue| && queue[n] !in txs && queue[n].nonce <= tx.nonce
  {
    var n := |Of(txs, s)|;
    forall i | 0 <= i < |queue| ensures queue[i] in txs <==> i < n {
      assert queue[i] in queue;
      OfMember(txs, s, queue[i]);
      HeadOnly(Of(txs, s), queue, i);
    }
    var j :| 0 <= j < |queue| && queue[j] == tx;
  }

  lemma HeadOnly(head: seq<Tx>, queue: seq<Tx>, i: nat)
    requires head <= queue && DistinctIds(queue) && i < |queue|
    ensures queue[i] in head <==> i < |head|
  {
    if i < |head| { assert head[i] == queue[i]; }
  }

  lemma QueueIs(pool: seq<Tx>, s: Addr, baseFee: int)
    ensures QueueOf(pool, s, baseFee) == ByNonce(EligibleOf(pool, s, baseFee))
  {}

  /** When every transaction of a pool in nonce order offers the base fee, the choice takes the
      head of what each sender has there. */
  lemma ChoiceTakesHeads(pool: seq<Tx>, baseFee: int, txs: seq<Tx>, next: map<Addr, int>)
    requires Validation.NoncesInOrder(pool, next)
    requires HeadsTaken(pool, baseFee, txs) && forall i | 0 <= i < |pool| :: Offers(pool[i], baseFee)
    ensures TakesHeads(pool, txs)
  {
    forall s ensures Of(txs, s) <= Of(pool, s) { QueueIsWhole(pool, s, baseFee, next); }
  }

  /** The validator's own transactions make up at most a quarter of the weight. */
  predicate SelfWithin(b: Block) {
    Validation.SelfWeight(b.txs, b.validator) * 100 <= TotalWeight(b.txs) * MAX_SELF_TX_WEIGHT_RATIO ||
      TotalWeight(b.txs) == 0
  }

  /** The block produced from a pool in nonce order passes the checks of its body exactly when
      its self-weight ratio holds, which the choice does not look at, and no sender's later
      transaction was chosen without an earlier one. */
  lemma ProducedBody(pool: seq<Tx>, b: Block, parent: Block, activation: int, next: map<Addr, int>, chainIds: set<TxId>,
                     signed: Tx -> bool)
    requires b.index > 0 && b.index >= activation && b.baseFee == ExpectedBaseFee(activation, parent)
    requires Validation.NoncesInOrder(pool, next)
    requires forall i | 0 <= i < |pool| :: signed(pool[i]) && ValidPayload(pool[i]) && pool[i].id !in chainIds
    requires Drawn(pool, b.txs) && |b.txs| <= MAX_TX_PER_BLOCK && TotalWeight(b.txs) <= MAX_BLOCK_WEIGHT
    requires forall i | 0 <= i < |b.txs| :: Offers(b.txs[i], b.baseFee)
    ensures Validation.BodyOk(b, parent, activation, next, chainIds, signed) <==>
            TakesHeads(pool, b.txs) && SelfWithin(b)
  {
    HeadsInOrder(pool, b.txs, next);
    forall i | 0 <= i < |b.txs| ensures Validation.TxOk(b.txs[i], signed, true, b.baseFee, chainIds) {
      assert b.txs[i] in pool;
      assert Offers(b.txs[i], b.baseFee);
    }
  }
}
