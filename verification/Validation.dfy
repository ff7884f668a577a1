/** The checks `validate_block` makes on the body of a block, and what they give for nonces:
    qbit_network/core/consensus.py. */
module Validation {
  import opened Maps
  import opened Types
  import opened Fees

  // ---- Nonces on a chain ----

  /** The nonce expected next from s, after a sequence of its transactions. */
  function NextAfter(next: int, txs: seq<Tx>, s: Addr): int
    decreases |txs|
  {
    if txs == [] then next
    else NextAfter(if txs[0].sender == s then Max(next, txs[0].nonce + 1) else next, txs[1..], s)
  }

  /** All the transactions of a chain after its genesis block, whose own do not count. */
  function UserTxs(chain: seq<Block>): seq<Tx> {
    if |chain| <= 1 then [] else UserTxs(chain[..|chain| - 1]) + chain[|chain| - 1].txs
  }

  /** The maximum found by scanning the chain, plus one. */
  function ScanNext(chain: seq<Block>, s: Addr): int { NextAfter(0, UserTxs(chain), s) }

  /** The table of expected nonces, without zeros, after some transactions. */
  function Bump(next: map<Addr, int>, txs: seq<Tx>): map<Addr, int>
    decreases |txs|
  {
    if txs == [] then next
    else Bump(Put(next, txs[0].sender, Max(Get(next, txs[0].sender), txs[0].nonce + 1)), txs[1..])
  }

  lemma {:induction false} BumpGets(next: map<Addr, int>, txs: seq<Tx>, s: Addr)
    ensures Get(Bump(next, txs), s) == NextAfter(Get(next, s), txs, s)
    ensures Canonical(next) ==> Canonical(Bump(next, txs))
    decreases |txs|
  {
    if txs != [] {
      var v := Max(Get(next, txs[0].sender), txs[0].nonce + 1);
      PutGets(next, txs[0].sender, v, s);
      BumpGets(Put(next, txs[0].sender, v), txs[1..], s);
    }
  }

  lemma {:induction false} NextAfterAppend(next: int, a: seq<Tx>, b: seq<Tx>, s: Addr)
    ensures NextAfter(next, a + b, s) == NextAfter(NextAfter(next, a, s), b, s)
    decreases |a|
  {
    if a == [] {
      assert a + b == b;
    } else {
      assert (a + b)[1..] == a[1..] + b;
      NextAfterAppend(if a[0].sender == s then Max(next, a[0].nonce + 1) else next, a[1..], b, s);
    }
  }

  lemma UserTxsAppend(chain: seq<Block>, b: Block)
    requires chain != []
    ensures UserTxs(chain + [b]) == UserTxs(chain) + b.txs
  {
    assert (chain + [b])[..|chain|] == chain;
  }

  // ---- The checks ----

  datatype Error = BadBaseFee | TooHeavy | TooManySelfTxs | TooManyTxs | Empty | BadTx | DuplicateInBlock
                 | AlreadyInChain | FeeTooLow | NonceGap | NonceMismatch

  function CountBefore(txs: seq<Tx>, i: nat, s: Addr): nat
    requires i <= |txs|
  {
    if i == 0 then 0 else CountBefore(txs, i - 1, s) + if txs[i - 1].sender == s then 1 else 0
  }

  /** Checks of a single transaction; `signed` stands for its signature, chain id and key status. */
  predicate TxOk(tx: Tx, signed: Tx -> bool, dynamic: bool, baseFee: int, chainIds: set<TxId>) {
    && signed(tx) && ValidPayload(tx) && tx.id !in chainIds
    && (dynamic && Weight(tx.payload) > 0 ==> tx.maxFee >= baseFee)
  }

  /** Each transaction carries exactly the nonce its sender has to use next. */
  predicate NoncesInOrder(txs: seq<Tx>, next: map<Addr, int>) {
    forall i | 0 <= i < |txs| :: txs[i].nonce == Get(next, txs[i].sender) + CountBefore(txs, i, txs[i].sender)
  }

  function SelfWeight(txs: seq<Tx>, v: Addr): nat {
    if txs == [] then 0 else (if txs[0].sender == v then Weight(txs[0].payload) else 0) + SelfWeight(txs[1..], v)
  }

  predicate WeightsOk(b: Block) {
    && TotalWeight(b.txs) <= MAX_BLOCK_WEIGHT
    && !(TotalWeight(b.txs) > 0 && SelfWeight(b.txs, b.validator) * 100 > TotalWeight(b.txs) * MAX_SELF_TX_WEIGHT_RATIO)
  }

  /** What an accepted body looks like. */
  predicate BodyOk(b: Block, parent: Block, activation: int, next: map<Addr, int>, chainIds: set<TxId>,
                   signed: Tx -> bool) {
    var dynamic := b.index >= activation && b.index > 0;
    && (dynamic ==> b.baseFee == ExpectedBaseFee(activation, parent) && WeightsOk(b))
    && |b.txs| <= MAX_TX_PER_BLOCK && (b.txs == [] ==> dynamic)
    && (forall i | 0 <= i < |b.txs| :: TxOk(b.txs[i], signed, dynamic, b.baseFee, chainIds))
    && DistinctIds(b.txs) && NoncesInOrder(b.txs, next)
  }

  /** The validator's own transactions and the others make up the weight of a block. */
  lemma {:induction false} WeightsSplit(txs: seq<Tx>, v: Addr)
    ensures SelfWeight(txs, v) + EffectiveWeight(txs, v) == TotalWeight(txs)
    decreases |txs|
  {
    if txs != [] { WeightsSplit(txs[1..], v); }
  }

  lemma OffersIff(maxFee: int, baseFee: int, w: nat)
    ensures (w > 0 ==> maxFee >= baseFee) <==> maxFee * w >= baseFee * w
  {
    MulMono(baseFee, maxFee, w);
    MulMono(maxFee + 1, baseFee, w);
    assert (maxFee + 1) * w == maxFee * w + w;
  }

  /** What an accepted body looks like, spelled out: every transaction is signed, well formed, new
      on the chain and in the block, and in the turn of its sender; there are at most 200. Under the
      dynamic model each offers the base fee for its weight, the block carries the derived base
      fee, is within the weight limit, and gets at least three quarters of its weight from others
      than its validator; under the legacy model it is not empty. */
  lemma BodyOkIff(b: Block, parent: Block, activation: int, next: map<Addr, int>, chainIds: set<TxId>,
                  signed: Tx -> bool)
    ensures BodyOk(b, parent, activation, next, chainIds, signed) <==>
              && (forall i | 0 <= i < |b.txs| ::
                    signed(b.txs[i]) && ValidPayload(b.txs[i]) && b.txs[i].id !in chainIds)
              && |b.txs| <= 200 && DistinctIds(b.txs) && NoncesInOrder(b.txs, next)
              && if b.index > 0 && b.index >= activation then
                   && (forall i | 0 <= i < |b.txs| ::
                         b.txs[i].maxFee * Weight(b.txs[i].payload) >= b.baseFee * Weight(b.txs[i].payload))
                   && b.baseFee == ExpectedBaseFee(activation, parent) && TotalWeight(b.txs) <= 20_000_000
                   && EffectiveWeight(b.txs, b.validator) * 4 >= TotalWeight(b.txs) * 3
                 else b.txs != []
  {
    hide NoncesInOrder, ExpectedBaseFee, ValidPayload, DistinctIds, Weight;
    WeightsSplit(b.txs, b.validator);
    var dynamic := b.index >= activation && b.index > 0;
    forall i | 0 <= i < |b.txs|
      ensures TxOk(b.txs[i], signed, dynamic, b.baseFee, chainIds) <==>
                && signed(b.txs[i]) && ValidPayload(b.txs[i]) && b.txs[i].id !in chainIds
                && (dynamic ==> b.txs[i].maxFee * Weight(b.txs[i].payload) >= b.baseFee * Weight(b.txs[i].payload))
    {
      OffersIff(b.txs[i].maxFee, b.baseFee, Weight(b.txs[i].payload));
    }
  }

  lemma {:induction false} WeighsAtLeast(txs: seq<Tx>, i: nat)
    requires i < |txs|
    ensures TotalWeight(txs) >= Weight(txs[i].payload)
    decreases |txs|
  {
    if i > 0 { WeighsAtLeast(txs[1..], i - 1); }
  }

  /** Under the dynamic model no accepted body holds an ISSUE_TOKEN or a REGISTER_VALIDATOR: each
      of them weighs more than a whole block may. */
  lemma NeverFits(b: Block, parent: Block, activation: int, next: map<Addr, int>, chainIds: set<TxId>,
                  signed: Tx -> bool, i: nat)
    requires b.index >= activation && b.index > 0 && i < |b.txs|
    requires BodyOk(b, parent, activation, next, chainIds, signed)
    ensures !b.txs[i].payload.IssueToken? && !b.txs[i].payload.RegisterValidator?
  {
    WeighsAtLeast(b.txs, i);
  }

  function LastNonce(nonces: map<Addr, int>, s: Addr): int { if s in nonces then nonces[s] else -1 }

  function LastOf(next: map<Addr, int>, s: Addr): int { if s in next then next[s] - 1 else 0 }

  /** The recorded nonces shifted by one: missing and -1 both read as 0 expected next. */
  function Expected(nonces: map<Addr, int>): (r: map<Addr, int>)
    ensures Canonical(r)
    ensures forall s :: Get(r, s) == LastNonce(nonces, s) + 1
  {
    map s | s in nonces && nonces[s] != -1 :: LastNonce(nonces, s) + 1
  }

  /** The tables of the nonce loop after i transactions: last and first nonce per sender. */
  function LastNonces(txs: seq<Tx>, i: nat): map<Addr, int>
    requires i <= |txs|
  {
    if i == 0 then map[] else LastNonces(txs, i - 1)[txs[i - 1].sender := txs[i - 1].nonce]
  }

  function FirstNonces(txs: seq<Tx>, i: nat): map<Addr, int>
    requires i <= |txs|
  {
    if i == 0 then map[] else
    var before := FirstNonces(txs, i - 1);
    if txs[i - 1].sender in before then before else before[txs[i - 1].sender := txs[i - 1].nonce]
  }

  predicate NoGap(txs: seq<Tx>, i: nat)
    requires i <= |txs|
  {
    i == 0 ||
    (NoGap(txs, i - 1) &&
     (txs[i - 1].sender in LastNonces(txs, i - 1) ==>
       txs[i - 1].nonce == LastNonces(txs, i - 1)[txs[i - 1].sender] + 1))
  }

  /** What those tables say of a gap-free prefix. */
  ghost predicate Recorded(txs: seq<Tx>, i: nat, last: map<Addr, int>, first: map<Addr, int>)
    requires i <= |txs|
  {
    && last.Keys == first.Keys
    && (forall s :: s in last <==> CountBefore(txs, i, s) > 0)
    && (forall s <- last :: last[s] == first[s] + CountBefore(txs, i, s) - 1)
    && (forall j | 0 <= j < i ::
          txs[j].sender in first && txs[j].nonce == first[txs[j].sender] + CountBefore(txs, j, txs[j].sender))
  }

  lemma {:induction false} NoGapRecorded(txs: seq<Tx>, i: nat)
    requires i <= |txs| && NoGap(txs, i)
    ensures Recorded(txs, i, LastNonces(txs, i), FirstNonces(txs, i))
    decreases i
  {
    if i > 0 {
      NoGapRecorded(txs, i - 1);
      RecordedStep(txs, i - 1, LastNonces(txs, i - 1), FirstNonces(txs, i - 1), LastNonces(txs, i),
        FirstNonces(txs, i));
    }
  }

  lemma {:induction false} FirstTx(txs: seq<Tx>, i: nat, s: Addr) returns (j: nat)
    requires i <= |txs| && CountBefore(txs, i, s) > 0
    ensures j < i && txs[j].sender == s && CountBefore(txs, j, s) == 0
    decreases i
  {
    if CountBefore(txs, i - 1, s) > 0 { j := FirstTx(txs, i - 1, s); } else { j := i - 1; }
  }

  lemma RecordedStep(txs: seq<Tx>, i: nat, last: map<Addr, int>, first: map<Addr, int>,
                     last': map<Addr, int>, first': map<Addr, int>)
    requires i < |txs| && Recorded(txs, i, last, first)
    requires txs[i].sender in last ==> txs[i].nonce == last[txs[i].sender] + 1
    requires last' == last[txs[i].sender := txs[i].nonce]
    requires first' == if txs[i].sender in first then first else first[txs[i].sender := txs[i].nonce]
    ensures Recorded(txs, i + 1, last', first')
  {}

  /** A gap within the block means that some nonce is not the expected one. */
  lemma GapIsOutOfOrder(txs: seq<Tx>, i: nat, next: map<Addr, int>)
    requires i < |txs| && NoGap(txs, i) && !NoGap(txs, i + 1)
    ensures !NoncesInOrder(txs, next)
  {
    NoGapRecorded(txs, i);
    var j := FirstTx(txs, i, txs[i].sender);
    assert txs[j].nonce == FirstNonces(txs, i)[txs[i].sender];
  }

  lemma StartsRight(txs: seq<Tx>, next: map<Addr, int>)
    requires NoGap(txs, |txs|)
    ensures var first := FirstNonces(txs, |txs|);
            NoncesInOrder(txs, next) <==> forall s <- first :: first[s] == Get(next, s)
  {
    NoGapRecorded(txs, |txs|);
    var first := FirstNonces(txs, |txs|);
    if NoncesInOrder(txs, next) {
      forall s | s in first ensures first[s] == Get(next, s) {
        var j := FirstTx(txs, |txs|, s);
      }
    }
  }

  /** The checks of one transaction that do not concern its nonce. */
  method ValidateTx(tx: Tx, seenIds: set<TxId>, dynamic: bool, baseFee: int, chainIds: set<TxId>, signed: Tx -> bool)
    returns (error: Option<Error>)
    ensures error.None? <==> TxOk(tx, signed, dynamic, baseFee, chainIds) && tx.id !in seenIds
  {
    if !signed(tx) { return Some(BadTx); }
    if tx.id in seenIds { return Some(DuplicateInBlock); }
    if tx.id in chainIds { return Some(AlreadyInChain); }
    if !ValidPayload(tx) { return Some(BadTx); }
    if dynamic && Weight(tx.payload) > 0 && tx.maxFee < baseFee { return Some(FeeTooLow); }
    error := None;
  }

  /** The transaction loop: it accepts exactly the bodies whose transactions are each in order. */
  method ValidateTxs(b: Block, dynamic: bool, nonces: map<Addr, int>, chainIds: set<TxId>, signed: Tx -> bool)
    returns (error: Option<Error>)
    ensures error.None? <==>
              && (forall i | 0 <= i < |b.txs| :: TxOk(b.txs[i], signed, dynamic, b.baseFee, chainIds))
              && DistinctIds(b.txs) && NoncesInOrder(b.txs, Expected(nonces))
  {
    hide TxOk, NoncesInOrder, ValidPayload;
    var seenIds: set<TxId> := {};
    var last: map<Addr, int>, first: map<Addr, int> := map[], map[];
    for i := 0 to |b.txs|
      invariant seenIds == set j | 0 <= j < i :: b.txs[j].id
      invariant forall j | 0 <= j < i :: TxOk(b.txs[j], signed, dynamic, b.baseFee, chainIds)
      invariant forall j, k | 0 <= j < k < i :: b.txs[j].id != b.txs[k].id
      invariant last == LastNonces(b.txs, i) && first == FirstNonces(b.txs, i) && NoGap(b.txs, i)
    {
      var tx := b.txs[i];
      error := ValidateTx(tx, seenIds, dynamic, b.baseFee, chainIds, signed);
      if error.Some? { return; }
      seenIds := seenIds + {tx.id};
      if tx.sender in last && tx.nonce != last[tx.sender] + 1 {
        GapIsOutOfOrder(b.txs, i, Expected(nonces));
        return Some(NonceGap);
      }
      if tx.sender !in first { first := first[tx.sender := tx.nonce]; }
      last := last[tx.sender := tx.nonce];
    }
    StartsRight(b.txs, Expected(nonces));
    var ok := StartsMatch(first, nonces);
    error := if ok then None else Some(NonceMismatch);
  }

  /** The check of each sender's first nonce against the chain. */
  method StartsMatch(first: map<Addr, int>, nonces: map<Addr, int>) returns (ok: bool)
    ensures ok <==> forall s <- first :: first[s] == Get(Expected(nonces), s)
  {
    var todo := first.Keys;
    while todo != {}
      invariant todo <= first.Keys
      invariant forall s <- first :: s in todo || first[s] == Get(Expected(nonces), s)
      decreases |todo|
    {
      var s :| s in todo;
      var expected := LastNonce(nonces, s) + 1;
      if first[s] != expected { return false; }
      todo := todo - {s};
    }
    ok := true;
  }

  method ValidateBody(b: Block, parent: Block, activation: int, nonces: map<Addr, int>, chainIds: set<TxId>,
                      signed: Tx -> bool)
    returns (error: Option<Error>)
    ensures error.None? <==> BodyOk(b, parent, activation, Expected(nonces), chainIds, signed)
  {
    var dynamic := b.index >= activation && b.index > 0;
    if dynamic {
      if b.baseFee != ExpectedBaseFee(activation, parent) { return Some(BadBaseFee); }
      var total := TotalWeight(b.txs);
      if total > MAX_BLOCK_WEIGHT { return Some(TooHeavy); }
      if total > 0 && SelfWeight(b.txs, b.validator) * 100 > total * MAX_SELF_TX_WEIGHT_RATIO {
        return Some(TooManySelfTxs);
      }
    }
    if |b.txs| > MAX_TX_PER_BLOCK { return Some(TooManyTxs); }
    if b.txs == [] && !dynamic { return Some(Empty); }
    error := ValidateTxs(b, dynamic, nonces, chainIds, signed);
  }

  // ---- Gap-free and replay-free chains ----

  function NoncesOf(txs: seq<Tx>, s: Addr): seq<int> {
    if txs == [] then [] else (if txs[0].sender == s then [txs[0].nonce] else []) + NoncesOf(txs[1..], s)
  }

  function Range(from: int, n: nat): seq<int> { seq(n, i => from + i) }

  lemma {:induction false} NoncesOfAppend(a: seq<Tx>, b: seq<Tx>, s: Addr)
    ensures NoncesOf(a + b, s) == NoncesOf(a, s) + NoncesOf(b, s)
    decreases |a|
  {
    if a == [] {
      assert a + b == b;
    } else {
      assert (a + b)[1..] == a[1..] + b && (a + b)[0] == a[0];
      NoncesOfAppend(a[1..], b, s);
      var head := if a[0].sender == s then [a[0].nonce] else [];
      assert NoncesOf(a + b, s) == head + (NoncesOf(a[1..], s) + NoncesOf(b, s));
    }
  }

  lemma {:induction false} NoncesOfPrefix(txs: seq<Tx>, i: nat, s: Addr, from: int)
    requires i <= |txs| && from >= 0
    requires forall j | 0 <= j < |txs| && txs[j].sender == s :: txs[j].nonce == from + CountBefore(txs, j, s)
    ensures NoncesOf(txs[..i], s) == Range(from, CountBefore(txs, i, s))
    ensures NextAfter(from, txs[..i], s) == from + CountBefore(txs, i, s)
    decreases i
  {
    if i > 0 {
      NoncesOfPrefix(txs, i - 1, s, from);
      assert txs[..i] == txs[..i - 1] + [txs[i - 1]];
      NoncesOfAppend(txs[..i - 1], [txs[i - 1]], s);
      NextAfterAppend(from, txs[..i - 1], [txs[i - 1]], s);
      assert [txs[i - 1]][1..] == [];
    }
  }

  function IdsOf(chain: seq<Block>): set<TxId> {
    set i, j | 0 <= i < |chain| && 0 <= j < |chain[i].txs| :: chain[i].txs[j].id
  }

  /** A chain every block of which after genesis was accepted by the checks against its prefix. */
  ghost predicate Accepted(chain: seq<Block>, activation: int, signed: Tx -> bool) {
    chain != [] &&
    (|chain| > 1 ==>
      var prefix, b := chain[..|chain| - 1], chain[|chain| - 1];
      && Accepted(prefix, activation, signed)
      && BodyOk(b, prefix[|prefix| - 1], activation, Bump(map[], UserTxs(prefix)), IdsOf(prefix), signed))
  }

  lemma RangeJoin(n: nat, c: nat)
    ensures Range(0, n) + Range(n, c) == Range(0, n + c)
  {}

  lemma BlockExtendsRange(before: seq<Tx>, txs: seq<Tx>, next: map<Addr, int>, s: Addr)
    requires NoncesInOrder(txs, next) && Get(next, s) == NextAfter(0, before, s) == |NoncesOf(before, s)|
    requires NoncesOf(before, s) == Range(0, |NoncesOf(before, s)|)
    ensures NoncesOf(before + txs, s) == Range(0, |NoncesOf(before + txs, s)|)
    ensures NextAfter(0, before + txs, s) == |NoncesOf(before + txs, s)|
  {
    var n, c := |NoncesOf(before, s)|, CountBefore(txs, |txs|, s);
    NoncesOfAppend(before, txs, s);
    NextAfterAppend(0, before, txs, s);
    NoncesOfPrefix(txs, |txs|, s, n);
    assert txs[..|txs|] == txs;
    RangeJoin(n, c);
  }

  /** Nonces are gap free: on an accepted chain the nonces of each sender after genesis are
      0, 1, 2, ... in order, and the next one expected is their number. */
  lemma {:induction false} NoncesGapFree(chain: seq<Block>, activation: int, signed: Tx -> bool, s: Addr)
    requires Accepted(chain, activation, signed)
    ensures NoncesOf(UserTxs(chain), s) == Range(0, |NoncesOf(UserTxs(chain), s)|)
    ensures ScanNext(chain, s) == |NoncesOf(UserTxs(chain), s)|
    decreases |chain|
  {
    if |chain| > 1 {
      var prefix, txs := chain[..|chain| - 1], chain[|chain| - 1].txs;
      NoncesGapFree(prefix, activation, signed, s);
      BumpGets(map[], UserTxs(prefix), s);
      BlockExtendsRange(UserTxs(prefix), txs, Bump(map[], UserTxs(prefix)), s);
    }
  }

  /** No transaction is replayed: two positions of an accepted chain never hold the same id,
      the genesis block aside. */
  lemma {:induction false} NoReplay(chain: seq<Block>, activation: int, signed: Tx -> bool, i: nat, j: nat, k: nat,
                                    l: nat)
    requires Accepted(chain, activation, signed)
    requires i <= k < |chain| && k > 0 && j < |chain[i].txs| && l < |chain[k].txs| && (i == k ==> j < l)
    ensures chain[i].txs[j].id != chain[k].txs[l].id
    decreases |chain|
  {
    var prefix := chain[..|chain| - 1];
    if k < |chain| - 1 {
      NoReplay(prefix, activation, signed, i, j, k, l);
    } else {
      assert TxOk(chain[k].txs[l], signed, chain[k].index >= activation &&
        chain[k].index > 0, chain[k].baseFee, IdsOf(prefix));
      if i < k { assert prefix[i].txs[j].id in IdsOf(prefix); }
    }
  }

  /** Every transaction of an accepted chain after genesis is signed and well formed. */
  lemma {:induction false} AllSigned(chain: seq<Block>, activation: int, signed: Tx -> bool)
    requires Accepted(chain, activation, signed)
    ensures forall tx <- UserTxs(chain) :: signed(tx) && ValidPayload(tx)
    decreases |chain|
  {
    hide BodyOk, IdsOf;
    if |chain| > 1 {
      var prefix, b := chain[..|chain| - 1], chain[|chain| - 1];
      AllSigned(prefix, activation, signed);
      BodyOkIff(b, prefix[|prefix| - 1], activation, Bump(map[], UserTxs(prefix)), IdsOf(prefix), signed);
      assert chain == prefix + [b];
      UserTxsAppend(prefix, b);
    }
  }

  /** An accepted chain with consecutive heights passes the fee checks, so that its base fees are
      bounded and move slowly. */
  lemma {:induction false} AcceptedFeeChecked(chain: seq<Block>, activation: int, signed: Tx -> bool)
    requires Accepted(chain, activation, signed) && forall i | 0 <= i < |chain| :: chain[i].index == i
    ensures FeeChecked(activation, chain)
    decreases |chain|
  {
    hide BodyOk, IdsOf, UserTxs, Bump, FeeChecked;
    if |chain| > 1 {
      var prefix, b := chain[..|chain| - 1], chain[|chain| - 1];
      AcceptedFeeChecked(prefix, activation, signed);
      BodyOkIff(b, prefix[|prefix| - 1], activation, Bump(map[], UserTxs(prefix)), IdsOf(prefix), signed);
      FeeCheckedMore(activation, chain);
    } else {
      OneFeeChecked(activation, chain);
    }
  }

  lemma OneFeeChecked(activation: int, chain: seq<Block>)
    requires |chain| == 1
    ensures FeeChecked(activation, chain)
  {}

  lemma FeeCheckedMore(activation: int, chain: seq<Block>)
    requires |chain| > 1 && FeeChecked(activation, chain[..|chain| - 1])
    requires var parent, b := chain[|chain| - 2], chain[|chain| - 1];
             && b.index == parent.index + 1
             && (b.index >= activation ==>
                  b.baseFee == ExpectedBaseFee(activation, parent) && TotalWeight(b.txs) <= MAX_BLOCK_WEIGHT)
    ensures FeeChecked(activation, chain)
  {
    hide ExpectedBaseFee;
    var prefix := chain[..|chain| - 1];
    forall i | 0 < i < |chain|
      ensures chain[i].index == chain[i - 1].index + 1
      ensures chain[i].index >= activation ==>
                chain[i].baseFee == ExpectedBaseFee(activation, chain[i - 1]) &&
                  TotalWeight(chain[i].txs) <= MAX_BLOCK_WEIGHT
    {
      if i < |prefix| { assert prefix[i] == chain[i] && prefix[i - 1] == chain[i - 1]; }
    }
  }
}
