/** The notarization index: its part of block processing and of its reversal. */
module NotaryLedger {
  import opened Maps
  import opened Types

  /** document hash -> first notarization, document hash -> all of them in order (no empty
      list), sender -> number of notarizations */
  datatype Notary = Notary(first: map<DocHash, TxId>, byHash: map<DocHash, seq<TxId>>, count: map<Addr, int>)

  function ListOf(n: Notary, d: DocHash): seq<TxId> {
    if d in n.byHash then n.byHash[d] else []
  }

  function PutList(m: map<DocHash, seq<TxId>>, d: DocHash, ids: seq<TxId>): map<DocHash, seq<TxId>> {
    if ids == [] then m - {d} else m[d := ids]
  }

  /** `list.remove`: the first occurrence, if there is one. */
  function RemoveFirst(ids: seq<TxId>, id: TxId): seq<TxId> {
    if ids == [] then [] else if ids[0] == id then ids[1..] else [ids[0]] + RemoveFirst(ids[1..], id)
  }

  function NotaryTx(n: Notary, tx: Tx): Notary {
    if !tx.payload.Notarize? then n else
    var d := tx.payload.documentHash;
    var counted := n.(count := Add(n.count, tx.sender, 1));
    if d == "" then counted else
    counted.(first := if d in n.first then n.first else n.first[d := tx.id],
             byHash := PutList(n.byHash, d, ListOf(n, d) + [tx.id]))
  }

  function NotaryTxs(n: Notary, txs: seq<Tx>): Notary
    decreases |txs|
  {
    if txs == [] then n else NotaryTxs(NotaryTx(n, txs[0]), txs[1..])
  }

  function UndoNotaryTx(n: Notary, tx: Tx): Notary {
    if !tx.payload.Notarize? then n else
    var d := tx.payload.documentHash;
    var counted := n.(count := Put(n.count, tx.sender,
      Max(0, (if tx.sender in n.count then n.count[tx.sender] else 1) - 1)));
    if d == "" then counted else
    var kept := if d in n.first && n.first[d] == tx.id then n.first - {d} else n.first;
    var ids := RemoveFirst(ListOf(n, d), tx.id);
    counted.(first := if d !in kept && ids != [] then kept[d := ids[0]] else kept, byHash := PutList(n.byHash, d, ids))
  }

  function UndoNotaryTxs(n: Notary, txs: seq<Tx>): Notary
    decreases |txs|
  {
    if txs == [] then n else UndoNotaryTxs(UndoNotaryTx(n, txs[0]), txs[1..])
  }

  /** The first notarization is the head of the list, and there is one exactly for the hashes
      that have a list. */
  predicate NotaryOk(n: Notary) {
    && n.first.Keys == n.byHash.Keys && Positive(n.count)
    && forall d <- n.byHash :: n.byHash[d] != [] && n.first[d] == n.byHash[d][0]
  }

  lemma NotaryTxOk(n: Notary, tx: Tx)
    requires NotaryOk(n)
    ensures NotaryOk(NotaryTx(n, tx))
  {}

  lemma UndoNotaryTxOk(n: Notary, tx: Tx)
    requires NotaryOk(n)
    ensures NotaryOk(UndoNotaryTx(n, tx))
  {}

  function IdsFor(txs: seq<Tx>, d: DocHash): seq<TxId> {
    if txs == [] then [] else (if Records(txs[0], d) then [txs[0].id] else []) + IdsFor(txs[1..], d)
  }

  predicate Records(tx: Tx, d: DocHash) { tx.payload.Notarize? && tx.payload.documentHash == d && d != "" }

  function Counts(tx: Tx, s: Addr): int { if tx.payload.Notarize? && tx.sender == s then 1 else 0 }

  function NotarizedBy(txs: seq<Tx>, s: Addr): nat {
    if txs == [] then 0 else Counts(txs[0], s) + NotarizedBy(txs[1..], s)
  }

  lemma NotaryTxGets(n: Notary, tx: Tx, d: DocHash, s: Addr)
    requires NotaryOk(n)
    ensures var m := NotaryTx(n, tx);
            && NotaryOk(m) && ListOf(m, d) == ListOf(n, d) + (if Records(tx, d) then [tx.id] else [])
            && Get(m.count, s) == Get(n.count, s) + Counts(tx, s)
  {
    NotaryTxOk(n, tx);
    hide NotaryOk;
    PutGets(n.count, tx.sender, Get(n.count, tx.sender) + 1, s);
  }

  lemma UndoNotaryTxGets(n: Notary, tx: Tx, d: DocHash, s: Addr)
    requires NotaryOk(n)
    ensures var m := UndoNotaryTx(n, tx);
            && NotaryOk(m) && ListOf(m, d)
               == (if Records(tx, d) then RemoveFirst(ListOf(n, d), tx.id) else ListOf(n, d))
            && Get(m.count, s) == Max(0, Get(n.count, s) - Counts(tx, s))
  {
    UndoNotaryTxOk(n, tx);
    hide NotaryOk;
    PutGets(n.count, tx.sender, Max(0, (if tx.sender in n.count then n.count[tx.sender] else 1) - 1), s);
  }

  /** The index is a projection of the processed transactions. */
  lemma {:induction false} NotaryTxsGets(n: Notary, txs: seq<Tx>, d: DocHash, s: Addr)
    requires NotaryOk(n)
    ensures var m := NotaryTxs(n, txs);
            && NotaryOk(m) && ListOf(m, d) == ListOf(n, d) + IdsFor(txs, d)
            && Get(m.count, s) == Get(n.count, s) + NotarizedBy(txs, s)
    decreases |txs|
  {
    if txs != [] {
      NotaryTxGets(n, txs[0], d, s);
      NotaryTxsGets(NotaryTx(n, txs[0]), txs[1..], d, s);
    }
  }

  lemma RemoveFirstStep(x: TxId, rest: seq<TxId>, id: TxId)
    ensures RemoveFirst([x] + rest, id) == if x == id then rest else [x] + RemoveFirst(rest, id)
  {
    assert ([x] + rest)[1..] == rest;
  }

  lemma {:induction false} RemoveFirstMiddle(a: seq<TxId>, id: TxId, b: seq<TxId>)
    requires id !in a
    ensures RemoveFirst(a + [id] + b, id) == a + b
    decreases |a|
  {
    hide RemoveFirst;
    if a == [] {
      RemoveFirstStep(id, b, id);
      assert a + [id] + b == [id] + b && a + b == b;
    } else {
      assert a + [id] + b == [a[0]] + (a[1..] + [id] + b);
      RemoveFirstStep(a[0], a[1..] + [id] + b, id);
      RemoveFirstMiddle(a[1..], id, b);
      assert [a[0]] + (a[1..] + b) == a + b;
    }
  }

  lemma IdsForNone(d: DocHash)
    ensures IdsFor([], d) == []
  {}

  lemma IdsForFirst(txs: seq<Tx>, d: DocHash)
    requires txs != []
    ensures IdsFor(txs, d) == if Records(txs[0], d) then [txs[0].id] + IdsFor(txs[1..], d) else IdsFor(txs[1..], d)
  {}

  predicate NotIn(txs: seq<Tx>, ids: seq<TxId>) {
    forall i | 0 <= i < |txs| :: txs[i].id !in ids
  }

  lemma {:induction false} UndoNotaryTxsGets(n: Notary, txs: seq<Tx>, d: DocHash, s: Addr, before: seq<TxId>)
    requires NotaryOk(n) && DistinctIds(txs) && NotIn(txs, before)
    requires ListOf(n, d) == before + IdsFor(txs, d) && Get(n.count, s) >= NotarizedBy(txs, s)
    ensures var m := UndoNotaryTxs(n, txs);
            NotaryOk(m) && ListOf(m, d) == before && Get(m.count, s) == Get(n.count, s) - NotarizedBy(txs, s)
    decreases |txs|
  {
    hide UndoNotaryTx, NotaryOk, ListOf, RemoveFirst, Records, Counts, IdsFor;
    if txs == [] {
      assert IdsFor(txs, d) == [] by { IdsForNone(d); }
      assert before + [] == before;
    } else {
      UndoNotaryTxGets(n, txs[0], d, s);
      IdsForFirst(txs, d);
      if Records(txs[0], d) {
        RemoveFirstMiddle(before, txs[0].id, IdsFor(txs[1..], d));
        assert before + [txs[0].id] + IdsFor(txs[1..], d) == before + ([txs[0].id] + IdsFor(txs[1..], d));
      }
      UndoNotaryTxsGets(UndoNotaryTx(n, txs[0]), txs[1..], d, s, before);
    }
  }

  lemma NotaryExt(a: Notary, b: Notary)
    requires NotaryOk(a) && NotaryOk(b)
    requires (forall d :: ListOf(a, d) == ListOf(b, d)) && (forall s :: Get(a.count, s) == Get(b.count, s))
    ensures a == b
  {
    Ext(a.count, b.count);
    forall d ensures d in a.byHash <==> d in b.byHash { assert ListOf(a, d) == ListOf(b, d); }
    forall d | d in a.byHash ensures a.byHash[d] == b.byHash[d] { assert ListOf(a, d) == ListOf(b, d); }
    assert a.byHash == b.byHash && a.first == b.first;
  }

  lemma ReversedAt(n: Notary, txs: seq<Tx>, d: DocHash, s: Addr)
    requires NotaryOk(n) && DistinctIds(txs) && forall d <- n.byHash :: NotIn(txs, n.byHash[d])
    ensures var undone := UndoNotaryTxs(NotaryTxs(n, txs), txs);
            NotaryOk(undone) && ListOf(undone, d) == ListOf(n, d) && Get(undone.count, s) == Get(n.count, s)
  {
    assert Get(n.count, s) >= 0;
    hide NotaryOk, NotaryTxs, UndoNotaryTxs;
    NotaryTxsGets(n, txs, d, s);
    UndoNotaryTxsGets(NotaryTxs(n, txs), txs, d, s, ListOf(n, d));
  }

  /** With distinct transaction ids that are not yet indexed, the reversal restores the index,
      first notarizations included. */
  lemma UndoNotaryExact(n: Notary, txs: seq<Tx>)
    requires NotaryOk(n) && DistinctIds(txs) && forall d <- n.byHash :: NotIn(txs, n.byHash[d])
    ensures UndoNotaryTxs(NotaryTxs(n, txs), txs) == n
  {
    var after := NotaryTxs(n, txs);
    var undone := UndoNotaryTxs(after, txs);
    ReversedAt(n, txs, "", "");
    forall d ensures ListOf(undone, d) == ListOf(n, d) { ReversedAt(n, txs, d, ""); }
    forall s ensures Get(undone.count, s) == Get(n.count, s) { ReversedAt(n, txs, "", s); }
    NotaryExt(undone, n);
  }
}
