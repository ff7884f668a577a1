/** The nonce table and the transaction indexes it is recomputed from: `_sender_nonce`,
    `_txs_by_sender` resolved through `_tx_by_id`, and the ids of the chain. */
module TxIndexes {
  import opened Maps
  import opened Types
  import opened Validation
  import Ledger

  /** A transaction and the index of its block. */
  datatype Placed = Placed(index: int, tx: Tx)

  function ListFor(h: seq<Placed>, s: Addr): seq<Placed> {
    if h == [] then [] else (if h[0].tx.sender == s then [h[0]] else []) + ListFor(h[1..], s)
  }

  /** The transactions that use up a nonce: those outside the genesis block. */
  function UsersOf(h: seq<Placed>): seq<Tx> {
    if h == [] then [] else (if h[0].index != 0 then [h[0].tx] else []) + UsersOf(h[1..])
  }

  function Ids(h: seq<Placed>): set<TxId> { set i | 0 <= i < |h| :: h[i].tx.id }

  lemma {:induction false} ListForAppend(a: seq<Placed>, b: seq<Placed>, s: Addr)
    ensures ListFor(a + b, s) == ListFor(a, s) + ListFor(b, s)
    decreases |a|
  {
    if a == [] {
      assert a + b == b;
    } else {
      assert (a + b)[1..] == a[1..] + b && (a + b)[0] == a[0];
      ListForAppend(a[1..], b, s);
      var head := if a[0].tx.sender == s then [a[0]] else [];
      assert ListFor(a + b, s) == head + (ListFor(a[1..], s) + ListFor(b, s));
    }
  }

  lemma UsersOfFirst(e: Placed, rest: seq<Placed>)
    ensures UsersOf([e] + rest) == if e.index != 0 then [e.tx] + UsersOf(rest) else UsersOf(rest)
  {
    assert ([e] + rest)[1..] == rest;
  }

  lemma {:induction false} UsersOfAppend(a: seq<Placed>, b: seq<Placed>)
    ensures UsersOf(a + b) == UsersOf(a) + UsersOf(b)
    decreases |a|
  {
    if a == [] {
      assert a + b == b;
    } else {
      hide UsersOf;
      assert a + b == [a[0]] + (a[1..] + b) && a == [a[0]] + a[1..];
      UsersOfFirst(a[0], a[1..] + b);
      UsersOfFirst(a[0], a[1..]);
      UsersOfAppend(a[1..], b);
    }
  }

  lemma IdsAppend(a: seq<Placed>, b: seq<Placed>)
    ensures Ids(a + b) == Ids(a) + Ids(b)
  {
    forall id ensures id in Ids(a + b) <==> id in Ids(a) || id in Ids(b) {
      if id in Ids(a) { var i :| 0 <= i < |a| && a[i].tx.id == id; assert (a + b)[i].tx.id == id; }
      if id in Ids(b) { var i :| 0 <= i < |b| && b[i].tx.id == id; assert (a + b)[|a| + i].tx.id == id; }
      if id in Ids(a + b) {
        var i :| 0 <= i < |a + b| && (a + b)[i].tx.id == id;
        if i >= |a| { assert b[i - |a|].tx.id == id; } else { assert a[i].tx.id == id; }
      }
    }
  }

  lemma IdsOne(e: Placed)
    ensures Ids([e]) == {e.tx.id}
  {
    assert [e][0].tx.id in Ids([e]);
  }

  /** The nonce expected next after a list of one sender. */
  function NextOver(next: int, es: seq<Placed>): int
    decreases |es|
  {
    if es == [] then next else NextOver(if es[0].index != 0 then Max(next, es[0].tx.nonce + 1) else next, es[1..])
  }

  /** A sender's list holds all that a scan of the chain would look at. */
  lemma {:induction false} ListScans(next: int, h: seq<Placed>, s: Addr)
    ensures NextOver(next, ListFor(h, s)) == NextAfter(next, UsersOf(h), s)
    decreases |h|
  {
    if h != [] {
      var e, es, txs := h[0], ListFor(h[1..], s), UsersOf(h[1..]);
      ListScans(if e.tx.sender == s && e.index != 0 then Max(next, e.tx.nonce + 1) else next, h[1..], s);
      assert ListFor(h, s) == if e.tx.sender == s then [e] + es else es;
      assert UsersOf(h) == if e.index != 0 then [e.tx] + txs else txs;
      NextOverFirst(next, e, es);
      NextAfterFirst(next, e.tx, txs, s);
    }
  }

  lemma NextOverFirst(next: int, e: Placed, es: seq<Placed>)
    ensures NextOver(next, [e] + es) == NextOver(if e.index != 0 then Max(next, e.tx.nonce + 1) else next, es)
  {
    assert ([e] + es)[1..] == es;
  }

  lemma NextAfterFirst(next: int, tx: Tx, txs: seq<Tx>, s: Addr)
    ensures NextAfter(next, [tx] + txs, s)
            == NextAfter(if tx.sender == s then Max(next, tx.nonce + 1) else next, txs, s)
  {
    assert ([tx] + txs)[1..] == txs;
  }

  lemma {:induction false} NextOverLast(next: int, es: seq<Placed>, e: Placed)
    ensures NextOver(next, es + [e])
            == (var n := NextOver(next, es); if e.index != 0 then Max(n, e.tx.nonce + 1) else n)
    decreases |es|
  {
    if es == [] {
      assert es + [e] == [e];
    } else {
      assert (es + [e])[1..] == es[1..] + [e];
      NextOverLast(if es[0].index != 0 then Max(next, es[0].tx.nonce + 1) else next, es[1..], e);
    }
  }

  /** `list.remove` of a transaction id. */
  function RemoveTx(es: seq<Placed>, id: TxId): seq<Placed> {
    if es == [] then [] else if es[0].tx.id == id then es[1..] else [es[0]] + RemoveTx(es[1..], id)
  }

  lemma RemoveTxFirst(e: Placed, rest: seq<Placed>, id: TxId)
    ensures RemoveTx([e] + rest, id) == if e.tx.id == id then rest else [e] + RemoveTx(rest, id)
  {
    assert ([e] + rest)[1..] == rest;
  }

  lemma {:induction false} RemoveFresh(a: seq<Placed>, e: Placed, b: seq<Placed>)
    requires forall x <- a :: x.tx.id != e.tx.id
    ensures RemoveTx(a + [e] + b, e.tx.id) == a + b
    decreases |a|
  {
    hide RemoveTx;
    if a == [] {
      RemoveTxFirst(e, b, e.tx.id);
      assert a + [e] + b == [e] + b && a + b == b;
    } else {
      assert a + [e] + b == [a[0]] + (a[1..] + [e] + b);
      RemoveTxFirst(a[0], a[1..] + [e] + b, e.tx.id);
      RemoveFresh(a[1..], e, b);
      assert [a[0]] + (a[1..] + b) == a + b;
    }
  }

  lemma {:induction false} RemoveAbsent(es: seq<Placed>, id: TxId)
    requires forall x <- es :: x.tx.id != id
    ensures RemoveTx(es, id) == es
  {
    if es != [] { RemoveAbsent(es[1..], id); }
  }

  lemma {:induction false} ListForWithin(h: seq<Placed>, s: Addr)
    ensures forall x <- ListFor(h, s) :: x.tx.id in Ids(h)
  {
    if h != [] {
      ListForWithin(h[1..], s);
      IdsAppend([h[0]], h[1..]);
      assert [h[0]] + h[1..] == h && [h[0]][0].tx.id in Ids([h[0]]);
    }
  }

  lemma ListForNext(h: seq<Placed>, e: Placed, s: Addr)
    ensures ListFor(h + [e], s) == if e.tx.sender == s then ListFor(h, s) + [e] else ListFor(h, s)
  {
    ListForAppend(h, [e], s);
    ListForOne(e, s);
  }

  class TxIndex {
    var senderNonce: map<Addr, int>
    var txsBySender: map<Addr, seq<Placed>>
    var chainTxIds: set<TxId>

    function ListOf(s: Addr): seq<Placed>
      reads this`txsBySender
    {
      if s in txsBySender then txsBySender[s] else []
    }

    /** The indexes list exactly the transactions of a history. */
    ghost predicate Lists(h: seq<Placed>)
      reads this`txsBySender, this`chainTxIds
    {
      chainTxIds == Ids(h) && forall s :: ListOf(s) == ListFor(h, s)
    }

    constructor ()
      ensures Lists([]) && senderNonce == map[]
    {
      senderNonce, txsBySender, chainTxIds := map[], map[], {};
    }

    /** A transaction of the block at an index is indexed and uses up its nonce. */
    method ProcessTx(index: int, tx: Tx, ghost h: seq<Placed>)
      requires Lists(h)
      modifies this
      ensures Lists(h + [Placed(index, tx)])
      ensures index > 0 ==> Expected(senderNonce) == Bump(Expected(old(senderNonce)), [tx])
      ensures index <= 0 ==> senderNonce == old(senderNonce)
    {
      hide ListFor, Ids, Bump, Expected, LastNonce;
      ghost var entry := Placed(index, tx);
      IdsAppend(h, [entry]);
      IdsOne(entry);
      forall s
        ensures ListFor(h + [entry], s) == if tx.sender == s then ListFor(h, s) + [entry] else ListFor(h, s)
      {
        ListForNext(h, entry, s);
      }
      chainTxIds := chainTxIds + {tx.id};
      txsBySender := txsBySender[tx.sender := ListOf(tx.sender) + [Placed(index, tx)]];
      if index > 0 {
        RaiseNonce(senderNonce, tx);
        var current := LastNonce(senderNonce, tx.sender);
        if tx.nonce > current { senderNonce := senderNonce[tx.sender := tx.nonce]; }
      }
    }

    /** One transaction of a reverted block leaves the indexes; `here` is empty when it never
        entered them. */
    method UndoTx(tx: Tx, ghost before: seq<Placed>, ghost here: seq<Placed>, ghost after: seq<Placed>)
      requires Lists(before + here + after) && tx.id !in Ids(before) && tx.id !in Ids(after)
      requires here == [] || (|here| == 1 && here[0].tx == tx)
      modifies this`txsBySender, this`chainTxIds
      ensures Lists(before + after)
    {
      IdsAppend(before + here, after);
      IdsAppend(before, here);
      IdsAppend(before, after);
      if here != [] { IdsOne(here[0]); }
      forall s ensures ListFor(before + after, s) == if s == tx.sender then RemoveTx(ListOf(s), tx.id) else ListOf(s) {
        if here == [] {
          assert before + here == before;
          ListForWithin(before + after, s);
          RemoveAbsent(ListFor(before + after, s), tx.id);
        } else {
          assert here == [here[0]];
          RemovedList(before, here[0], after, s);
        }
      }
      chainTxIds := chainTxIds - {tx.id};
      if tx.sender in txsBySender {
        txsBySender := txsBySender[tx.sender := RemoveTx(txsBySender[tx.sender], tx.id)];
      }
    }

    /** The greatest nonce of a list outside the genesis block, -1 if there is none. */
    method MaxNonce(es: seq<Placed>) returns (m: int)
      ensures m + 1 == NextOver(0, es)
    {
      m := -1;
      for i := 0 to |es|
        invariant m + 1 == NextOver(0, es[..i])
      {
        assert es[..i + 1] == es[..i] + [es[i]];
        NextOverLast(0, es[..i], es[i]);
        if es[i].index != 0 && es[i].tx.nonce > m { m := es[i].tx.nonce; }
      }
      assert es[..|es|] == es;
    }

    /** The nonces of the senders of a reverted block, recomputed from what is left. */
    method RecomputeNonces(txs: seq<Tx>, ghost h: seq<Placed>)
      requires Lists(h)
      modifies this`senderNonce
      ensures Expected(senderNonce) == Ledger.Rescan(Expected(old(senderNonce)), UsersOf(h), txs)
    {
      assert txs[0..] == txs;
      for i := 0 to |txs|
        invariant Ledger.Rescan(Expected(senderNonce), UsersOf(h), txs[i..])
                  == Ledger.Rescan(Expected(old(senderNonce)), UsersOf(h), txs)
      {
        var s := txs[i].sender;
        assert txs[i..][1..] == txs[i + 1..];
        ListScans(0, h, s);
        var m := MaxNonce(ListOf(s));
        SetNonce(senderNonce, s, m);
        if ListOf(s) != [] {
          senderNonce := senderNonce[s := m];
        } else {
          senderNonce := senderNonce - {s};
        }
      }
      assert txs[|txs|..] == [];
    }
  }

  lemma RaiseNonce(nonces: map<Addr, int>, tx: Tx)
    ensures var current := LastNonce(nonces, tx.sender);
            Bump(Expected(nonces), [tx])
              == Expected(if tx.nonce > current then nonces[tx.sender := tx.nonce] else nonces)
  {
    var current := LastNonce(nonces, tx.sender);
    var raised := if tx.nonce > current then nonces[tx.sender := tx.nonce] else nonces;
    assert [tx][1..] == [];
    forall s ensures Get(Bump(Expected(nonces), [tx]), s) == Get(Expected(raised), s) {
      BumpGets(Expected(nonces), [tx], s);
    }
    BumpGets(Expected(nonces), [tx], "");
    Ext(Bump(Expected(nonces), [tx]), Expected(raised));
  }

  lemma SetNonce(nonces: map<Addr, int>, s: Addr, m: int)
    ensures Expected(nonces[s := m]) == Put(Expected(nonces), s, m + 1)
    ensures Expected(nonces - {s}) == Put(Expected(nonces), s, 0)
  {
    Ext(Expected(nonces[s := m]), Put(Expected(nonces), s, m + 1));
    Ext(Expected(nonces - {s}), Put(Expected(nonces), s, 0));
  }

  lemma RemovedList(before: seq<Placed>, e: Placed, after: seq<Placed>, s: Addr)
    requires e.tx.id !in Ids(before)
    ensures ListFor(before + after, s) ==
            if s == e.tx.sender then RemoveTx(ListFor(before + [e] + after, s), e.tx.id)
              else ListFor(before + [e] + after, s)
  {
    var a, b := ListFor(before, s), ListFor(after, s);
    ListForAppend(before + [e], after, s);
    ListForAppend(before, [e], s);
    ListForAppend(before, after, s);
    ListForOne(e, s);
    ListForWithin(before, s);
    if s == e.tx.sender {
      RemoveFresh(a, e, b);
    } else {
      assert a + [] + b == a + b;
    }
  }

  lemma ListForOne(e: Placed, s: Addr)
    ensures ListFor([e], s) == if e.tx.sender == s then [e] else []
  {
    assert [e][1..] == [];
  }

  // ---- The history of a chain ----

  function Place(index: int, txs: seq<Tx>): (r: seq<Placed>)
    ensures |r| == |txs| && forall i | 0 <= i < |r| :: r[i] == Placed(index, txs[i])
  {
    seq(|txs|, i requires 0 <= i < |txs| => Placed(index, txs[i]))
  }

  function HistoryOf(chain: seq<Block>): seq<Placed> {
    if chain == [] then [] else HistoryOf(chain[..|chain| - 1]) + Place(|chain| - 1, chain[|chain| - 1].txs)
  }

  lemma HistoryExtends(chain: seq<Block>, b: Block)
    ensures HistoryOf(chain + [b]) == HistoryOf(chain) + Place(|chain|, b.txs)
  {
    assert (chain + [b])[..|chain|] == chain;
  }

  lemma {:induction false} PlaceUsers(index: int, txs: seq<Tx>)
    ensures UsersOf(Place(index, txs)) == if index != 0 then txs else []
    decreases |txs|
  {
    if txs != [] {
      assert Place(index, txs)[1..] == Place(index, txs[1..]);
      PlaceUsers(index, txs[1..]);
    }
  }

  lemma {:induction false} HistoryUsers(chain: seq<Block>)
    ensures UsersOf(HistoryOf(chain)) == UserTxs(chain)
    decreases |chain|
  {
    if chain != [] {
      var n := |chain| - 1;
      HistoryUsers(chain[..n]);
      UsersOfAppend(HistoryOf(chain[..n]), Place(n, chain[n].txs));
      PlaceUsers(n, chain[n].txs);
    }
  }

  lemma PlaceIds(index: int, txs: seq<Tx>)
    ensures Ids(Place(index, txs)) == set i | 0 <= i < |txs| :: txs[i].id
  {
    var p := Place(index, txs);
    forall i | 0 <= i < |txs| ensures txs[i].id in Ids(p) { assert p[i].tx.id == txs[i].id; }
  }
}
