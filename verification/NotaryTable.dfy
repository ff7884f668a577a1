/** The notarization index as the program keeps it, with the empty lists it leaves behind. */
module NotaryTables {
  import opened Maps
  import opened Types
  import opened NotaryLedger

  function DropEmptyLists(m: map<DocHash, seq<TxId>>): map<DocHash, seq<TxId>> { map d | d in m && m[d] != [] :: m[d] }

  lemma DropEmptyListsPut(m: map<DocHash, seq<TxId>>, d: DocHash, ids: seq<TxId>)
    ensures DropEmptyLists(m[d := ids]) == PutList(DropEmptyLists(m), d, ids)
    ensures (if d in DropEmptyLists(m) then DropEmptyLists(m)[d] else []) == if d in m then m[d] else []
  {}

  lemma {:induction false} RemoveAbsentId(ids: seq<TxId>, id: TxId)
    requires id !in ids
    ensures RemoveFirst(ids, id) == ids
  {
    if ids != [] { RemoveAbsentId(ids[1..], id); }
  }

  lemma PutSame(m: map<DocHash, seq<TxId>>, d: DocHash)
    requires d in m ==> m[d] != []
    ensures PutList(m, d, if d in m then m[d] else []) == m
  {}

  class NotaryTable {
    var notarizations: map<DocHash, TxId>
    var byHash: map<DocHash, seq<TxId>>
    var count: map<Addr, int>

    function Abs(): Notary
      reads this
    {
      Notary(notarizations, DropEmptyLists(byHash), count)
    }

    constructor ()
      ensures Abs() == Notary(map[], map[], map[])
    {
      notarizations, byHash, count := map[], map[], map[];
    }

    method ProcessTx(tx: Tx)
      requires NotaryOk(Abs())
      modifies this
      ensures Abs() == NotaryTx(old(Abs()), tx)
    {
      match tx.payload
      case Notarize(d) =>
        if d != "" {
          if d !in notarizations { notarizations := notarizations[d := tx.id]; }
          var ids := (if d in byHash then byHash[d] else []) + [tx.id];
          DropEmptyListsPut(byHash, d, ids);
          byHash := byHash[d := ids];
        }
        count := count[tx.sender := Get(count, tx.sender) + 1];
      case _ =>
    }

    method UndoTx(tx: Tx)
      requires NotaryOk(Abs())
      modifies this
      ensures Abs() == UndoNotaryTx(old(Abs()), tx)
    {
      match tx.payload
      case Notarize(d) =>
        if d != "" {
          if d in notarizations && notarizations[d] == tx.id { notarizations := notarizations - {d}; }
          var ids := if d in byHash then byHash[d] else [];
          var left := RemoveFirst(ids, tx.id);
          DropEmptyListsPut(byHash, d, left);
          if tx.id in ids {
            byHash := byHash[d := left];
          } else {
            RemoveAbsentId(ids, tx.id);
            PutSame(DropEmptyLists(byHash), d);
          }
          if d !in notarizations && left != [] { notarizations := notarizations[d := left[0]]; }
        }
        var left := (if tx.sender in count then count[tx.sender] else 1) - 1;
        count := if left <= 0 then count - {tx.sender} else count[tx.sender := left];
      case _ =>
    }
  }
}
