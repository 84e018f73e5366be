/**
 Restoring a savepoint inside a write transaction keeps the invariant: no data page is lost and
 none is queued twice.
 */
module MvccRestore {
  import opened Ledgers
  import opened Mvcc
  import opened MvccInvariant

  /** The view of the transaction once it has gone back to savepoint `x`. */
  function RestoredView(v: View, allocation: Ledger, x: Snapshot): View {
    View(x.pages, After(allocation, x.tid), KeepThrough(v.ledger, x.tid))
  }

  lemma RestoreKeepsPages(v: View, current: Image, uncommitted: set<Page>, x: Snapshot)
    requires TxnPages(v, current, uncommitted)
    requires Conserve(v, current.dataAllocated, uncommitted, x)
    requires uncommitted !! current.data + current.dataFreed.Keys
    ensures TxnPages(RestoredView(v, current.dataAllocated, x), current, {})
  {
    var w := RestoredView(v, current.dataAllocated, x);
    assert w.ledger.Keys !! v.data + v.freed + After(v.ledger, x.tid);
    assert w.ledger.Keys + After(v.ledger, x.tid) == v.ledger.Keys;
    assert w.data + w.freed + uncommitted == v.data + v.freed + After(v.ledger, x.tid);
    assert uncommitted !! w.data + w.freed + w.ledger.Keys;
  }

  /** A snapshot that was covered before the restore is covered after it. */
  lemma RestoreCovers(v: View, current: Image, uncommitted: set<Page>, x: Snapshot, r: Snapshot)
    requires TxnPages(v, current, uncommitted)
    requires TxnPages(RestoredView(v, current.dataAllocated, x), current, {})
    requires Cover(v, r) && Cover(ImageView(current), r)
    ensures Cover(RestoredView(v, current.dataAllocated, x), r)
  {
    var w := RestoredView(v, current.dataAllocated, x);
    forall p | p in r.pages
      ensures p in w.data + w.freed + After(w.ledger, r.tid)
    {
      assert p in w.data + w.freed + w.ledger.Keys;
      if p in w.ledger {
        assert p in v.ledger && v.ledger[p] == w.ledger[p];
        assert p !in v.data && p !in v.freed;
      }
    }
  }

  lemma RestoreCoversAll(v: View, current: Image, uncommitted: set<Page>, x: Snapshot, readers: map<nat, Snapshot>)
    requires TxnPages(v, current, uncommitted)
    requires TxnPages(RestoredView(v, current.dataAllocated, x), current, {})
    requires CoverAll(v, readers) && CoverAll(ImageView(current), readers)
    ensures CoverAll(RestoredView(v, current.dataAllocated, x), readers)
  {
    forall n | n in readers
      ensures Cover(RestoredView(v, current.dataAllocated, x), readers[n])
    {
      RestoreCovers(v, current, uncommitted, x, readers[n]);
    }
  }

  /** An older savepoint stays restorable: what was allocated between the two is still accounted for. */
  lemma RestoreConserves(v: View, allocation: Ledger, uncommitted: set<Page>, x: Snapshot, older: Snapshot)
    requires Conserve(v, allocation, uncommitted, x) && Conserve(v, allocation, uncommitted, older)
    requires v.data !! v.ledger.Keys && v.freed !! v.ledger.Keys
    requires older.tid <= x.tid
    ensures Conserve(RestoredView(v, allocation, x), allocation, {}, older)
  {
    var w := RestoredView(v, allocation, x);
    var between := After(allocation, older.tid) - After(allocation, x.tid);
    var queued := After(v.ledger, older.tid) - After(v.ledger, x.tid);
    assert After(w.ledger, older.tid) == queued;
    assert queued !! v.data + v.freed + After(v.ledger, x.tid);
    assert older.pages + between == x.pages + queued by {
      forall p
        ensures p in older.pages + between <==> p in x.pages + queued
      {
        assert p in older.pages + After(allocation, older.tid) + uncommitted
          <==> p in v.data + v.freed + After(v.ledger, older.tid);
        assert p in x.pages + After(allocation, x.tid) + uncommitted
          <==> p in v.data + v.freed + After(v.ledger, x.tid);
      }
    }
    assert older.pages + After(allocation, older.tid) == x.pages + queued + After(allocation, x.tid);
  }

  lemma RestoreConservesAll(v: View, allocation: Ledger, uncommitted: set<Page>, valid: map<SpId, Snapshot>,
                            sp: SpId, rest: map<SpId, Snapshot>)
    requires ConserveAll(v, allocation, uncommitted, valid)
    requires v.data !! v.ledger.Keys && v.freed !! v.ledger.Keys
    requires sp in valid && Ordered(valid)
    requires forall i :: i in rest ==> i in valid && i <= sp && rest[i] == valid[i]
    ensures ConserveAll(RestoredView(v, allocation, valid[sp]), allocation, {}, rest)
  {
    forall i | i in rest
      ensures Conserve(RestoredView(v, allocation, valid[sp]), allocation, {}, rest[i])
    {
      RestoreConserves(v, allocation, uncommitted, valid[sp], valid[i]);
    }
  }

  lemma RestoreTable(s: State, x: Txn, sp: SpId)
    requires TxnTable(x, s.current.savepoints, s.valid, s.nextSp) && sp in s.valid
    ensures TxnTable(RestoreTxn(s, x, sp), s.current.savepoints, s.valid, s.nextSp)
  {
  }

  lemma RestoreTxnOk(s: State, sp: SpId)
    requires s.txn.Some? && TxnOk(s, s.txn.value) && CanRestore(s, s.txn.value, sp)
    requires RootsOk(s.current, s.valid)
    requires CoverAll(ImageView(s.current), s.readers)
    requires Cover(ImageView(s.current), Root(s.durable))
    requires s.uncommitted !! s.current.data + s.current.dataFreed.Keys
    ensures var t := Restored(s, s.txn.value, sp); TxnOk(t, t.txn.value)
  {
    var t, x, y := Restored(s, s.txn.value, sp), s.txn.value, RestoreTxn(s, s.txn.value, sp);
    var v, target := TxnView(x), s.valid[sp];
    assert x.tracking && t.uncommitted == {};
    assert TxnView(y) == RestoredView(v, s.current.dataAllocated, target);
    var live := s.valid - x.invalidated;
    RestoreKeepsPages(v, s.current, s.uncommitted, live[sp]);
    RestoreCovers(v, s.current, s.uncommitted, target, Root(s.current));
    RestoreCovers(v, s.current, s.uncommitted, target, Root(s.durable));
    RestoreCoversAll(v, s.current, s.uncommitted, target, s.readers);
    RestoreConservesAll(v, s.current.dataAllocated, s.uncommitted, live, sp, s.valid - y.invalidated);
    RestoreTable(s, x, sp);
  }

  lemma RestoreInv(s: State, sp: SpId)
    requires Inv(s) && s.txn.Some? && CanRestore(s, s.txn.value, sp)
    ensures Inv(Restored(s, s.txn.value, sp))
  {
    RestoreTxnOk(s, sp);
  }
}
