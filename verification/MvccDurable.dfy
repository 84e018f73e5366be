/**
 The durable commit: it frees everything queued at or before the oldest live reader.
 */
module MvccDurable {
  import opened Ledgers
  import opened Mvcc
  import opened MvccInvariant
  import opened MvccSteps
  import opened MvccCommit

  lemma FreeUntilBound(holders: map<Holder, Tid>, own: Tid, h: Holder)
    requires h in holders
    ensures FreeUntil(holders, own) <= holders[h] + 1
  {
    assert holders[h] in holders.Values;
  }

  lemma DurableHarmless(s: State, x: Txn)
    requires RefsOk(s.holders, s.valid, s.nextSp)
    requires GuardsOk(s.readers, s.holders, s.current.id, s.durable.id, s.unpersisted + s.uncommitted, Saved(s))
    ensures Harmless(x, Before(Queued(x), FreeUntil(s.holders, x.id)), s.readers, s.valid)
  {
    var until := FreeUntil(s.holders, x.id);
    forall n | n in s.readers
      ensures Before(Queued(x), until) !! After(Queued(x), s.readers[n].tid)
    {
      assert GuardOk(s.holders, n, s.readers[n], s.current.id, s.durable.id, s.unpersisted + s.uncommitted, Saved(s));
      FreeUntilBound(s.holders, x.id, Guard(n));
    }
    forall sp | sp in s.valid
      ensures Before(Queued(x), until) !! After(Queued(x), s.valid[sp].tid)
    {
      FreeUntilBound(s.holders, x.id, if Ephemeral(sp) in s.holders then Ephemeral(sp) else Persistent(sp));
    }
  }

  lemma DurableImageIsCommit(s: State, x: Txn, sysNew: set<Page>, sysDropped: set<Page>, quick: bool)
    ensures var until := FreeUntil(s.holders, x.id);
            DurableImage(s, x, sysNew, sysDropped, quick)
            == CommitImage(s, x, Before(Queued(x), until), Before(s.current.systemFreed, until),
                           sysNew, sysDropped, if quick then sysDropped else {})
  {
    var until := FreeUntil(s.holders, x.id);
    assert KeepFrom(Queued(x), until) == Drop(Queued(x), Before(Queued(x), until));
    assert KeepFrom(s.current.systemFreed, until) == Drop(s.current.systemFreed, Before(s.current.systemFreed, until));
  }

  /** The references left by a durable commit. */
  function Settled(h: map<Holder, Tid>, deleted: set<SpId>): map<Holder, Tid> {
    map k | k in h && !k.NonDurable? && !(k.Persistent? && k.sp in deleted) :: h[k]
  }

  /** Each deleted savepoint gives back its reference, pending commits give back theirs. */
  lemma SettledRefs(h: map<Holder, Tid>, x: Txn, table: map<SpId, Snapshot>, valid: map<SpId, Snapshot>, nextSp: SpId)
    requires RefsOk(h, valid, nextSp) && TableOk(h, valid, table, x.created)
    requires TxnTable(x, table, valid, nextSp)
    ensures var k := Settled(h, x.deleted);
            && RefsOk(k, valid - x.deleted - x.invalidated, nextSp)
            && TableOk(k, valid - x.deleted - x.invalidated, x.savepoints, {})
  {
    var k := Settled(h, x.deleted);
    assert forall sp: SpId :: Ephemeral(sp) in k <==> Ephemeral(sp) in h;
    assert forall sp: SpId :: Persistent(sp) in k <==> sp in x.savepoints.Keys;
  }

  lemma SettledTracker(h: map<Holder, Tid>, deleted: set<SpId>, own: Tid, currentId: Tid, durableId: Tid,
                       readers: map<nat, Snapshot>, volatile: set<Page>, saved: bool, now: bool)
    requires TrackerOk(h, currentId, durableId) && currentId < own
    requires GuardsOk(readers, h, currentId, durableId, volatile, saved)
    ensures var k := Settled(h, deleted);
            && Pending(k) == {}
            && TrackerOk(k, own, own)
            && GuardsOk(readers, k, own, own, {}, now)
  {
    var k := Settled(h, deleted);
    assert Pending(k) == {};
    forall n | n in readers
      ensures GuardOk(k, n, readers[n], own, own, {}, now)
    {
      assert GuardOk(h, n, readers[n], currentId, durableId, volatile, saved);
    }
  }

  lemma DurableHolders(s: State, x: Txn, sysNew: set<Page>, sysDropped: set<Page>, quick: bool)
    requires HoldersOk(s) && IdsOk(s) && s.txn == Some(x)
    requires TxnTable(x, s.current.savepoints, s.valid, s.nextSp)
    ensures var t := DurableCommit(s, x, sysNew, sysDropped, quick); HoldersOk(t) && Pending(t.holders) == {}
  {
    var t := DurableCommit(s, x, sysNew, sysDropped, quick);
    assert t.holders == Settled(s.holders, x.deleted);
    SettledRefs(s.holders, x, s.current.savepoints, s.valid, s.nextSp);
    SettledTracker(s.holders, x.deleted, x.id, s.current.id, s.durable.id, s.readers, s.unpersisted + s.uncommitted,
                   Saved(s), Saved(t));
    assert t.unpersisted + t.uncommitted == {};
  }

  lemma DurableInv(s: State, sysNew: set<Page>, sysDropped: set<Page>, quick: bool)
    requires Inv(s) && s.txn.Some? && CanCommitDurable(s, s.txn.value, sysNew, sysDropped)
    ensures Inv(DurableCommit(s, s.txn.value, sysNew, sysDropped, quick))
  {
    var x := s.txn.value;
    var until := FreeUntil(s.holders, x.id);
    var gone, goneSystem := Before(Queued(x), until), Before(s.current.systemFreed, until);
    var requeued := if quick then sysDropped else {};
    DurableHarmless(s, x);
    CommitImageOk(s, x, gone, goneSystem, sysNew, sysDropped, requeued);
    CommitPartition(s, x, gone, goneSystem, sysNew, sysDropped, requeued);
    DurableImageIsCommit(s, x, sysNew, sysDropped, quick);
    DurableHolders(s, x, sysNew, sysDropped, quick);
    assert sysDropped - requeued == if quick then {} else sysDropped;
    DurableAssemble(s, x, sysNew, sysDropped, quick);
  }

  lemma DurableIsCurrent(i: Image)
    ensures DurableOk(i, i, {})
  {
  }

  lemma DurableAssemble(s: State, x: Txn, sysNew: set<Page>, sysDropped: set<Page>, quick: bool)
    requires IdsOk(s) && s.txn == Some(x) && TxnTable(x, s.current.savepoints, s.valid, s.nextSp)
    requires var i := DurableImage(s, x, sysNew, sysDropped, quick);
             && ImageOk(i)
             && RootsOk(i, s.valid - x.invalidated)
             && CoverAll(ImageView(i), s.readers)
             && Partition(DurableCommit(s, x, sysNew, sysDropped, quick).alloc, {}, i)
    requires var t := DurableCommit(s, x, sysNew, sysDropped, quick); HoldersOk(t) && Pending(t.holders) == {}
    ensures Inv(DurableCommit(s, x, sysNew, sysDropped, quick))
  {
    var t := DurableCommit(s, x, sysNew, sysDropped, quick);
    RootsFewer(t.current, s.valid - x.invalidated, t.valid);
    DurableIsCurrent(t.current);
    assert t.unpersisted + t.uncommitted == {};
  }
}
