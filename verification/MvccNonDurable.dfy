/**
 The non-durable commit: it frees unpersisted pages only, queued before the oldest savepoint and
 at or before the oldest reader of a pending commit.
 */
module MvccNonDurable {
  import opened Ledgers
  import opened Mvcc
  import opened MvccInvariant
  import opened MvccSteps
  import opened MvccCommit

  lemma FreeUntilReader(s: State, own: Tid, h: Holder)
    requires h in s.holders && s.holders[h] in Pending(s.holders)
    ensures FreeUntilNonDurable(s, own) <= s.holders[h] + 1
  {
    assert s.holders[h] in s.holders.Values * Pending(s.holders);
  }

  lemma FreeUntilSavepoint(s: State, own: Tid, sp: SpId)
    requires Ordered(s.valid) && sp in s.valid
    ensures FreeUntilNonDurable(s, own) <= s.valid[sp].tid
  {
    PurgeIsOldest(s.valid, sp);
  }

  /** A persistent savepoint is no younger than the last durable commit. */
  lemma SavedIsOld(s: State)
    requires ImageOk(s.durable) && s.durable.savepoints == s.current.savepoints
    requires TableOk(s.holders, s.valid, s.current.savepoints, Created(s))
    ensures Saved(s) ==> exists sp :: sp in s.valid && s.valid[sp].tid <= s.durable.id
  {
    if sp :| sp in s.durable.savepoints {
      assert TaggedOk(s.durable.id, s.durable.dataAllocated, s.durable.savepoints[sp]);
      assert sp in s.valid && s.valid[sp].tid <= s.durable.id;
    }
  }

  lemma NonDurableHarmless(s: State, x: Txn, processed: set<Tid>)
    requires Ordered(s.valid)
    requires GuardsOk(s.readers, s.holders, s.current.id, s.durable.id, s.unpersisted + s.uncommitted, Saved(s))
    requires Saved(s) ==> exists sp :: sp in s.valid && s.valid[sp].tid <= s.durable.id
    requires forall t :: t in processed ==> t < FreeUntilNonDurable(s, x.id)
    ensures Harmless(x, NonDurableReleased(s, Queued(x), processed), s.readers, s.valid)
  {
    var gone := NonDurableReleased(s, Queued(x), processed);
    forall n | n in s.readers
      ensures gone !! s.readers[n].pages * After(Queued(x), s.readers[n].tid)
    {
      assert GuardOk(s.holders, n, s.readers[n], s.current.id, s.durable.id, s.unpersisted + s.uncommitted, Saved(s));
      if s.holders[Guard(n)] in Pending(s.holders) {
        FreeUntilReader(s, x.id, Guard(n));
      } else if Saved(s) {
        var sp :| sp in s.valid && s.valid[sp].tid <= s.durable.id;
        FreeUntilSavepoint(s, x.id, sp);
      }
    }
    forall sp | sp in s.valid
      ensures gone !! After(Queued(x), s.valid[sp].tid)
    {
      FreeUntilSavepoint(s, x.id, sp);
    }
  }

  lemma AddPending(h: map<Holder, Tid>, own: Tid, currentId: Tid, durableId: Tid)
    requires TrackerOk(h, currentId, durableId) && durableId <= currentId < own
    ensures var k := h[NonDurable(own) := durableId]; TrackerOk(k, own, durableId) && Pending(k) == Pending(h) + {own}
  {
    var k := h[NonDurable(own) := durableId];
    assert NonDurable(own) in k;
    forall t: Tid
      ensures NonDurable(t) in k <==> t in Pending(h) + {own}
    {
    }
    assert Pending(k) == Pending(h) + {own};
  }

  lemma PendingRefs(h: map<Holder, Tid>, own: Tid, durableId: Tid, x: Txn, table: map<SpId, Snapshot>,
                    valid: map<SpId, Snapshot>, nextSp: SpId)
    requires RefsOk(h, valid, nextSp) && TableOk(h, valid, table, x.created)
    requires TxnTable(x, table, valid, nextSp) && x.created == {} && x.deleted == {}
    ensures var k := h[NonDurable(own) := durableId];
            RefsOk(k, valid - x.invalidated, nextSp) && TableOk(k, valid - x.invalidated, x.savepoints, {})
  {
    var k := h[NonDurable(own) := durableId];
    assert forall sp: SpId :: Ephemeral(sp) in k <==> Ephemeral(sp) in h;
    assert forall sp: SpId :: Persistent(sp) in k <==> Persistent(sp) in h;
  }

  lemma PendingGuards(readers: map<nat, Snapshot>, h: map<Holder, Tid>, k: map<Holder, Tid>, own: Tid,
                      currentId: Tid, durableId: Tid, volatile: set<Page>, saved: bool)
    requires GuardsOk(readers, h, currentId, durableId, volatile, saved) && currentId < own
    requires k == h[NonDurable(own) := durableId] && Pending(h) <= Pending(k)
    ensures GuardsOk(readers, k, own, durableId, volatile, saved)
  {
    forall n | n in readers
      ensures GuardOk(k, n, readers[n], own, durableId, volatile, saved)
    {
      assert GuardOk(h, n, readers[n], currentId, durableId, volatile, saved);
    }
  }

  lemma NonDurableHolders(s: State, x: Txn, sysNew: set<Page>, sysDropped: set<Page>, processed: set<Tid>)
    requires HoldersOk(s) && IdsOk(s) && s.txn == Some(x)
    requires TxnTable(x, s.current.savepoints, s.valid, s.nextSp) && x.created == {} && x.deleted == {}
    requires GuardsOk(s.readers, s.holders, s.current.id, s.durable.id,
                      s.unpersisted - NonDurableReleasedAll(s, x, processed) + s.uncommitted + sysNew, Saved(s))
    ensures var t := NonDurableCommit(s, x, sysNew, sysDropped, processed);
            HoldersOk(t) && Pending(t.holders) == Pending(s.holders) + {x.id}
  {
    var t := NonDurableCommit(s, x, sysNew, sysDropped, processed);
    AddPending(s.holders, x.id, s.current.id, s.durable.id);
    PendingRefs(s.holders, x.id, s.durable.id, x, s.current.savepoints, s.valid, s.nextSp);
    PendingGuards(s.readers, s.holders, t.holders, x.id, s.current.id, s.durable.id, t.unpersisted, Saved(s));
    assert t.unpersisted + t.uncommitted == t.unpersisted;
  }

  /** A persisted page never becomes unpersisted: fresh pages are not allocated ones. */
  lemma StaysPersisted(s: State, x: Txn, sysNew: set<Page>, processed: set<Tid>, pages: set<Page>)
    requires pages <= s.alloc && pages !! s.unpersisted + s.uncommitted
    requires sysNew !! (s.alloc - NonDurableReleasedAll(s, x, processed))
    ensures pages !! s.unpersisted - NonDurableReleasedAll(s, x, processed) + s.uncommitted + sysNew
  {
    assert NonDurableReleasedAll(s, x, processed) <= s.unpersisted;
  }

  lemma ReadersStayPersisted(s: State, x: Txn, sysNew: set<Page>, processed: set<Tid>)
    requires GuardsOk(s.readers, s.holders, s.current.id, s.durable.id, s.unpersisted + s.uncommitted, Saved(s))
    requires CoverAll(ImageView(s.current), s.readers) && Partition(s.alloc, s.uncommitted, s.current)
    requires sysNew !! (s.alloc - NonDurableReleasedAll(s, x, processed))
    ensures GuardsOk(s.readers, s.holders, s.current.id, s.durable.id,
                     s.unpersisted - NonDurableReleasedAll(s, x, processed) + s.uncommitted + sysNew, Saved(s))
  {
    var volatile := s.unpersisted - NonDurableReleasedAll(s, x, processed) + s.uncommitted + sysNew;
    forall n | n in s.readers
      ensures GuardOk(s.holders, n, s.readers[n], s.current.id, s.durable.id, volatile, Saved(s))
    {
      assert GuardOk(s.holders, n, s.readers[n], s.current.id, s.durable.id, s.unpersisted + s.uncommitted, Saved(s));
      assert Cover(ImageView(s.current), s.readers[n]);
      if s.readers[n].pages !! s.unpersisted + s.uncommitted {
        StaysPersisted(s, x, sysNew, processed, s.readers[n].pages);
      }
    }
  }

  lemma DurableRootsStay(s: State, x: Txn, sysNew: set<Page>, sysDropped: set<Page>, processed: set<Tid>)
    requires DurableOk(s.durable, s.current, s.unpersisted + s.uncommitted)
    requires Partition(s.alloc, s.uncommitted, s.current)
    requires TxnPages(TxnView(x), s.current, s.uncommitted) && Cover(TxnView(x), Root(s.durable))
    requires s.durable.id <= s.current.id < x.id
    requires sysNew !! (s.alloc - NonDurableReleasedAll(s, x, processed))
    ensures var t := NonDurableCommit(s, x, sysNew, sysDropped, processed);
            DurableOk(t.durable, t.current, t.unpersisted + t.uncommitted)
  {
    var t := NonDurableCommit(s, x, sysNew, sysDropped, processed);
    var volatile := s.unpersisted - NonDurableReleasedAll(s, x, processed) + s.uncommitted + sysNew;
    assert t.unpersisted + t.uncommitted == volatile;
    StaysPersisted(s, x, sysNew, processed, s.durable.data);
    StaysPersisted(s, x, sysNew, processed, s.durable.system);
    CommitCovers(x, NonDurableReleased(s, Queued(x), processed), Root(s.durable));
    assert s.durable.system <= t.current.system + After(t.current.systemFreed, s.durable.id);
  }

  lemma NonDurableInv(s: State, sysNew: set<Page>, sysDropped: set<Page>, processed: set<Tid>)
    requires Inv(s) && s.txn.Some? && CanCommitNonDurable(s, s.txn.value, sysNew, sysDropped, processed)
    ensures Inv(NonDurableCommit(s, s.txn.value, sysNew, sysDropped, processed))
  {
    var x := s.txn.value;
    var gone := NonDurableReleased(s, Queued(x), processed);
    var goneSystem := NonDurableReleased(s, s.current.systemFreed, processed);
    SavedIsOld(s);
    NonDurableHarmless(s, x, processed);
    CommitImageOk(s, x, gone, goneSystem, sysNew, sysDropped, sysDropped - s.unpersisted);
    CommitPartition(s, x, gone, goneSystem, sysNew, sysDropped, sysDropped - s.unpersisted);
    ReadersStayPersisted(s, x, sysNew, processed);
    NonDurableHolders(s, x, sysNew, sysDropped, processed);
    DurableRootsStay(s, x, sysNew, sysDropped, processed);
    NonDurableAssemble(s, x, sysNew, sysDropped, processed);
  }

  /** Without created or deleted savepoints the table is the one of the last commit. */
  lemma SameTable(x: Txn, table: map<SpId, Snapshot>, valid: map<SpId, Snapshot>, nextSp: SpId)
    requires TxnTable(x, table, valid, nextSp) && x.created == {} && x.deleted == {}
    requires forall sp :: sp in table ==> sp in valid && valid[sp] == table[sp]
    ensures x.savepoints == table
  {
  }

  lemma NonDurableAssemble(s: State, x: Txn, sysNew: set<Page>, sysDropped: set<Page>, processed: set<Tid>)
    requires IdsOk(s) && ImageOk(s.durable) && s.txn == Some(x) && TxnTable(x, s.current.savepoints, s.valid, s.nextSp)
    requires x.created == {} && x.deleted == {}
    requires forall sp :: sp in s.current.savepoints ==> sp in s.valid && s.valid[sp] == s.current.savepoints[sp]
    requires var t := NonDurableCommit(s, x, sysNew, sysDropped, processed);
             && ImageOk(t.current)
             && RootsOk(t.current, s.valid - x.invalidated)
             && CoverAll(ImageView(t.current), s.readers)
             && Partition(s.alloc - NonDurableReleasedAll(s, x, processed) + sysNew
                          - (sysDropped - (sysDropped - s.unpersisted)), {}, t.current)
             && HoldersOk(t) && Pending(t.holders) == Pending(s.holders) + {x.id}
             && DurableOk(t.durable, t.current, t.unpersisted + t.uncommitted)
    ensures Inv(NonDurableCommit(s, x, sysNew, sysDropped, processed))
  {
    var t := NonDurableCommit(s, x, sysNew, sysDropped, processed);
    assert sysDropped - (sysDropped - s.unpersisted) == sysDropped * s.unpersisted;
    SameTable(x, s.current.savepoints, s.valid, s.nextSp);
  }
}
