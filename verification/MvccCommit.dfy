/**
 Both commits keep the invariant.  The two freeing rules differ only in which queued data pages
 they hand back; `Harmless` is what both establish about those pages.
 */
module MvccCommit {
  import opened Ledgers
  import opened Mvcc
  import opened MvccInvariant
  import opened MvccSteps

  /** The data ledger of transaction `x` with its own freed pages listed. */
  function Queued(x: Txn): Ledger {
    x.dataFreed + Tag(x.freed, x.id)
  }

  /** The allocation ledger with the new pages of `x` listed, before the purge. */
  function Listed(s: State, x: Txn): Ledger {
    s.current.dataAllocated + Tag(if x.tracking then s.uncommitted else {}, x.id)
  }

  function CommittedView(x: Txn, gone: set<Page>): View {
    View(x.data, {}, Drop(Queued(x), gone))
  }

  /** Handing back `gone` takes nothing a reader or a savepoint still counts on. */
  ghost predicate Harmless(x: Txn, gone: set<Page>, readers: map<nat, Snapshot>, valid: map<SpId, Snapshot>) {
    && gone <= Queued(x).Keys
    && (forall n :: n in readers ==> gone !! readers[n].pages * After(Queued(x), readers[n].tid))
    && (forall sp :: sp in valid ==> gone !! After(Queued(x), valid[sp].tid))
  }

  // ---------------------------------------------------------------- data pages

  lemma CommitCovers(x: Txn, gone: set<Page>, r: Snapshot)
    requires Cover(TxnView(x), r) && r.tid < x.id
    requires x.freed !! x.dataFreed.Keys
    requires gone !! r.pages * After(Queued(x), r.tid)
    ensures Cover(CommittedView(x, gone), r)
  {
    forall p | p in r.pages
      ensures p in x.data + After(Drop(Queued(x), gone), r.tid)
    {
      if p !in x.data {
        assert p in After(Queued(x), r.tid);
      }
    }
  }

  lemma CommitCoversAll(s: State, x: Txn, gone: set<Page>)
    requires TxnOk(s, x) && Harmless(x, gone, s.readers, s.valid)
    requires forall n :: n in s.readers ==> s.readers[n].tid < x.id
    ensures CoverAll(CommittedView(x, gone), s.readers)
  {
    forall n | n in s.readers
      ensures Cover(CommittedView(x, gone), s.readers[n])
    {
      CommitCovers(x, gone, s.readers[n]);
    }
  }

  lemma AfterQueued(x: Txn, gone: set<Page>, t: Tid)
    requires t < x.id && x.freed !! x.dataFreed.Keys && gone !! After(Queued(x), t)
    ensures After(Drop(Queued(x), gone), t) == x.freed + After(x.dataFreed, t)
  {
  }

  lemma AfterListed(s: State, x: Txn, t: Tid, purge: Tid)
    requires x.tracking && purge <= t < x.id && s.uncommitted !! s.current.dataAllocated.Keys
    ensures After(KeepFrom(Listed(s, x), purge), t) == After(s.current.dataAllocated, t) + s.uncommitted
  {
  }

  lemma CommitConserves(s: State, x: Txn, gone: set<Page>, v: Snapshot, purge: Tid)
    requires x.freed !! x.dataFreed.Keys && x.tracking && v.tid < x.id
    requires Conserve(TxnView(x), s.current.dataAllocated, s.uncommitted, v)
    requires s.uncommitted !! s.current.dataAllocated.Keys
    requires gone !! After(Queued(x), v.tid) && purge <= v.tid
    ensures Conserve(CommittedView(x, gone), KeepFrom(Listed(s, x), purge), {}, v)
  {
    AfterListed(s, x, v.tid, purge);
    AfterQueued(x, gone, v.tid);
  }

  /** The purge of the allocation ledger stays below every valid savepoint. */
  lemma PurgeIsOldest(valid: map<SpId, Snapshot>, sp: SpId)
    requires Ordered(valid) && sp in valid
    ensures OldestSavepoint(valid).Some? && OldestSavepoint(valid).value <= valid[sp].tid
  {
    var m := Min(valid.Keys);
    assert m <= sp;
  }

  lemma CommitConservesAll(s: State, x: Txn, gone: set<Page>)
    requires TxnOk(s, x) && Harmless(x, gone, s.readers, s.valid)
    requires RootsOk(s.current, s.valid) && LedgersOk(s.current) && s.current.id < x.id
    requires s.uncommitted !! s.current.data + s.current.dataFreed.Keys
    ensures ConserveAll(CommittedView(x, gone), AllocatedAfterCommit(s, x), {}, s.valid - x.invalidated)
  {
    var live := s.valid - x.invalidated;
    forall sp | sp in live
      ensures Conserve(CommittedView(x, gone), AllocatedAfterCommit(s, x), {}, live[sp])
    {
      PurgeIsOldest(s.valid, sp);
      assert TaggedOk(s.current.id, s.current.dataAllocated, s.valid[sp]);
      assert Conserve(TxnView(x), s.current.dataAllocated, s.uncommitted, live[sp]);
      CommitConserves(s, x, gone, s.valid[sp], OldestSavepoint(s.valid).value);
    }
  }

  /** A page listed since the oldest savepoint is still in use or queued. */
  lemma AllocationStaysAt(s: State, x: Txn, gone: set<Page>, v: Snapshot, p: Page)
    requires TxnPages(TxnView(x), s.current, s.uncommitted) && v.tid < x.id
    requires s.current.data !! s.current.dataFreed.Keys
    requires gone !! After(Queued(x), v.tid)
    requires p in s.current.data + After(s.current.dataFreed, v.tid)
    ensures p in x.data + Drop(Queued(x), gone).Keys
  {
    assert p in x.data + x.freed + x.dataFreed.Keys;
    if p in x.freed {
      assert p in After(Queued(x), v.tid);
    } else if p in x.dataFreed {
      assert p in After(Queued(x), v.tid);
    }
  }

  lemma AllocationStays(s: State, x: Txn, gone: set<Page>)
    requires TxnPages(TxnView(x), s.current, s.uncommitted) && s.current.id < x.id
    requires Harmless(x, gone, s.readers, s.valid)
    requires RootsOk(s.current, s.valid) && LedgersOk(s.current) && Disjoint(s.current)
    ensures AllocatedAfterCommit(s, x).Keys <= x.data + Drop(Queued(x), gone).Keys
    ensures Bounded(AllocatedAfterCommit(s, x), x.id)
    ensures forall p :: p in AllocatedAfterCommit(s, x) && AllocatedAfterCommit(s, x)[p] == x.id ==> p in x.data
  {
    if s.valid.Keys != {} {
      var v := s.valid[Min(s.valid.Keys)];
      assert Conserve(ImageView(s.current), s.current.dataAllocated, {}, v);
      assert TaggedOk(s.current.id, s.current.dataAllocated, v);
      forall p | p in AllocatedAfterCommit(s, x)
        ensures p in x.data + Drop(Queued(x), gone).Keys
      {
        if p !in s.uncommitted || !x.tracking {
          assert p in s.current.dataAllocated && s.current.dataAllocated[p] >= v.tid;
          assert p in v.pages + After(s.current.dataAllocated, v.tid);
          AllocationStaysAt(s, x, gone, v, p);
        }
      }
    }
  }

  // ---------------------------------------------------------------- the new image

  /**
   The image either commit writes: `gone` and `goneSystem` are handed back before it,
   `requeued` are the dropped system pages that go to the ledger instead of being freed.
   */
  ghost function CommitImage(s: State, x: Txn, gone: set<Page>, goneSystem: set<Page>,
                             sysNew: set<Page>, sysDropped: set<Page>, requeued: set<Page>): Image
  {
    Image(x.id, x.data,
          s.current.system - sysDropped + sysNew,
          Drop(Queued(x), gone),
          Drop(s.current.systemFreed, goneSystem) + Tag(requeued, x.id),
          AllocatedAfterCommit(s, x),
          x.savepoints,
          x.nextSavepoint)
  }

  /** Rewriting the four page classes of a commit, on plain sets. */
  lemma RepartitionSets(data: set<Page>, queued: set<Page>, system: set<Page>, systemQueued: set<Page>,
                        alloc: set<Page>, gone: set<Page>, goneSystem: set<Page>, sysNew: set<Page>,
                        sysDropped: set<Page>, requeued: set<Page>)
    requires data !! queued && data + queued !! system && data + queued + system !! systemQueued
    requires alloc == data + queued + system + systemQueued
    requires gone <= queued && goneSystem <= systemQueued && requeued <= sysDropped <= system
    requires sysNew !! alloc - (gone + goneSystem)
    ensures var queued', system' := queued - gone, system - sysDropped + sysNew;
            var systemQueued' := systemQueued - goneSystem + requeued;
            && data !! queued' && data + queued' !! system' && data + queued' + system' !! systemQueued'
            && alloc - (gone + goneSystem) + sysNew - (sysDropped - requeued)
            == data + queued' + system' + systemQueued'
  {
  }

  lemma CommitKeys(s: State, x: Txn, gone: set<Page>, goneSystem: set<Page>,
                   sysNew: set<Page>, sysDropped: set<Page>, requeued: set<Page>)
    requires TxnPages(TxnView(x), s.current, s.uncommitted)
    ensures var i := CommitImage(s, x, gone, goneSystem, sysNew, sysDropped, requeued);
            && i.dataFreed.Keys == Queued(x).Keys - gone
            && i.systemFreed.Keys == s.current.systemFreed.Keys - goneSystem + requeued
    ensures x.data !! Queued(x).Keys
    ensures x.data + Queued(x).Keys == s.current.data + s.current.dataFreed.Keys + s.uncommitted
  {
    assert Queued(x).Keys == x.freed + x.dataFreed.Keys;
  }

  lemma CommitPartition(s: State, x: Txn, gone: set<Page>, goneSystem: set<Page>,
                        sysNew: set<Page>, sysDropped: set<Page>, requeued: set<Page>)
    requires Disjoint(s.current) && Partition(s.alloc, s.uncommitted, s.current)
    requires TxnPages(TxnView(x), s.current, s.uncommitted)
    requires gone <= Queued(x).Keys && goneSystem <= s.current.systemFreed.Keys
    requires requeued <= sysDropped <= s.current.system
    requires sysNew !! s.alloc - (gone + goneSystem)
    ensures var i := CommitImage(s, x, gone, goneSystem, sysNew, sysDropped, requeued);
            && Disjoint(i)
            && Partition(s.alloc - (gone + goneSystem) + sysNew - (sysDropped - requeued), {}, i)
  {
    CommitKeys(s, x, gone, goneSystem, sysNew, sysDropped, requeued);
    RepartitionSets(x.data, Queued(x).Keys, s.current.system, s.current.systemFreed.Keys, s.alloc,
                    gone, goneSystem, sysNew, sysDropped, requeued);
  }

  lemma CommitRoots(s: State, x: Txn, gone: set<Page>, i: Image)
    requires TxnOk(s, x) && Harmless(x, gone, s.readers, s.valid)
    requires RootsOk(s.current, s.valid) && LedgersOk(s.current) && s.current.id < x.id
    requires s.uncommitted !! s.current.data + s.current.dataFreed.Keys
    requires i.id == x.id && ImageView(i) == CommittedView(x, gone) && i.dataAllocated == AllocatedAfterCommit(s, x)
    ensures RootsOk(i, s.valid - x.invalidated)
  {
    CommitConservesAll(s, x, gone);
    forall sp | sp in s.valid - x.invalidated
      ensures TaggedOk(i.id, i.dataAllocated, s.valid[sp])
    {
      assert TaggedOk(s.current.id, s.current.dataAllocated, s.valid[sp]);
    }
  }

  lemma CommitLedgers(s: State, x: Txn, gone: set<Page>, goneSystem: set<Page>,
                      sysNew: set<Page>, sysDropped: set<Page>, requeued: set<Page>)
    requires TxnPages(TxnView(x), s.current, s.uncommitted) && s.current.id < x.id
    requires Harmless(x, gone, s.readers, s.valid)
    requires RootsOk(s.current, s.valid) && LedgersOk(s.current) && Disjoint(s.current)
    ensures LedgersOk(CommitImage(s, x, gone, goneSystem, sysNew, sysDropped, requeued))
  {
    AllocationStays(s, x, gone);
    assert Bounded(x.dataFreed, x.id);
  }

  /** Of the pages only the queue and the ledger of allocations depend on what is released. */
  lemma CommitImageView(s: State, x: Txn, gone: set<Page>, goneSystem: set<Page>,
                        sysNew: set<Page>, sysDropped: set<Page>, requeued: set<Page>, i: Image)
    requires i == CommitImage(s, x, gone, goneSystem, sysNew, sysDropped, requeued)
    ensures i.id == x.id && ImageView(i) == CommittedView(x, gone) && i.dataAllocated == AllocatedAfterCommit(s, x)
    ensures i.savepoints == x.savepoints && i.nextSavepoint == x.nextSavepoint
  {
  }

  lemma CommitTable(x: Txn, table: map<SpId, Snapshot>, valid: map<SpId, Snapshot>, nextSp: SpId, i: Image)
    requires TxnTable(x, table, valid, nextSp) && RootsOk(i, valid - x.invalidated)
    requires i.savepoints == x.savepoints && i.nextSavepoint == x.nextSavepoint
    ensures RootsOk(i, i.savepoints) && forall sp :: sp in i.savepoints ==> sp < i.nextSavepoint
  {
    RootsFewer(i, valid - x.invalidated, x.savepoints);
  }

  lemma CommitReaders(s: State, x: Txn, gone: set<Page>)
    requires Inv(s) && s.txn == Some(x) && Harmless(x, gone, s.readers, s.valid)
    ensures CoverAll(CommittedView(x, gone), s.readers)
  {
    ReadersAreOld(s);
    CommitCoversAll(s, x, gone);
  }

  lemma CommitImageOk(s: State, x: Txn, gone: set<Page>, goneSystem: set<Page>,
                      sysNew: set<Page>, sysDropped: set<Page>, requeued: set<Page>)
    requires Inv(s) && s.txn == Some(x) && Harmless(x, gone, s.readers, s.valid)
    requires goneSystem <= s.current.systemFreed.Keys
    requires requeued <= sysDropped <= s.current.system
    requires sysNew !! s.alloc - (gone + goneSystem)
    ensures var i := CommitImage(s, x, gone, goneSystem, sysNew, sysDropped, requeued);
            && ImageOk(i)
            && RootsOk(i, s.valid - x.invalidated)
            && CoverAll(ImageView(i), s.readers)
  {
    var i := CommitImage(s, x, gone, goneSystem, sysNew, sysDropped, requeued);
    CommitPartition(s, x, gone, goneSystem, sysNew, sysDropped, requeued);
    CommitImageView(s, x, gone, goneSystem, sysNew, sysDropped, requeued, i);
    CommitRoots(s, x, gone, i);
    CommitLedgers(s, x, gone, goneSystem, sysNew, sysDropped, requeued);
    CommitTable(x, s.current.savepoints, s.valid, s.nextSp, i);
    CommitReaders(s, x, gone);
  }

  lemma ReadersAreOld(s: State)
    requires GuardsOk(s.readers, s.holders, s.current.id, s.durable.id, s.unpersisted + s.uncommitted, Saved(s))
    ensures forall n :: n in s.readers ==> s.readers[n].tid <= s.current.id
  {
    forall n | n in s.readers
      ensures s.readers[n].tid <= s.current.id
    {
      assert GuardOk(s.holders, n, s.readers[n], s.current.id, s.durable.id, s.unpersisted + s.uncommitted, Saved(s));
    }
  }
}
