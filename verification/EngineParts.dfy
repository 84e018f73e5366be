/**
 How the concrete fields of the write transaction stand for a protocol state, and the work of a
 commit on memory, tables and tracker.
 */
module EngineParts {
  import opened Ledgers
  import opened Mvcc
  import opened MvccInvariant
  import opened PageTables
  import Tracker
  import opened Engine

  ghost predicate TrackerMatches(t: Tracker.TransactionTracker, s: State)
    reads t
  {
    && t.Valid()
    && t.holders == s.holders
    && t.valid == Tracker.Marks(s.valid)
    && t.unprocessed == s.unprocessed
    && t.nextTid == s.nextTid
    && t.nextSp == s.nextSp
    && t.liveWrite == if s.txn.Some? then Some(s.txn.value.id) else None
  }

  ghost predicate MemoryMatches(mem: Memory, s: State)
    reads mem
  {
    mem.alloc == s.alloc && mem.uncommitted == s.uncommitted && mem.unpersisted == s.unpersisted
  }

  /** A pair of committed roots: the pages reachable from them and the system tables behind them. */
  datatype Roots = Roots(id: Tid, data: set<Page>, system: set<Page>, tables: Tables,
                         savepoints: map<SpId, Snapshot>, nextSavepoint: nat)

  ghost predicate ImageStored(r: Roots, i: Image, unprocessed: set<Tid>) {
    && Stores(r.tables, i.dataFreed, i.systemFreed, i.dataAllocated)
    && Fits(r.tables, i.id + 1, unprocessed)
    && r.id == i.id && r.data == i.data && r.system == i.system
    && r.savepoints == i.savepoints && r.nextSavepoint == i.nextSavepoint
  }

  /** The private fields of a write transaction. */
  datatype Work = Work(data: set<Page>, tables: Tables, freed: seq<Page>, tracking: bool, dirty: bool, immediate: bool,
                       savepoints: map<SpId, Snapshot>, nextSavepoint: nat)

  ghost predicate WorkStored(w: Work, x: Txn, current: Image, unprocessed: set<Tid>) {
    && TxnStored(w.tables, w.freed, x, current, unprocessed)
    && w.data == x.data && w.tracking == x.tracking && w.dirty == x.dirty && w.immediate == x.immediate
    && w.savepoints == x.savepoints && w.nextSavepoint == x.nextSavepoint
  }

  ghost predicate LocalMatches(created: set<Tracker.Deletion>, deleted: seq<Tracker.Deletion>, invalidated: set<SpId>,
                               x: Txn, holders: map<Holder, Tid>)
  {
    && Tracker.Named(created) == x.created && Tracker.Held(created, holders)
    && Tracker.Named(Tracker.Elements(deleted)) == x.deleted && Tracker.Held(Tracker.Elements(deleted), holders)
    && Tracker.Unique(deleted)
    && invalidated == x.invalidated
  }

  ghost predicate TxnStored(t: Tables, freed: seq<Page>, x: Txn, current: Image, unprocessed: set<Tid>) {
    && Stores(t, x.dataFreed, current.systemFreed, current.dataAllocated)
    && Fits(t, x.id, unprocessed)
    && NoDuplicates(freed) && PageTables.Elements(freed) == x.freed
  }

  lemma ImageStoredFewer(r: Roots, i: Image, unprocessed: set<Tid>)
    requires ImageStored(r, i, unprocessed)
    ensures ImageStored(r, i, {})
  {
  }

  // ---------------------------------------------------------------- what the invariant gives a commit

  /** The page classes a commit works on are apart from each other and allocated. */
  ghost predicate Apart(alloc: set<Page>, system: set<Page>, queued: set<Page>, systemFreed: set<Page>) {
    && queued !! systemFreed && queued !! system && system !! systemFreed
    && queued + systemFreed + system <= alloc
  }

  ghost predicate Ready(s: State, x: Txn) {
    && x.freed !! x.dataFreed.Keys
    && s.uncommitted !! s.current.dataAllocated.Keys
    && Apart(s.alloc, s.current.system, x.freed + x.dataFreed.Keys, s.current.systemFreed.Keys)
    && s.uncommitted <= s.alloc
    && s.current.id < x.id
    && FreeUntilNonDurable(s, x.id) <= x.id
  }

  /** New references are new, and every persistent savepoint of the transaction holds one. */
  ghost predicate ReferencesReady(s: State, x: Txn) {
    && Ephemeral(s.nextSp + 1) !in s.holders && Persistent(s.nextSp + 1) !in s.holders
    && NonDurable(x.id) !in s.holders
    && Referenced(x.savepoints, x.deleted, s.holders)
    && s.nextSp + 1 !in x.created
    && (!x.immediate ==> x.deleted == {})
  }

  ghost predicate Referenced(savepoints: map<SpId, Snapshot>, deleted: set<SpId>, holders: map<Holder, Tid>) {
    forall sp :: sp in savepoints ==>
      sp !in deleted && Persistent(sp) in holders && holders[Persistent(sp)] == savepoints[sp].tid
  }

  lemma InvReady(s: State)
    requires Inv(s) && s.txn.Some?
    ensures Ready(s, s.txn.value) && ReferencesReady(s, s.txn.value)
  {
    PagesReady(s, s.txn.value);
    UntilBound(s, s.txn.value.id);
    HoldersReady(s, s.txn.value);
  }

  lemma UntilBound(s: State, own: Tid)
    requires TrackerOk(s.holders, s.current.id, s.durable.id) && s.current.id < own
    ensures FreeUntilNonDurable(s, own) <= own
  {
    var ids := s.holders.Values * Pending(s.holders);
    if ids != {} {
      var h :| h in s.holders && s.holders[h] == Min(ids);
    }
  }

  lemma HoldersReady(s: State, x: Txn)
    requires HoldersOk(s) && IdsOk(s) && s.txn == Some(x) && TxnTable(x, s.current.savepoints, s.valid, s.nextSp)
    requires TxnFlags(x, s.current, s.uncommitted, s.valid)
    ensures ReferencesReady(s, x)
  {
    forall sp | sp in x.savepoints
      ensures sp !in x.deleted && Persistent(sp) in s.holders && s.holders[Persistent(sp)] == x.savepoints[sp].tid
    {
      assert sp in s.current.savepoints.Keys || sp in x.created;
    }
    assert Persistent(s.nextSp + 1) !in s.holders;
  }

  lemma PagesReady(s: State, x: Txn)
    requires Disjoint(s.current) && LedgersOk(s.current) && Partition(s.alloc, s.uncommitted, s.current)
    requires TxnPages(TxnView(x), s.current, s.uncommitted)
    ensures x.freed !! x.dataFreed.Keys
    ensures s.uncommitted !! s.current.dataAllocated.Keys && s.uncommitted <= s.alloc
    ensures Apart(s.alloc, s.current.system, x.freed + x.dataFreed.Keys, s.current.systemFreed.Keys)
  {
  }

  lemma MarksWithout(valid: map<SpId, Snapshot>, gone: set<SpId>)
    ensures Tracker.Marks(valid) - gone == Tracker.Marks(valid - gone)
  {
  }

  lemma SettledHolders(holders: map<Holder, Tid>, deleted: set<SpId>)
    ensures Tracker.WithoutPersistent(map h | h in holders && !h.NonDurable? :: holders[h], deleted)
         == map h | h in holders && !h.NonDurable? && !(h.Persistent? && h.sp in deleted) :: holders[h]
  {
  }

  lemma StillHeld(ds: set<Tracker.Deletion>, holders: map<Holder, Tid>, now: map<Holder, Tid>)
    requires Tracker.Held(ds, holders)
    requires forall h :: h in holders && h.Persistent? ==> h in now && now[h] == holders[h]
    ensures Tracker.Held(ds, now)
  {
  }

  // ---------------------------------------------------------------- the pieces of a commit

  /** The transaction's own pages are listed under `id`; the system table is not touched yet. */
  ghost predicate Prepared(u: Tables, id: Tid, unprocessed: set<Tid>, df: Ledger, sf: Ledger, da: Ledger) {
    && Stores(u, df, sf, da)
    && TableFits(u.dataFreed, id + 1, unprocessed + {id})
    && TableFits(u.systemFreed, id, unprocessed)
    && TableFits(u.dataAllocated, id + 1, {})
  }

  /** `commit_inner` up to the durability choice. */
  method PrepareCommit(tracker: Tracker.TransactionTracker, t: Tables, id: Tid, freed: seq<Page>, tracking: bool,
                       uncommitted: set<Page>, ghost s: State, ghost x: Txn)
    returns (u: Tables)
    requires TrackerMatches(tracker, s) && id == x.id && tracking == x.tracking && uncommitted == s.uncommitted
    requires TxnStored(t, freed, x, s.current, s.unprocessed)
    requires Ready(s, x)
    ensures Prepared(u, id, s.unprocessed, x.dataFreed + Tag(x.freed, x.id), s.current.systemFreed,
                     AllocatedAfterCommit(s, x))
  {
    var recent := [];
    if tracking {
      recent := ToList(uncommitted);
    }
    assert PageTables.Elements([]) == {};
    var oldest := tracker.OldestSavepointId(s.valid);
    u := StoreTransaction(t, id, freed, recent, oldest, tracker.unprocessed,
                          x.dataFreed, s.current.systemFreed, s.current.dataAllocated);
  }

  /** `durable_commit` as far as tables and memory go. */
  method DurablePages(mem: Memory, t: Tables, id: Tid, until: Tid, wanted: set<Page>, sysDropped: seq<Page>,
                      quick: bool, unprocessed: set<Tid>, ghost system: set<Page>, ghost df: Ledger, ghost sf: Ledger,
                      ghost da: Ledger)
    returns (u: Tables, sysNew: set<Page>)
    requires Prepared(t, id, unprocessed, df, sf, da) && Apart(mem.alloc, system, df.Keys, sf.Keys)
    requires PageTables.Elements(sysDropped) <= system && NoDuplicates(sysDropped)
    modifies mem
    ensures sysNew == wanted - (old(mem.alloc) - (Before(df, until) + Before(sf, until)))
    ensures mem.alloc == old(mem.alloc) - (Before(df, until) + Before(sf, until)) + sysNew
                         - (if quick then {} else PageTables.Elements(sysDropped))
    ensures mem.uncommitted == {} && mem.unpersisted == {}
    ensures Stores(u, KeepFrom(df, until),
                   KeepFrom(sf, until) + Tag(if quick then PageTables.Elements(sysDropped) else {}, id), da)
    ensures Fits(u, id + 1, unprocessed)
  {
    FitsWider(t.dataFreed, id + 1, unprocessed + {id}, id + 1, unprocessed);
    u := ReleaseDurable(mem, t, id, until, sysDropped, quick, unprocessed, df, sf, da);
    sysNew := mem.Allocate(wanted);
    mem.Commit();
    if !quick {
      mem.FreeList(sysDropped);
    }
  }

  /** Tables and memory through `durable_commit`, as the protocol states them. */
  method DurableWork(mem: Memory, t: Tables, w: Work, system: set<Page>, id: Tid, until: Tid, unprocessed: set<Tid>,
                     wanted: set<Page>, sysDropped: seq<Page>, quick: bool, ghost s: State, ghost x: Txn)
    returns (r: Roots, sysNew: set<Page>)
    requires MemoryMatches(mem, s) && Ready(s, x) && id == x.id && until == FreeUntil(s.holders, x.id)
    requires unprocessed == s.unprocessed && system == s.current.system && x.immediate
    requires w.data == x.data && w.savepoints == x.savepoints && w.nextSavepoint == x.nextSavepoint
    requires Prepared(t, id, s.unprocessed, x.dataFreed + Tag(x.freed, x.id), s.current.systemFreed,
                      AllocatedAfterCommit(s, x))
    requires NoDuplicates(sysDropped) && PageTables.Elements(sysDropped) <= system
    modifies mem
    ensures CanCommitDurable(s, x, sysNew, PageTables.Elements(sysDropped))
    ensures sysNew == wanted - (s.alloc - DurableReleased(s, x))
    ensures MemoryMatches(mem, DurableCommit(s, x, sysNew, PageTables.Elements(sysDropped), quick))
    ensures ImageStored(r, DurableImage(s, x, sysNew, PageTables.Elements(sysDropped), quick), s.unprocessed)
  {
    ghost var queued := x.dataFreed + Tag(x.freed, x.id);
    assert queued.Keys == x.freed + x.dataFreed.Keys;
    var u;
    u, sysNew := DurablePages(mem, t, id, until, wanted, sysDropped, quick, unprocessed, system,
                              queued, s.current.systemFreed, AllocatedAfterCommit(s, x));
    r := Roots(id, w.data, system - PageTables.Elements(sysDropped) + sysNew, u, w.savepoints, w.nextSavepoint);
  }

  /** `non_durable_commit` as far as tables and memory go. */
  method NonDurablePages(mem: Memory, t: Tables, id: Tid, until: Tid, wanted: set<Page>, sysDropped: seq<Page>,
                         unprocessed: set<Tid>, ghost system: set<Page>, ghost df: Ledger, ghost sf: Ledger,
                         ghost da: Ledger)
    returns (u: Tables, sysNew: set<Page>, processed: seq<Tid>)
    requires Prepared(t, id, unprocessed, df, sf, da) && Apart(mem.alloc, system, df.Keys, sf.Keys)
    requires PageTables.Elements(sysDropped) <= system && NoDuplicates(sysDropped) && until <= id
    modifies mem
    ensures forall tid :: tid in processed ==> tid in unprocessed && tid < until
    ensures forall tid :: tid in unprocessed && tid < until && (tid in df.Values || tid in sf.Values) ==>
              tid in processed
    ensures var (a, b, v) := (Under(df, Ids(processed)) * old(mem.unpersisted),
                              Under(sf, Ids(processed)) * old(mem.unpersisted),
                              old(mem.unpersisted));
            && sysNew == wanted - (old(mem.alloc) - (a + b))
            && mem.alloc == old(mem.alloc) - (a + b) + sysNew - PageTables.Elements(sysDropped) * v
            && mem.unpersisted == v - (a + b) + old(mem.uncommitted) + sysNew
            && Stores(u, Drop(df, a), Drop(sf, b) + Tag(PageTables.Elements(sysDropped) - v, id), da)
    ensures mem.uncommitted == {} && Fits(u, id + 1, unprocessed - Ids(processed) + {id})
  {
    ghost var volatile := mem.unpersisted;
    FitsWider(t.dataFreed, id + 1, unprocessed + {id}, id + 1, unprocessed);
    var dataFreed, systemFreed;
    dataFreed, systemFreed, processed := ReleaseVolatile(mem, t, until, unprocessed, df, sf);
    ghost var b := Under(sf, Ids(processed)) * volatile;
    assert PageTables.Elements(sysDropped) * mem.unpersisted == PageTables.Elements(sysDropped) * volatile;
    assert PageTables.Elements(sysDropped) - mem.unpersisted == PageTables.Elements(sysDropped) - volatile;
    VolatileFits(t, dataFreed, systemFreed, id, unprocessed, processed);
    var postCommit;
    systemFreed, postCommit := StoreVolatile(systemFreed, id, sysDropped, mem.unpersisted, unprocessed - Ids(processed),
                                             Drop(sf, b));
    u := Tables(dataFreed, systemFreed, t.dataAllocated);
    sysNew := mem.Allocate(wanted);
    mem.CommitInMemory();
    mem.FreeList(postCommit);
  }

  lemma VolatileFits(t: Tables, dataFreed: Table, systemFreed: Table, id: Tid, unprocessed: set<Tid>,
                     processed: seq<Tid>)
    requires TableFits(t.dataFreed, id + 1, unprocessed + {id}) && TableFits(t.systemFreed, id, unprocessed)
    requires Untouched(dataFreed, t.dataFreed, Ids(processed)) && Untouched(systemFreed, t.systemFreed, Ids(processed))
    requires id !in Ids(processed)
    ensures TableFits(dataFreed, id + 1, unprocessed - Ids(processed) + {id})
    ensures TableFits(systemFreed, id, unprocessed - Ids(processed))
  {
    FitsDrained(dataFreed, t.dataFreed, id + 1, unprocessed + {id}, Ids(processed));
    FitsDrained(systemFreed, t.systemFreed, id, unprocessed, Ids(processed));
    assert unprocessed + {id} - Ids(processed) == unprocessed - Ids(processed) + {id};
  }

  lemma ReleasedMatches(s: State, l: Ledger, processed: set<Tid>)
    ensures NonDurableReleased(s, l, processed) == Under(l, processed) * s.unpersisted
  {
  }

  /** Tables and memory through `non_durable_commit`, as the protocol states them. */
  method NonDurableWork(mem: Memory, t: Tables, w: Work, system: set<Page>, id: Tid, until: Tid, unprocessed: set<Tid>,
                        wanted: set<Page>, sysDropped: seq<Page>, ghost s: State, ghost x: Txn)
    returns (r: Roots, sysNew: set<Page>, processed: seq<Tid>)
    requires MemoryMatches(mem, s) && Ready(s, x) && id == x.id && until == FreeUntilNonDurable(s, x.id)
    requires unprocessed == s.unprocessed && system == s.current.system && !x.immediate
    requires w.data == x.data && w.savepoints == x.savepoints && w.nextSavepoint == x.nextSavepoint
    requires Prepared(t, id, s.unprocessed, x.dataFreed + Tag(x.freed, x.id), s.current.systemFreed,
                      AllocatedAfterCommit(s, x))
    requires NoDuplicates(sysDropped) && PageTables.Elements(sysDropped) <= system
    modifies mem
    ensures CanCommitNonDurable(s, x, sysNew, PageTables.Elements(sysDropped), Ids(processed))
    ensures sysNew == wanted - (s.alloc - NonDurableReleasedAll(s, x, Ids(processed)))
    ensures MemoryMatches(mem, NonDurableCommit(s, x, sysNew, PageTables.Elements(sysDropped), Ids(processed)))
    ensures ImageStored(r, NonDurableImage(s, x, sysNew, PageTables.Elements(sysDropped), Ids(processed)),
                        s.unprocessed - Ids(processed) + {x.id})
  {
    ghost var queued := x.dataFreed + Tag(x.freed, x.id);
    assert queued.Keys == x.freed + x.dataFreed.Keys;
    var u;
    u, sysNew, processed := NonDurablePages(mem, t, id, until, wanted, sysDropped, unprocessed, system,
                                            queued, s.current.systemFreed, AllocatedAfterCommit(s, x));
    ReleasedMatches(s, queued, Ids(processed));
    ReleasedMatches(s, s.current.systemFreed, Ids(processed));
    r := Roots(id, w.data, system - PageTables.Elements(sysDropped) + sysNew, u, w.savepoints, w.nextSavepoint);
  }

  // ---------------------------------------------------------------- the tracker's side

  method NonDurableTracker(tracker: Tracker.TransactionTracker, local: Tracker.SavepointState, id: Tid, ancestor: Tid,
                           processed: seq<Tid>, ghost s: State, ghost x: Txn, ghost now: State)
    requires TrackerMatches(tracker, s) && s.txn == Some(x) && id == x.id && ancestor == s.durable.id
    requires LocalMatches(local.created, local.deleted, local.invalidated, x, s.holders)
    requires x.deleted == {} && NonDurable(x.id) !in s.holders
    requires now.holders == s.holders[NonDurable(x.id) := s.durable.id]
    requires now.valid == s.valid - x.invalidated && now.txn == None
    requires now.unprocessed == s.unprocessed - Ids(processed) + {x.id}
    requires now.nextTid == s.nextTid && now.nextSp == s.nextSp
    modifies tracker, local
    ensures TrackerMatches(tracker, now)
  {
    tracker.MarkProcessed(processed);
    tracker.RegisterNonDurable(id, ancestor);
    StillHeld(Tracker.Elements(local.deleted), s.holders, tracker.holders);
    local.ApplyOnCommit(tracker);
    assert Tracker.WithoutPersistent(now.holders, {}) == now.holders;
    MarksWithout(s.valid, {});
    MarksWithout(s.valid - {}, x.invalidated);
    assert s.valid - {} == s.valid;
    tracker.EndWrite(id);
  }

  method DurableTracker(tracker: Tracker.TransactionTracker, local: Tracker.SavepointState, id: Tid,
                        ghost s: State, ghost x: Txn, ghost now: State)
    requires TrackerMatches(tracker, s) && s.txn == Some(x) && id == x.id
    requires LocalMatches(local.created, local.deleted, local.invalidated, x, s.holders)
    requires now.holders
          == map h | h in s.holders && !h.NonDurable? && !(h.Persistent? && h.sp in x.deleted) :: s.holders[h]
    requires now.valid == s.valid - x.deleted - x.invalidated && now.txn == None
    requires now.unprocessed == s.unprocessed && now.nextTid == s.nextTid && now.nextSp == s.nextSp
    modifies tracker, local
    ensures TrackerMatches(tracker, now)
  {
    tracker.ClearPending();
    StillHeld(Tracker.Elements(local.deleted), s.holders, tracker.holders);
    local.ApplyOnCommit(tracker);
    SettledHolders(s.holders, x.deleted);
    MarksWithout(s.valid, x.deleted);
    MarksWithout(s.valid - x.deleted, x.invalidated);
    tracker.EndWrite(id);
  }

  // ---------------------------------------------------------------- restoring a savepoint

  lemma RecordMore(ds: seq<Tracker.Deletion>, d: Tracker.Deletion, holders: map<Holder, Tid>)
    requires Tracker.Unique(ds) && Tracker.Held(Tracker.Elements(ds), holders)
    requires d.sp !in Tracker.Named(Tracker.Elements(ds))
    requires Persistent(d.sp) in holders && holders[Persistent(d.sp)] == d.tid
    ensures Tracker.Unique(ds + [d]) && Tracker.Held(Tracker.Elements(ds + [d]), holders)
    ensures Tracker.Named(Tracker.Elements(ds + [d])) == Tracker.Named(Tracker.Elements(ds)) + {d.sp}
  {
    assert Tracker.Elements(ds + [d]) == Tracker.Elements(ds) + {d};
    assert forall i :: 0 <= i < |ds| ==> ds[i] in Tracker.Elements(ds);
  }

  /** `delete_persistent_savepoint` on every entry newer than `sp`, each recorded once. */
  method DeleteNewer(local: Tracker.SavepointState, savepoints: map<SpId, Snapshot>, sp: SpId,
                     ghost holders: map<Holder, Tid>)
    returns (left: map<SpId, Snapshot>)
    requires Tracker.Unique(local.deleted) && Tracker.Held(Tracker.Elements(local.deleted), holders)
    requires Referenced(savepoints, Tracker.Named(Tracker.Elements(local.deleted)), holders)
    modifies local`deleted
    ensures left == savepoints - NewerThan(savepoints.Keys, sp)
    ensures Tracker.Unique(local.deleted) && Tracker.Held(Tracker.Elements(local.deleted), holders)
    ensures Tracker.Named(Tracker.Elements(local.deleted))
         == old(Tracker.Named(Tracker.Elements(local.deleted))) + NewerThan(savepoints.Keys, sp)
  {
    left := savepoints;
    var todo := NewerThan(savepoints.Keys, sp);
    ghost var all := todo;
    while todo != {}
      invariant todo <= all && left == savepoints - (all - todo)
      invariant Tracker.Unique(local.deleted) && Tracker.Held(Tracker.Elements(local.deleted), holders)
      invariant Tracker.Named(Tracker.Elements(local.deleted))
             == old(Tracker.Named(Tracker.Elements(local.deleted))) + (all - todo)
    {
      var id :| id in todo;
      var d := Tracker.Deletion(id, left[id].tid);
      RecordMore(local.deleted, d, holders);
      local.deleted := local.deleted + [d];
      left, todo := left - {id}, todo - {id};
    }
  }

  /** Steps 1a and 2 of `restore_savepoint` on the tables. */
  method RestoreTables(t: Tables, target: Snapshot, ghost s: State, ghost x: Txn, ghost sp: SpId,
                       ghost freed: seq<Page>)
    returns (u: Tables, queue: seq<Page>)
    requires TxnStored(t, freed, x, s.current, s.unprocessed) && sp in s.valid && s.valid[sp] == target
    ensures TxnStored(u, queue, RestoreTxn(s, x, sp), s.current, s.unprocessed)
  {
    var dataFreed := PurgeAfter(t.dataFreed, target.tid, x.dataFreed);
    FitsFiltered(dataFreed, t.dataFreed, x.id, s.unprocessed, target.tid);
    queue := CollectAfter(t.dataAllocated, target.tid, s.current.dataAllocated);
    u := t.(dataFreed := dataFreed);
  }
}
