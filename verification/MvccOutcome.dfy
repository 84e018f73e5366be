/**
 What exactly a commit gives back and what a restart finds, page by page and in terms of the
 references that are held.
 */
module MvccOutcome {
  import opened Ledgers
  import opened Mvcc
  import opened MvccInvariant
  import opened MvccTheorems

  // ---------------------------------------------------------------- the two bounds

  /** Some reference is held on a transaction before `t`. */
  ghost predicate HeldBefore(holders: map<Holder, Tid>, t: Tid) {
    exists h :: h in holders && holders[h] < t
  }

  /** Some reference is held on a pending commit before `t`. */
  ghost predicate PendingHeldBefore(holders: map<Holder, Tid>, t: Tid) {
    exists h :: h in holders && holders[h] < t && holders[h] in Pending(holders)
  }

  /** Some savepoint belongs to transaction `t` or an older one. */
  ghost predicate SavedThrough(valid: map<SpId, Snapshot>, t: Tid) {
    exists sp :: sp in valid && valid[sp].tid <= t
  }

  lemma DurableBound(holders: map<Holder, Tid>, own: Tid, t: Tid)
    requires t <= own && forall h :: h in holders ==> holders[h] < own
    ensures t >= FreeUntil(holders, own) <==> t == own || HeldBefore(holders, t)
  {
    if k :| k in holders && holders[k] < t {
      assert holders[k] in holders.Values;
    }
    if holders.Values != {} {
      var m := MinExists(holders.Values);
      var h :| h in holders && holders[h] == m;
    }
  }

  lemma OldestIsFirst(valid: map<SpId, Snapshot>, t: Tid)
    requires Ordered(valid)
    ensures SavedThrough(valid, t) <==> OldestSavepoint(valid).Some? && OldestSavepoint(valid).value <= t
  {
    if valid.Keys != {} {
      var m := MinExists(valid.Keys);
      if sp :| sp in valid && valid[sp].tid <= t {
        assert sp in valid.Keys;
      }
    } else {
      assert forall sp :: sp in valid ==> sp in valid.Keys;
    }
  }

  lemma VolatileBound(s: State, own: Tid, t: Tid)
    requires Ordered(s.valid) && t <= own && forall h :: h in s.holders ==> s.holders[h] < own
    ensures t >= FreeUntilNonDurable(s, own) <==>
              t == own || PendingHeldBefore(s.holders, t) || SavedThrough(s.valid, t)
  {
    OldestIsFirst(s.valid, t);
    var ids := s.holders.Values * Pending(s.holders);
    if ids != {} {
      var m := MinExists(ids);
      var h :| h in s.holders && s.holders[h] == m;
      if k :| k in s.holders && s.holders[k] < t && s.holders[k] in Pending(s.holders) {
        assert s.holders[k] in ids;
      }
    } else {
      assert forall h :: h in s.holders ==> s.holders[h] !in Pending(s.holders) || s.holders[h] in ids;
    }
  }

  // ---------------------------------------------------------------- what a commit gives back

  /** The data page `p` is waiting to be freed, since transaction `t`. */
  ghost predicate Waits(x: Txn, p: Page, t: Tid) {
    (p in x.freed && t == x.id) || (p in x.dataFreed && p !in x.freed && t == x.dataFreed[p])
  }

  lemma WaitsQueued(x: Txn, p: Page, t: Tid)
    ensures Waits(x, p, t) <==> p in x.dataFreed + Tag(x.freed, x.id) && (x.dataFreed + Tag(x.freed, x.id))[p] == t
  {
  }

  /** Ids of a state with a writer: every reference and every queued page is older than the writer. */
  lemma WriterIsLast(s: State, x: Txn)
    requires Inv(s) && s.txn == Some(x)
    ensures forall h :: h in s.holders ==> s.holders[h] < x.id
    ensures forall p: Page, t: Tid :: Waits(x, p, t) ==> t <= x.id
    ensures forall p :: p in s.current.systemFreed ==> s.current.systemFreed[p] < x.id
  {
  }

  /** A data page waiting since `t` stays exactly if the transaction has just dropped it or somebody older reads. */
  lemma DurableKeeps(s: State, e: Event, p: Page, t: Tid)
    requires Inv(s) && Guarded(s, e) && e.CommitDurable? && s.txn.Some? && Waits(s.txn.value, p, t)
    ensures var u := Next(s, e);
            && (p in u.current.dataFreed <==> t == s.txn.value.id || HeldBefore(s.holders, t))
            && (p in u.current.dataFreed ==> u.current.dataFreed[p] == t)
  {
    var x := s.txn.value;
    NextDurable(s, e);
    WriterIsLast(s, x);
    WaitsQueued(x, p, t);
    DurableBound(s.holders, x.id, t);
  }

  /** The same for a system page, which the transaction itself queues with quick repair only. */
  lemma DurableKeepsSystem(s: State, e: Event, p: Page)
    requires Inv(s) && Guarded(s, e) && e.CommitDurable? && s.txn.Some?
    requires p in s.current.systemFreed
    ensures var u := Next(s, e);
            && (p in u.current.systemFreed <==> HeldBefore(s.holders, s.current.systemFreed[p]))
            && (p in u.current.systemFreed ==> u.current.systemFreed[p] == s.current.systemFreed[p])
  {
    var x := s.txn.value;
    NextDurable(s, e);
    WriterIsLast(s, x);
    DurableBound(s.holders, x.id, s.current.systemFreed[p]);
    assert p !in e.sysDropped;
  }

  /** No page is queued that was not, except what the commit itself drops. */
  lemma DurableQueuesNothingElse(s: State, e: Event, p: Page)
    requires Inv(s) && Guarded(s, e) && e.CommitDurable? && s.txn.Some?
    ensures var u := Next(s, e);
            && (p in u.current.dataFreed ==> p in s.txn.value.freed || p in s.txn.value.dataFreed)
            && (p in u.current.systemFreed ==> p in s.current.systemFreed || (e.quickRepair && p in e.sysDropped))
            && (e.quickRepair && p in e.sysDropped ==>
                  p in u.current.systemFreed && u.current.systemFreed[p] == s.txn.value.id)
  {
    NextDurable(s, e);
  }

  /** Exactly the two trees and the two queues are allocated afterwards; nothing that left them is. */
  lemma DurableAllocated(s: State, e: Event)
    requires Inv(s) && Guarded(s, e) && e.CommitDurable? && s.txn.Some?
    ensures var u, x := Next(s, e), s.txn.value;
            && u.current == u.durable && u.txn.None? && u.uncommitted == {} && u.unpersisted == {}
            && u.current.id == x.id && u.current.data == x.data
            && u.current.system == s.current.system - e.sysDropped + e.sysNew
            && u.alloc == x.data + u.current.system + u.current.dataFreed.Keys + u.current.systemFreed.Keys
  {
    NextDurable(s, e);
    DurableStepInv(s, e);
    InvPartition(Next(s, e));
  }

  /** A page that waited and does not any more is free, unless it was handed out again. */
  lemma DurableFrees(s: State, e: Event, p: Page, t: Tid)
    requires Inv(s) && Guarded(s, e) && e.CommitDurable? && s.txn.Some? && Waits(s.txn.value, p, t)
    requires t != s.txn.value.id && !HeldBefore(s.holders, t) && p !in e.sysNew
    ensures p !in Next(s, e).alloc
  {
    DurableKeeps(s, e, p, t);
    DurableAllocated(s, e);
    DurableQueuesNothingElse(s, e, p);
    PagesApart(s, s.txn.value, p);
  }

  lemma PagesApart(s: State, x: Txn, p: Page)
    requires Inv(s) && s.txn == Some(x) && (p in x.freed || p in x.dataFreed)
    ensures p !in x.data && p !in s.current.system && p !in s.current.systemFreed
  {
  }

  lemma DurableFreesSystem(s: State, e: Event, p: Page)
    requires Inv(s) && Guarded(s, e) && e.CommitDurable? && s.txn.Some? && p in s.current.systemFreed
    requires !HeldBefore(s.holders, s.current.systemFreed[p]) && p !in e.sysNew
    ensures p !in Next(s, e).alloc
  {
    DurableKeepsSystem(s, e, p);
    DurableAllocated(s, e);
    DurableQueuesNothingElse(s, e, p);
    SystemApart(s, s.txn.value, p);
  }

  lemma SystemApart(s: State, x: Txn, p: Page)
    requires Inv(s) && s.txn == Some(x) && p in s.current.systemFreed
    ensures p !in x.data && p !in s.current.system && p !in x.freed && p !in x.dataFreed
  {
  }

  // ---------------------------------------------------------------- the non-durable commit

  /**
   A page that waits goes exactly if it was never persisted, its transaction is an unprocessed
   non-durable one, no pending commit before it is read, and no savepoint is as old.
   */
  ghost predicate Reclaimable(s: State, p: Page, t: Tid) {
    p in s.unpersisted && t in s.unprocessed && !PendingHeldBefore(s.holders, t) && !SavedThrough(s.valid, t)
  }

  lemma VolatileKeeps(s: State, e: Event, p: Page, t: Tid)
    requires Inv(s) && Guarded(s, e) && e.CommitNonDurable? && s.txn.Some? && Waits(s.txn.value, p, t)
    ensures var u := Next(s, e);
            && (p in u.current.dataFreed <==> t == s.txn.value.id || !Reclaimable(s, p, t))
            && (p in u.current.dataFreed ==> u.current.dataFreed[p] == t)
  {
    var x := s.txn.value;
    NextNonDurable(s, e);
    WriterIsLast(s, x);
    WaitsQueued(x, p, t);
    VolatileBound(s, x.id, t);
    DueAre(s, x, e.processed, t);
  }

  lemma DueAre(s: State, x: Txn, processed: set<Tid>, t: Tid)
    requires Due(s, x) <= processed <= s.unprocessed && forall u :: u in processed ==> u < FreeUntilNonDurable(s, x.id)
    requires t in (x.dataFreed + Tag(x.freed, x.id)).Values || t in s.current.systemFreed.Values
    ensures t in processed <==> t in s.unprocessed && t < FreeUntilNonDurable(s, x.id)
  {
  }

  lemma VolatileKeepsSystem(s: State, e: Event, p: Page)
    requires Inv(s) && Guarded(s, e) && e.CommitNonDurable? && s.txn.Some? && p in s.current.systemFreed
    ensures var u, t := Next(s, e), s.current.systemFreed[p];
            && (p in u.current.systemFreed <==> !Reclaimable(s, p, t))
            && (p in u.current.systemFreed ==> u.current.systemFreed[p] == t)
  {
    var x, t := s.txn.value, s.current.systemFreed[p];
    NextNonDurable(s, e);
    WriterIsLast(s, x);
    VolatileBound(s, x.id, t);
    DueAre(s, x, e.processed, t);
    assert p !in e.sysDropped;
  }

  lemma VolatileQueuesNothingElse(s: State, e: Event, p: Page)
    requires Inv(s) && Guarded(s, e) && e.CommitNonDurable? && s.txn.Some?
    ensures var u := Next(s, e);
            && (p in u.current.dataFreed ==> p in s.txn.value.freed || p in s.txn.value.dataFreed)
            && (p in u.current.systemFreed ==> p in s.current.systemFreed || p in e.sysDropped - s.unpersisted)
            && (p in e.sysDropped - s.unpersisted ==>
                  p in u.current.systemFreed && u.current.systemFreed[p] == s.txn.value.id)
  {
    NextNonDurable(s, e);
  }

  lemma VolatileAllocated(s: State, e: Event)
    requires Inv(s) && Guarded(s, e) && e.CommitNonDurable? && s.txn.Some?
    ensures var u, x := Next(s, e), s.txn.value;
            && u.durable == s.durable && u.txn.None? && u.uncommitted == {}
            && u.current.id == x.id && u.current.data == x.data
            && u.current.system == s.current.system - e.sysDropped + e.sysNew
            && u.alloc == x.data + u.current.system + u.current.dataFreed.Keys + u.current.systemFreed.Keys
  {
    NextNonDurable(s, e);
    NonDurableStepInv(s, e);
    InvPartition(Next(s, e));
  }

  // ---------------------------------------------------------------- the ledger of allocations

  /** Page `p` was allocated in transaction `t`, as far as that is tracked. */
  ghost predicate Allocated(s: State, x: Txn, p: Page, t: Tid) {
    if x.tracking && p in s.uncommitted then t == x.id
    else p in s.current.dataAllocated && t == s.current.dataAllocated[p]
  }

  /** After a commit a page is listed exactly as long as some savepoint is as old as its allocation. */
  lemma AllocationsListed(s: State, e: Event, p: Page, t: Tid)
    requires Inv(s) && Guarded(s, e) && (e.CommitDurable? || e.CommitNonDurable?) && s.txn.Some?
    requires Allocated(s, s.txn.value, p, t)
    ensures var l := Next(s, e).current.dataAllocated;
            (p in l <==> SavedThrough(s.valid, t)) && (p in l ==> l[p] == t)
  {
    var x := s.txn.value;
    if e.CommitDurable? {
      NextDurable(s, e);
    } else {
      NextNonDurable(s, e);
    }
    OldestIsFirst(s.valid, t);
    ListedAfter(s, x, p, t);
  }

  /** And no other page is listed. */
  lemma AllocationsListedOnly(s: State, e: Event, p: Page)
    requires Inv(s) && Guarded(s, e) && (e.CommitDurable? || e.CommitNonDurable?) && s.txn.Some?
    requires p in Next(s, e).current.dataAllocated
    ensures Allocated(s, s.txn.value, p, Next(s, e).current.dataAllocated[p])
  {
    if e.CommitDurable? {
      NextDurable(s, e);
    } else {
      NextNonDurable(s, e);
    }
  }

  lemma ListedAfter(s: State, x: Txn, p: Page, t: Tid)
    requires Allocated(s, x, p, t)
    ensures var l := AllocatedAfterCommit(s, x);
            && (p in l <==> OldestSavepoint(s.valid).Some? && OldestSavepoint(s.valid).value <= t)
            && (p in l ==> l[p] == t)
  {
  }

  // ---------------------------------------------------------------- restarts

  /** Everything of the last durable commit is back, and nothing else. */
  ghost predicate Restarted(s: State, u: State, id: Tid) {
    && u.current == u.durable == s.durable.(id := id)
    && u.current.data == s.durable.data && u.current.system == s.durable.system
    && u.alloc == s.durable.data + s.durable.system + s.durable.dataFreed.Keys + s.durable.systemFreed.Keys
    && u.valid == s.durable.savepoints && u.nextSp == s.durable.nextSavepoint
    && (forall h :: h in u.holders <==> h.Persistent? && h.sp in s.durable.savepoints)
    && (forall h :: h in u.holders ==> u.holders[h] == s.durable.savepoints[h.sp].tid)
    && u.readers == map[] && u.txn.None? && u.uncommitted == {} && u.unpersisted == {} && u.unprocessed == {}
    && u.nextTid > u.durable.id
  }

  lemma LoadRestarts(s: State)
    ensures Restarted(s, Next(s, LoadAllocator), s.durable.id)
  {
    NextLoad(s);
    HeldAfterReopening(s.durable, Repaired(s.durable));
  }

  lemma CrashRestarts(s: State)
    ensures Restarted(s, Next(s, CrashAndRepair), s.durable.id + 1)
  {
    NextCrash(s);
    var d := s.durable.(id := s.durable.id + 1);
    HeldAfterReopening(d, Repaired(d));
  }

  lemma HeldAfterReopening(d: Image, alloc: set<Page>)
    ensures var holders := Reopened(d, alloc).holders;
            && (forall h :: h in holders <==> h.Persistent? && h.sp in d.savepoints)
            && (forall h :: h in holders ==> holders[h] == d.savepoints[h.sp].tid)
  {
    var names := set i | i in d.savepoints :: Persistent(i);
    assert forall h :: h in names <==> h.Persistent? && h.sp in d.savepoints;
  }
}
