/**
 What a savepoint promises: restoring it brings back exactly its pages, and it survives a crash.
 */
module MvccSavepoints {
  import opened Ledgers
  import opened Mvcc
  import opened MvccInvariant
  import opened MvccCommit
  import MvccDurable
  import MvccNonDurable
  import MvccRestore
  import MvccSteps
  import MvccTheorems

  /** The data pages `t` has queued after transaction `since`, all under `own`. */
  ghost predicate QueuedExactly(l: Ledger, since: Tid, own: Tid, pages: set<Page>) {
    && After(l, since) == pages
    && (forall p :: p in pages ==> p in l && l[p] == own)
  }

  lemma RestoredQueue(s: State, x: Txn, sp: SpId, gone: set<Page>)
    requires sp in s.valid && s.valid[sp].tid < x.id
    requires gone !! After(Queued(RestoreTxn(s, x, sp)), s.valid[sp].tid)
    ensures QueuedExactly(Drop(Queued(RestoreTxn(s, x, sp)), gone), s.valid[sp].tid, x.id,
                          After(s.current.dataAllocated, s.valid[sp].tid))
  {
    var y := RestoreTxn(s, x, sp);
    assert forall p :: p in After(s.current.dataAllocated, s.valid[sp].tid) ==> p in After(Queued(y), s.valid[sp].tid);
  }

  /**
   Restore and durable commit: the new data root has exactly the savepoint's pages, and exactly
   the pages allocated since are queued, each once, under the restoring transaction.
   */
  lemma RestoreThenDurableCommit(s: State, sp: SpId, sysNew: set<Page>, sysDropped: set<Page>, quick: bool)
    requires Inv(s) && s.txn.Some? && CanRestore(s, s.txn.value, sp)
    requires var t := Restored(s, s.txn.value, sp); CanCommitDurable(t, t.txn.value, sysNew, sysDropped)
    ensures var t := Restored(s, s.txn.value, sp);
            var u := DurableCommit(t, t.txn.value, sysNew, sysDropped, quick);
            var since := s.valid[sp].tid;
            && Inv(u)
            && u.current.data == s.valid[sp].pages
            && QueuedExactly(u.current.dataFreed, since, s.txn.value.id, After(s.current.dataAllocated, since))
            && s.current.data <= u.current.data + u.current.dataFreed.Keys
  {
    var t := Restored(s, s.txn.value, sp);
    var y := t.txn.value;
    MvccRestore.RestoreInv(s, sp);
    MvccDurable.DurableInv(t, sysNew, sysDropped, quick);
    var gone := Before(Queued(y), FreeUntil(t.holders, y.id));
    MvccDurable.DurableHarmless(t, y);
    MvccDurable.DurableImageIsCommit(t, y, sysNew, sysDropped, quick);
    assert TaggedOk(s.current.id, s.current.dataAllocated, s.valid[sp]);
    RestoredQueue(s, s.txn.value, sp, gone);
    CommitKeepsRoot(t, y, gone);
  }

  /** The same without durability. */
  lemma RestoreThenNonDurableCommit(s: State, sp: SpId, sysNew: set<Page>, sysDropped: set<Page>, processed: set<Tid>)
    requires Inv(s) && s.txn.Some? && CanRestore(s, s.txn.value, sp)
    requires var t := Restored(s, s.txn.value, sp); CanCommitNonDurable(t, t.txn.value, sysNew, sysDropped, processed)
    ensures var t := Restored(s, s.txn.value, sp);
            var u := NonDurableCommit(t, t.txn.value, sysNew, sysDropped, processed);
            var since := s.valid[sp].tid;
            && Inv(u)
            && u.current.data == s.valid[sp].pages
            && QueuedExactly(u.current.dataFreed, since, s.txn.value.id, After(s.current.dataAllocated, since))
            && s.durable.data <= u.current.data + u.current.dataFreed.Keys
  {
    var t := Restored(s, s.txn.value, sp);
    var y := t.txn.value;
    MvccRestore.RestoreInv(s, sp);
    MvccNonDurable.NonDurableInv(t, sysNew, sysDropped, processed);
    var gone := NonDurableReleased(t, Queued(y), processed);
    MvccNonDurable.SavedIsOld(t);
    MvccNonDurable.NonDurableHarmless(t, y, processed);
    assert TaggedOk(s.current.id, s.current.dataAllocated, s.valid[sp]);
    RestoredQueue(s, s.txn.value, sp, gone);
  }

  /** The root committed last is still reachable from the next root or queued. */
  lemma CommitKeepsRoot(t: State, y: Txn, gone: set<Page>)
    requires Inv(t) && t.txn == Some(y) && gone == Before(Queued(y), FreeUntil(t.holders, y.id))
    ensures t.current.data <= y.data + Drop(Queued(y), gone).Keys
  {
    MvccTheorems.DurableCommitOverwritesNothingLive(t, y);
    assert gone <= DurableReleased(t, y);
    assert Cover(TxnView(y), Root(t.current));
  }

  // ---------------------------------------------------------------- crash

  /**
   Repair walks the two durable roots and the two freed tables, never a savepoint root; still the
   rebuilt allocator covers every page of every persistent savepoint.
   */
  lemma RepairCoversSavepoints(s: State, sp: SpId)
    requires Inv(s) && sp in s.durable.savepoints
    ensures s.durable.savepoints[sp].pages <= Repaired(s.durable)
    ensures s.durable.dataAllocated.Keys <= Repaired(s.durable)
  {
    assert Conserve(ImageView(s.durable), s.durable.dataAllocated, {}, s.durable.savepoints[sp]);
  }

  /** After the repair every persistent savepoint is registered before anything can be freed. */
  lemma SavepointsSurviveCrash(s: State, sp: SpId)
    requires Inv(s) && sp in s.durable.savepoints
    ensures var t := Crashed(s);
            && t.alloc == Repaired(s.durable)
            && t.current.data == s.durable.data
            && sp in t.valid && t.valid[sp] == s.durable.savepoints[sp]
            && Persistent(sp) in t.holders && t.holders[Persistent(sp)] == t.valid[sp].tid
            && (var b := Begin(t); b.txn.Some? && CanRestore(b, b.txn.value, sp))
  {
  }

  /** A crash at any point of any run leaves everything live allocated. */
  lemma RunSurvivesCrash(trace: seq<State>, events: seq<Event>, k: nat)
    requires MvccTheorems.Run(trace, events) && k < |trace|
    ensures MvccTheorems.Safe(Crashed(trace[k]))
  {
    MvccTheorems.RunInv(trace, events, k);
    MvccSteps.CrashInv(trace[k]);
    MvccTheorems.InvSafe(Crashed(trace[k]));
  }

  /** So it does every persistent savepoint, restorable as before. */
  lemma RunKeepsSavepoints(trace: seq<State>, events: seq<Event>, k: nat, sp: SpId)
    requires MvccTheorems.Run(trace, events) && k < |trace| && sp in trace[k].durable.savepoints
    ensures var t := Crashed(trace[k]);
            && sp in t.valid && t.valid[sp] == trace[k].durable.savepoints[sp]
            && t.valid[sp].pages <= t.alloc
  {
    RunSurvivesCrash(trace, events, k);
    MvccTheorems.RunInv(trace, events, k);
    SavepointsSurviveCrash(trace[k], sp);
  }
}
