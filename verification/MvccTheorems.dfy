/**
 What the multi-version protocol guarantees over whole runs.
 */
module MvccTheorems {
  import opened Ledgers
  import opened Mvcc
  import opened MvccInvariant
  import MvccSteps
  import opened MvccCommit
  import MvccRestore
  import MvccDurable
  import MvccNonDurable

  predicate IsRestart(e: Event) {
    e.CrashAndRepair? || e.LoadAllocator?
  }

  /** A step the code can take in which a reader fetches its root only under protection. */
  ghost predicate Guarded(s: State, e: Event) {
    Enabled(s, e) && (e.FetchRoot? ==> RootProtected(s, e.n))
  }

  lemma ReaderStepInv(s: State, e: Event)
    requires Inv(s) && Guarded(s, e) && (e.RegisterRead? || e.FetchRoot? || e.CloseRead?)
    ensures Inv(Next(s, e))
  {
    match e
    case RegisterRead(n) => MvccSteps.RegisterInv(s, n);
    case FetchRoot(n) => MvccSteps.FetchInv(s, n);
    case CloseRead(n) => MvccSteps.CloseInv(s, n);
  }

  lemma WriterStepInv(s: State, e: Event)
    requires Inv(s) && Guarded(s, e)
    requires e.BeginWrite? || e.SetDurability? || e.OpenTable? || e.OpenSystemTable?
    ensures Inv(Next(s, e))
  {
    match e
    case BeginWrite => MvccSteps.BeginInv(s);
    case SetDurability(im) => MvccSteps.FlagInv(s, s.txn.value.(immediate := im));
    case OpenTable => MvccSteps.OpenInv(s);
    case OpenSystemTable => MvccSteps.FlagInv(s, s.txn.value.(dirty := true));
  }

  lemma NextMutate(s: State, e: Event)
    requires Enabled(s, e) && e.Mutate?
    ensures Next(s, e) == Update(s, s.txn.value, e.added, e.dropped)
  {
  }

  lemma MutateStepInv(s: State, e: Event)
    requires Inv(s) && Guarded(s, e) && e.Mutate?
    ensures Inv(Next(s, e))
  {
    NextMutate(s, e);
    MvccSteps.UpdateInv(s, e.added, e.dropped);
  }

  lemma NextAbort(s: State)
    requires Enabled(s, Abort)
    ensures Next(s, Abort) == Aborted(s, s.txn.value)
  {
  }

  lemma AbortStepInv(s: State)
    requires Inv(s) && Guarded(s, Abort)
    ensures Inv(Next(s, Abort))
  {
    NextAbort(s);
    MvccSteps.AbortInv(s);
  }

  lemma NextEphemeral(s: State)
    requires Enabled(s, EphemeralSavepoint)
    ensures Next(s, EphemeralSavepoint) == NewEphemeral(s)
  {
  }

  lemma EphemeralStepInv(s: State)
    requires Inv(s) && Guarded(s, EphemeralSavepoint)
    ensures Inv(Next(s, EphemeralSavepoint))
  {
    NextEphemeral(s);
    MvccSteps.EphemeralInv(s);
  }

  lemma NextPersistent(s: State)
    requires Enabled(s, PersistentSavepoint)
    ensures Next(s, PersistentSavepoint) == NewPersistent(s, s.txn.value)
  {
  }

  lemma PersistentStepInv(s: State)
    requires Inv(s) && Guarded(s, PersistentSavepoint)
    ensures Inv(Next(s, PersistentSavepoint))
  {
    NextPersistent(s);
    MvccSteps.PersistentInv(s);
  }

  lemma NextDrop(s: State, e: Event)
    requires Guarded(s, e) && e.DropSavepoint?
    ensures Ephemeral(e.sp) in s.holders && Next(s, e) == DropHandle(s, e.sp)
  {
  }

  lemma DropStepInv(s: State, e: Event)
    requires Inv(s) && Guarded(s, e) && e.DropSavepoint?
    ensures Inv(Next(s, e))
  {
    NextDrop(s, e);
    MvccSteps.DropHandleInv(s, e.sp);
  }

  lemma NextDelete(s: State, e: Event)
    requires Guarded(s, e) && e.DeletePersistent?
    ensures s.txn.Some? && s.txn.value.immediate && e.sp in s.txn.value.savepoints
            && Next(s, e) == Delete(s, s.txn.value, e.sp)
  {
  }

  lemma DeleteStepInv(s: State, e: Event)
    requires Inv(s) && Guarded(s, e) && e.DeletePersistent?
    ensures Inv(Next(s, e))
  {
    NextDelete(s, e);
    MvccSteps.DeleteInv(s, e.sp);
  }

  lemma NextRestore(s: State, e: Event)
    requires Guarded(s, e) && e.Restore?
    ensures s.txn.Some? && CanRestore(s, s.txn.value, e.sp) && Next(s, e) == Restored(s, s.txn.value, e.sp)
  {
  }

  lemma RestoreStepInv(s: State, e: Event)
    requires Inv(s) && Guarded(s, e) && e.Restore?
    ensures Inv(Next(s, e))
  {
    NextRestore(s, e);
    MvccRestore.RestoreInv(s, e.sp);
  }

  lemma NextDurable(s: State, e: Event)
    requires Guarded(s, e) && e.CommitDurable?
    ensures s.txn.Some? && CanCommitDurable(s, s.txn.value, e.sysNew, e.sysDropped)
    ensures Next(s, e) == DurableCommit(s, s.txn.value, e.sysNew, e.sysDropped, e.quickRepair)
  {
  }

  lemma DurableStepInv(s: State, e: Event)
    requires Inv(s) && Guarded(s, e) && e.CommitDurable?
    ensures Inv(Next(s, e))
  {
    NextDurable(s, e);
    MvccDurable.DurableInv(s, e.sysNew, e.sysDropped, e.quickRepair);
  }

  lemma NextNonDurable(s: State, e: Event)
    requires Guarded(s, e) && e.CommitNonDurable?
    ensures s.txn.Some? && CanCommitNonDurable(s, s.txn.value, e.sysNew, e.sysDropped, e.processed)
    ensures Next(s, e) == NonDurableCommit(s, s.txn.value, e.sysNew, e.sysDropped, e.processed)
  {
  }

  lemma NonDurableStepInv(s: State, e: Event)
    requires Inv(s) && Guarded(s, e) && e.CommitNonDurable?
    ensures Inv(Next(s, e))
  {
    NextNonDurable(s, e);
    MvccNonDurable.NonDurableInv(s, e.sysNew, e.sysDropped, e.processed);
  }

  lemma NextCrash(s: State)
    ensures Next(s, CrashAndRepair) == Crashed(s)
  {
  }

  lemma CrashStepInv(s: State)
    requires Inv(s)
    ensures Inv(Next(s, CrashAndRepair))
  {
    NextCrash(s);
    MvccSteps.CrashInv(s);
  }

  lemma NextLoad(s: State)
    ensures Next(s, LoadAllocator) == Loaded(s)
  {
  }

  lemma LoadStepInv(s: State)
    requires Inv(s)
    ensures Inv(Next(s, LoadAllocator))
  {
    NextLoad(s);
    MvccSteps.LoadedInv(s);
  }

  /** Every step keeps the invariant. */
  lemma StepInv(s: State, e: Event)
    requires Inv(s) && Guarded(s, e)
    ensures Inv(Next(s, e))
  {
    if e.RegisterRead? || e.FetchRoot? || e.CloseRead? {
      ReaderStepInv(s, e);
    } else if e.EphemeralSavepoint? {
      EphemeralStepInv(s);
    } else if e.PersistentSavepoint? {
      PersistentStepInv(s);
    } else if e.DropSavepoint? {
      DropStepInv(s, e);
    } else if e.DeletePersistent? {
      DeleteStepInv(s, e);
    } else if e.Restore? {
      RestoreStepInv(s, e);
    } else if e.CommitDurable? {
      DurableStepInv(s, e);
    } else if e.CommitNonDurable? {
      NonDurableStepInv(s, e);
    } else if e.CrashAndRepair? {
      CrashStepInv(s);
    } else if e.LoadAllocator? {
      LoadStepInv(s);
    } else if e.Mutate? {
      MutateStepInv(s, e);
    } else if e.Abort? {
      AbortStepInv(s);
    } else {
      WriterStepInv(s, e);
    }
  }

  ghost predicate StepAt(trace: seq<State>, events: seq<Event>, k: nat)
    requires k < |events| < |trace|
  {
    Guarded(trace[k], events[k]) && trace[k + 1] == Next(trace[k], events[k])
  }

  /** `trace` starts in a new database and follows `events`. */
  ghost predicate Run(trace: seq<State>, events: seq<Event>) {
    && |trace| == |events| + 1
    && trace[0] == Init()
    && (forall k :: 0 <= k < |events| ==> StepAt(trace, events, k))
  }

  lemma Follows(trace: seq<State>, events: seq<Event>, j: nat, k: nat)
    requires Run(trace, events) && k < |trace| && k == j + 1
    ensures Guarded(trace[j], events[j]) && trace[k] == Next(trace[j], events[j])
  {
    assert StepAt(trace, events, j);
  }

  lemma StepAtInv(trace: seq<State>, events: seq<Event>, j: nat, k: nat)
    requires Run(trace, events) && k < |trace| && k == j + 1 && Inv(trace[j])
    ensures Inv(trace[k])
  {
    Follows(trace, events, j, k);
    StepInv(trace[j], events[j]);
  }

  lemma {:induction false} RunInv(trace: seq<State>, events: seq<Event>, k: nat)
    requires Run(trace, events) && k < |trace|
    ensures Inv(trace[k])
    decreases k
  {
    if k == 0 {
      MvccSteps.InitInv();
    } else {
      var j := k - 1;
      RunInv(trace, events, j);
      StepAtInv(trace, events, j, k);
    }
  }

  // ---------------------------------------------------------------- reachable states

  /** Some run from a new database ends in `s`. */
  ghost predicate Reached(s: State) {
    exists trace, events :: Run(trace, events) && trace[|events|] == s
  }

  lemma InitReached()
    ensures Reached(Init())
  {
    var trace, events: seq<Event> := [Init()], [];
    assert Run(trace, events) && trace[|events|] == Init();
  }

  lemma StepKept(trace: seq<State>, events: seq<Event>, now: seq<State>, more: seq<Event>, k: nat)
    requires k < |events| < |trace| && StepAt(trace, events, k) && trace <= now && events <= more && |more| < |now|
    ensures StepAt(now, more, k)
  {
  }

  lemma RunExtend(trace: seq<State>, events: seq<Event>, e: Event)
    requires Run(trace, events) && Guarded(trace[|events|], e)
    ensures Run(trace + [Next(trace[|events|], e)], events + [e])
  {
    var more, now := events + [e], trace + [Next(trace[|events|], e)];
    forall k | 0 <= k < |more|
      ensures StepAt(now, more, k)
    {
      if k < |events| {
        StepKept(trace, events, now, more, k);
      }
    }
  }

  lemma ReachedStep(s: State, e: Event)
    requires Reached(s) && Guarded(s, e)
    ensures Reached(Next(s, e))
  {
    var trace, events :| Run(trace, events) && trace[|events|] == s;
    RunExtend(trace, events, e);
  }

  lemma ReachedInv(s: State)
    requires Reached(s)
    ensures Inv(s)
  {
    var trace, events :| Run(trace, events) && trace[|events|] == s;
    RunInv(trace, events, |events|);
  }

  lemma ReachedSafe(s: State)
    requires Reached(s)
    ensures Safe(s)
  {
    ReachedInv(s);
    InvSafe(s);
  }

  // ---------------------------------------------------------------- no live page is freed

  /** Everything somebody can still read is allocated. */
  ghost predicate Safe(s: State) {
    && s.current.data <= s.alloc
    && s.current.system <= s.alloc
    && s.durable.data <= s.alloc
    && s.durable.system <= s.alloc
    && (forall n :: n in s.readers ==> s.readers[n].pages <= s.alloc)
    && (forall sp :: sp in s.valid ==> s.valid[sp].pages <= s.alloc)
    && (forall sp :: sp in s.durable.savepoints ==> s.durable.savepoints[sp].pages <= s.alloc)
    && (s.txn.Some? ==> s.txn.value.data <= s.alloc)
  }

  lemma CoverIsAllocated(s: State, x: Snapshot)
    requires Partition(s.alloc, s.uncommitted, s.current) && Cover(ImageView(s.current), x)
    ensures x.pages <= s.alloc
  {
  }

  lemma InvSafe(s: State)
    requires Inv(s)
    ensures Safe(s)
  {
    CoverIsAllocated(s, Root(s.durable));
    forall n | n in s.readers
      ensures s.readers[n].pages <= s.alloc
    {
      CoverIsAllocated(s, s.readers[n]);
    }
    forall sp | sp in s.valid
      ensures s.valid[sp].pages <= s.alloc
    {
      assert Conserve(ImageView(s.current), s.current.dataAllocated, {}, s.valid[sp]);
      CoverIsAllocated(s, s.valid[sp]);
    }
  }

  /** Page safety of every run. */
  lemma RunSafe(trace: seq<State>, events: seq<Event>, k: nat)
    requires Run(trace, events) && k < |trace|
    ensures Safe(trace[k])
  {
    RunInv(trace, events, k);
    InvSafe(trace[k]);
  }

  /** At every commit boundary the four page classes partition the allocated pages. */
  lemma RunPartition(trace: seq<State>, events: seq<Event>, k: nat)
    requires Run(trace, events) && k < |trace| && trace[k].txn.None?
    ensures Disjoint(trace[k].current)
    ensures trace[k].alloc == trace[k].current.data + trace[k].current.system
                              + trace[k].current.dataFreed.Keys + trace[k].current.systemFreed.Keys
  {
    RunInv(trace, events, k);
    InvPartition(trace[k]);
  }

  /** What a durable commit finds in the allocator, and saves, is what a repair would rebuild. */
  lemma SavedIsRepaired(trace: seq<State>, events: seq<Event>, k: nat)
    requires Run(trace, events) && k < |events| && events[k].CommitDurable?
    ensures trace[k + 1].alloc == Repaired(trace[k + 1].durable)
  {
    var n := k + 1;
    RunInv(trace, events, n);
    Follows(trace, events, k, n);
    DurableEnds(trace[k], events[k]);
    InvPartition(trace[n]);
  }

  lemma DurableEnds(s: State, e: Event)
    requires Guarded(s, e) && e.CommitDurable?
    ensures Next(s, e).txn.None? && Next(s, e).current == Next(s, e).durable
  {
  }

  lemma InvPartition(s: State)
    requires Inv(s) && s.txn.None?
    ensures Disjoint(s.current)
    ensures s.alloc == s.current.data + s.current.system + s.current.dataFreed.Keys + s.current.systemFreed.Keys
  {
    assert s.uncommitted == {};
  }

  /** A snapshot covered by the current root loses none of its pages to the release. */
  lemma ReleasedDataIsDead(s: State, x: Txn, r: Snapshot)
    requires Disjoint(s.current) && TxnPages(TxnView(x), s.current, s.uncommitted)
    requires Cover(ImageView(s.current), r) && r.tid < x.id
    requires FreeUntil(s.holders, x.id) <= x.id
    requires FreeUntil(s.holders, x.id) <= r.tid + 1 || r.pages <= s.current.data
    ensures DurableReleased(s, x) !! r.pages
  {
    forall p | p in r.pages && p in Queued(x)
      ensures Queued(x)[p] >= FreeUntil(s.holders, x.id)
    {
      assert p in x.freed || p in s.current.dataFreed;
    }
  }

  lemma ReleasedSystemIsDead(s: State, x: Txn)
    requires Disjoint(s.current) && TxnPages(TxnView(x), s.current, s.uncommitted)
    requires Partition(s.alloc, s.uncommitted, s.current)
    requires s.durable.system <= s.current.system + After(s.current.systemFreed, s.durable.id)
    requires FreeUntil(s.holders, x.id) <= s.durable.id + 1 || s.durable == s.current
    ensures DurableReleased(s, x) !! s.current.system + s.durable.system
  {
    assert Queued(x).Keys <= s.current.data + s.current.dataFreed.Keys + s.uncommitted;
  }

  lemma FreeUntilOwn(s: State, own: Tid)
    requires TrackerOk(s.holders, s.current.id, s.durable.id) && s.current.id < own
    requires PendingOk(Pending(s.holders), s.current, s.durable)
    ensures FreeUntil(s.holders, own) <= own
    ensures FreeUntil(s.holders, own) <= s.durable.id + 1 || s.durable == s.current
  {
    if s.holders.Values != {} {
      var h :| h in s.holders && s.holders[h] == Min(s.holders.Values);
    }
    if Pending(s.holders) != {} {
      var h :| h in s.holders && h.NonDurable?;
      MvccDurable.FreeUntilBound(s.holders, own, h);
    }
  }

  /**
   The pages a durable commit hands back, and may overwrite before its new root is on disk, are
   out of reach of the roots a crash would fall back to and of every reader and savepoint.
   */
  lemma DurableCommitOverwritesNothingLive(s: State, x: Txn)
    requires Inv(s) && s.txn == Some(x)
    ensures DurableReleased(s, x) !! s.durable.data + s.durable.system + s.current.data + s.current.system
    ensures forall n :: n in s.readers ==> DurableReleased(s, x) !! s.readers[n].pages
    ensures forall sp :: sp in s.valid ==> DurableReleased(s, x) !! s.valid[sp].pages
  {
    FreeUntilOwn(s, x.id);
    ReleasedSystemIsDead(s, x);
    ReleasedDataIsDead(s, x, Root(s.current));
    ReleasedDataIsDead(s, x, Root(s.durable));
    forall n | n in s.readers
      ensures DurableReleased(s, x) !! s.readers[n].pages
    {
      ReaderRelease(s, x, n);
    }
    forall sp | sp in s.valid
      ensures DurableReleased(s, x) !! s.valid[sp].pages
    {
      SavepointRelease(s, x, sp);
    }
  }

  lemma ReaderRelease(s: State, x: Txn, n: nat)
    requires Inv(s) && s.txn == Some(x) && n in s.readers && FreeUntil(s.holders, x.id) <= x.id
    ensures DurableReleased(s, x) !! s.readers[n].pages
  {
    assert GuardOk(s.holders, n, s.readers[n], s.current.id, s.durable.id, s.unpersisted + s.uncommitted, Saved(s));
    MvccDurable.FreeUntilBound(s.holders, x.id, Guard(n));
    ReleasedDataIsDead(s, x, s.readers[n]);
  }

  lemma SavepointRelease(s: State, x: Txn, sp: SpId)
    requires Inv(s) && s.txn == Some(x) && sp in s.valid && FreeUntil(s.holders, x.id) <= x.id
    ensures DurableReleased(s, x) !! s.valid[sp].pages
  {
    assert Conserve(ImageView(s.current), s.current.dataAllocated, {}, s.valid[sp]);
    assert TaggedOk(s.current.id, s.current.dataAllocated, s.valid[sp]);
    MvccDurable.FreeUntilBound(s.holders, x.id, if Ephemeral(sp) in s.holders then Ephemeral(sp) else Persistent(sp));
    ReleasedDataIsDead(s, x, s.valid[sp]);
  }
}
