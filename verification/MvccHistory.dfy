/**
 What the bookkeeping of the protocol stands for, in terms of the events that led to it: which
 references are held, which commits wait to be processed, and which pages a crash would lose.
 */
module MvccHistory {
  import opened Ledgers
  import opened Mvcc
  import opened MvccInvariant
  import opened MvccTheorems

  // ---------------------------------------------------------------- references

  /** The event takes a new reference. */
  predicate Acquires(s: State, e: Event, h: Holder) {
    match h
    case Guard(n) => e == RegisterRead(n)
    case Ephemeral(sp) => e.EphemeralSavepoint? && sp == s.nextSp + 1
    case Persistent(sp) => e.PersistentSavepoint? && sp == s.nextSp + 1
    case NonDurable(t) => e.CommitNonDurable? && s.txn.Some? && t == s.txn.value.id
  }

  /**
   The event gives a reference back: a reader closes, a handle is dropped, a persistent savepoint
   is deleted by a durable commit or was created by an aborted transaction, a durable commit
   settles the non-durable ones.  A restart leaves only the persistent savepoints of the last
   durable commit.
   */
  predicate Releases(s: State, e: Event, h: Holder) {
    match h
    case Guard(n) => e == CloseRead(n) || IsRestart(e)
    case Ephemeral(sp) => e == DropSavepoint(sp) || IsRestart(e)
    case Persistent(sp) =>
      || (e.CommitDurable? && s.txn.Some? && sp in s.txn.value.deleted)
      || (e.Abort? && s.txn.Some? && sp in s.txn.value.created)
      || (IsRestart(e) && sp !in s.durable.savepoints)
    case NonDurable(t) => e.CommitDurable? || IsRestart(e)
  }

  /** The transaction a new reference is held on. */
  function Target(s: State, h: Holder): Tid {
    if h.NonDurable? then s.durable.id else s.current.id
  }

  /** How one event changes the reference `h`. */
  ghost predicate HolderStep(s: State, e: Event, u: State, h: Holder) {
    && (h in u.holders <==> Acquires(s, e, h) || (h in s.holders && !Releases(s, e, h)))
    && (h in u.holders ==> u.holders[h] == if Acquires(s, e, h) then Target(s, h) else s.holders[h])
  }

  lemma DurableHolders(s: State, e: Event, h: Holder)
    requires Guarded(s, e) && e.CommitDurable?
    ensures HolderStep(s, e, Next(s, e), h)
  {
    NextDurable(s, e);
  }

  lemma NonDurableHolders(s: State, e: Event, h: Holder)
    requires Guarded(s, e) && e.CommitNonDurable?
    ensures HolderStep(s, e, Next(s, e), h)
  {
    NextNonDurable(s, e);
  }

  lemma AbortHolders(s: State, h: Holder)
    requires Guarded(s, Abort)
    ensures HolderStep(s, Abort, Next(s, Abort), h)
  {
    NextAbort(s);
  }

  lemma RestartHolders(s: State, e: Event, u: State, h: Holder)
    requires TableHeld(s.holders, s.durable.savepoints) && IsRestart(e)
    requires u.holders == Reopened(s.durable, {}).holders
    ensures HolderStep(s, e, u, h)
  {
    var names := set i | i in s.durable.savepoints :: Persistent(i);
    assert h in names <==> h.Persistent? && h.sp in s.durable.savepoints;
  }

  lemma RestartedHolders(s: State, e: Event)
    requires IsRestart(e)
    ensures Next(s, e).holders == Reopened(s.durable, {}).holders
  {
    NextCrash(s);
    NextLoad(s);
  }

  /** Every persistent savepoint of the table is held at its transaction. */
  ghost predicate TableHeld(holders: map<Holder, Tid>, table: map<SpId, Snapshot>) {
    forall sp: SpId :: sp in table ==> Persistent(sp) in holders && holders[Persistent(sp)] == table[sp].tid
  }

  lemma InvTableHeld(s: State)
    requires Inv(s)
    ensures TableHeld(s.holders, s.durable.savepoints)
  {
  }

  lemma SavepointHolders(s: State, e: Event, h: Holder, id: SpId)
    requires Guarded(s, e) && (e.EphemeralSavepoint? || e.PersistentSavepoint?) && id == s.nextSp + 1
    ensures HolderStep(s, e, Next(s, e), h)
  {
    var taken := if e.EphemeralSavepoint? then Ephemeral(id) else Persistent(id);
    assert Acquires(s, e, h) <==> h == taken;
    assert Next(s, e).holders == s.holders[taken := s.current.id];
  }

  lemma DropHolders(s: State, e: Event, h: Holder)
    requires Guarded(s, e) && e.DropSavepoint?
    ensures HolderStep(s, e, Next(s, e), h)
  {
    NextDrop(s, e);
  }

  lemma OtherHolders(s: State, e: Event, h: Holder)
    requires Guarded(s, e) && !e.CommitDurable? && !e.CommitNonDurable? && !e.Abort? && !IsRestart(e)
    requires !e.EphemeralSavepoint? && !e.PersistentSavepoint? && !e.DropSavepoint?
    ensures HolderStep(s, e, Next(s, e), h)
  {
  }

  lemma StepHolders(s: State, e: Event, h: Holder)
    requires Inv(s) && Guarded(s, e)
    ensures HolderStep(s, e, Next(s, e), h)
  {
    if e.CommitDurable? {
      DurableHolders(s, e, h);
    } else if e.CommitNonDurable? {
      NonDurableHolders(s, e, h);
    } else if e.Abort? {
      AbortHolders(s, h);
    } else if IsRestart(e) {
      InvTableHeld(s);
      RestartedHolders(s, e);
      RestartHolders(s, e, Next(s, e), h);
    } else if e.EphemeralSavepoint? || e.PersistentSavepoint? {
      SavepointHolders(s, e, h, s.nextSp + 1);
    } else if e.DropSavepoint? {
      DropHolders(s, e, h);
    } else {
      OtherHolders(s, e, h);
    }
  }

  lemma NewReference(s: State, e: Event, h: Holder)
    requires Inv(s) && Guarded(s, e) && Acquires(s, e, h)
    ensures h !in s.holders
  {
  }

  /** Taken by event `j` and not given back before state `k`. */
  ghost predicate HeldSince(trace: seq<State>, events: seq<Event>, j: nat, k: nat, h: Holder)
    requires Run(trace, events) && k < |trace|
  {
    && j < k && Acquires(trace[j], events[j], h)
    && forall i :: j < i < k ==> !Releases(trace[i], events[i], h)
  }

  lemma RunHolderStep(trace: seq<State>, events: seq<Event>, i: nat, k: nat, h: Holder)
    requires Run(trace, events) && k < |trace| && k == i + 1
    ensures HolderStep(trace[i], events[i], trace[k], h)
    ensures Acquires(trace[i], events[i], h) ==> h !in trace[i].holders
  {
    RunInv(trace, events, i);
    Follows(trace, events, i, k);
    StepHolders(trace[i], events[i], h);
    if Acquires(trace[i], events[i], h) {
      NewReference(trace[i], events[i], h);
    }
  }

  /** Whoever took a reference and has not given it back holds it, on the transaction it was taken on. */
  lemma {:induction false} HeldOnTarget(trace: seq<State>, events: seq<Event>, j: nat, k: nat, h: Holder)
    requires Run(trace, events) && k < |trace| && HeldSince(trace, events, j, k, h)
    ensures h in trace[k].holders && trace[k].holders[h] == Target(trace[j], h)
    decreases k
  {
    var i := k - 1;
    RunHolderStep(trace, events, i, k, h);
    if j < i {
      assert HeldSince(trace, events, j, i, h);
      HeldOnTarget(trace, events, j, i, h);
      assert !Releases(trace[i], events[i], h);
    }
  }

  /** And every reference that is held was taken and not given back. */
  lemma {:induction false} TakenBefore(trace: seq<State>, events: seq<Event>, k: nat, h: Holder) returns (j: nat)
    requires Run(trace, events) && k < |trace| && h in trace[k].holders
    ensures HeldSince(trace, events, j, k, h)
    decreases k
  {
    var i := k - 1;
    RunHolderStep(trace, events, i, k, h);
    if Acquires(trace[i], events[i], h) {
      j := i;
    } else {
      j := TakenBefore(trace, events, i, h);
    }
  }

  /** In every state of every run, exactly the references taken and not given back are held. */
  lemma RunHolders(trace: seq<State>, events: seq<Event>, k: nat, h: Holder)
    requires Run(trace, events) && k < |trace|
    ensures h in trace[k].holders <==> exists j :: HeldSince(trace, events, j, k, h)
  {
    if j: nat :| HeldSince(trace, events, j, k, h) {
      HeldOnTarget(trace, events, j, k, h);
    }
    if h in trace[k].holders {
      var j := TakenBefore(trace, events, k, h);
    }
  }

  // ---------------------------------------------------------------- commits to be processed

  /** Transaction `t` commits without durability. */
  predicate Queues(s: State, e: Event, t: Tid) {
    e.CommitNonDurable? && s.txn.Some? && s.txn.value.id == t
  }

  predicate Settles(e: Event, t: Tid) {
    (e.CommitNonDurable? && t in e.processed) || IsRestart(e)
  }

  lemma StepUnprocessed(s: State, e: Event, t: Tid)
    requires Guarded(s, e)
    ensures t in Next(s, e).unprocessed <==> Queues(s, e, t) || (t in s.unprocessed && !Settles(e, t))
  {
    if e.CommitNonDurable? {
      NextNonDurable(s, e);
    } else if e.CommitDurable? {
      NextDurable(s, e);
    } else if e.Restore? {
      NextRestore(s, e);
    }
  }

  /** Committed by event `j` and not processed before state `k`. */
  ghost predicate QueuedSince(trace: seq<State>, events: seq<Event>, j: nat, k: nat, t: Tid)
    requires Run(trace, events) && k < |trace|
  {
    j < k && Queues(trace[j], events[j], t) && forall i :: j < i < k ==> !Settles(events[i], t)
  }

  lemma {:induction false} StillQueued(trace: seq<State>, events: seq<Event>, j: nat, k: nat, t: Tid)
    requires Run(trace, events) && k < |trace| && QueuedSince(trace, events, j, k, t)
    ensures t in trace[k].unprocessed
    decreases k
  {
    var i := k - 1;
    Follows(trace, events, i, k);
    StepUnprocessed(trace[i], events[i], t);
    if j < i {
      assert QueuedSince(trace, events, j, i, t);
      StillQueued(trace, events, j, i, t);
      assert !Settles(events[i], t);
    }
  }

  lemma {:induction false} QueuedBefore(trace: seq<State>, events: seq<Event>, k: nat, t: Tid) returns (j: nat)
    requires Run(trace, events) && k < |trace| && t in trace[k].unprocessed
    ensures QueuedSince(trace, events, j, k, t)
    decreases k
  {
    var i := k - 1;
    Follows(trace, events, i, k);
    StepUnprocessed(trace[i], events[i], t);
    if Queues(trace[i], events[i], t) {
      j := i;
    } else {
      j := QueuedBefore(trace, events, i, t);
    }
  }

  /** In every state of every run, exactly the non-durable commits not processed since are waiting. */
  lemma RunUnprocessed(trace: seq<State>, events: seq<Event>, k: nat, t: Tid)
    requires Run(trace, events) && k < |trace|
    ensures t in trace[k].unprocessed <==> exists j :: QueuedSince(trace, events, j, k, t)
  {
    if j: nat :| QueuedSince(trace, events, j, k, t) {
      StillQueued(trace, events, j, k, t);
    }
    if t in trace[k].unprocessed {
      var j := QueuedBefore(trace, events, k, t);
    }
  }

  // ---------------------------------------------------------------- pages a crash would lose

  /** The committed pages: all that are allocated but those of the open transaction. */
  function CommittedPages(s: State): set<Page> {
    s.alloc - s.uncommitted
  }

  /** What the last durable commit needs is kept, and the pages that came since are the unpersisted ones. */
  ghost predicate Volatile(alloc: set<Page>, uncommitted: set<Page>, unpersisted: set<Page>, kept: set<Page>) {
    && kept <= alloc - uncommitted
    && unpersisted !! kept
    && alloc - uncommitted - kept <= unpersisted
  }

  ghost predicate StateVolatile(s: State) {
    Volatile(s.alloc, s.uncommitted, s.unpersisted, Repaired(s.durable))
  }

  lemma VolatileCommit(s: State, e: Event)
    requires Inv(s) && Guarded(s, e) && StateVolatile(s) && (e.CommitDurable? || e.CommitNonDurable?)
    ensures StateVolatile(Next(s, e))
  {
    if e.CommitDurable? {
      DurableEnds(s, e);
      NextDurable(s, e);
      DurableStepInv(s, e);
    } else {
      NextNonDurable(s, e);
      VolatileNonDurable(s, s.txn.value, e.sysNew, e.sysDropped, e.processed);
    }
  }

  lemma VolatileNonDurable(s: State, x: Txn, sysNew: set<Page>, sysDropped: set<Page>, processed: set<Tid>)
    requires StateVolatile(s) && CanCommitNonDurable(s, x, sysNew, sysDropped, processed)
    ensures StateVolatile(NonDurableCommit(s, x, sysNew, sysDropped, processed))
  {
    assert NonDurableReleasedAll(s, x, processed) <= s.unpersisted;
  }

  lemma VolatileWriter(s: State, e: Event)
    requires Inv(s) && Guarded(s, e) && StateVolatile(s) && (e.Mutate? || e.Abort? || e.Restore?)
    ensures StateVolatile(Next(s, e))
  {
    if e.Mutate? {
      NextMutate(s, e);
    } else if e.Abort? {
      NextAbort(s);
    } else {
      NextRestore(s, e);
    }
  }

  lemma VolatileOther(s: State, e: Event)
    requires Guarded(s, e) && StateVolatile(s)
    requires !e.Mutate? && !e.Abort? && !e.Restore? && !e.CommitDurable? && !e.CommitNonDurable?
    ensures StateVolatile(Next(s, e))
  {
    if IsRestart(e) {
      NextCrash(s);
      NextLoad(s);
    }
  }

  lemma StepVolatile(s: State, e: Event)
    requires Inv(s) && Guarded(s, e) && StateVolatile(s)
    ensures StateVolatile(Next(s, e))
  {
    if e.CommitDurable? || e.CommitNonDurable? {
      VolatileCommit(s, e);
    } else if e.Mutate? || e.Abort? || e.Restore? {
      VolatileWriter(s, e);
    } else {
      VolatileOther(s, e);
    }
  }

  lemma {:induction false} RunStateVolatile(trace: seq<State>, events: seq<Event>, k: nat)
    requires Run(trace, events) && k < |trace|
    ensures StateVolatile(trace[k])
    decreases k
  {
    if k > 0 {
      var i := k - 1;
      RunStateVolatile(trace, events, i);
      RunInv(trace, events, i);
      Follows(trace, events, i, k);
      StepVolatile(trace[i], events[i]);
    }
  }

  /**
   In every state of every run, the unpersisted ones among the committed pages are exactly those
   a repair of the last durable commit would not find.
   */
  lemma RunUnpersisted(trace: seq<State>, events: seq<Event>, k: nat)
    requires Run(trace, events) && k < |trace|
    ensures var s := trace[k];
            && CommittedPages(s) * s.unpersisted == CommittedPages(s) - Repaired(s.durable)
            && Repaired(s.durable) <= CommittedPages(s)
  {
    RunStateVolatile(trace, events, k);
  }
}
