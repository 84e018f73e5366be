/**
 The operations of the database over shared memory and tracker.  Every method is proved to be
 one step of the protocol in module Mvcc.
 */
module DatabaseSteps {
  import opened Ledgers
  import opened Mvcc
  import opened MvccInvariant
  import opened PageTables
  import Tracker
  import opened Engine
  import opened EngineParts

  /** The roots `TransactionalMemory` keeps, and the private fields of the write transaction. */
  datatype Disk = Disk(committed: Roots, durable: Roots, work: Work)

  ghost predicate Matches(tracker: Tracker.TransactionTracker, mem: Memory, local: Tracker.SavepointState, disk: Disk,
                          s: State)
    reads tracker, mem, local
  {
    && TrackerMatches(tracker, s)
    && MemoryMatches(mem, s)
    && ImageStored(disk.committed, s.current, s.unprocessed)
    && ImageStored(disk.durable, s.durable, {})
    && (s.txn.Some? ==>
          && WorkStored(disk.work, s.txn.value, s.current, s.unprocessed)
          && LocalMatches(local.created, local.deleted, local.invalidated, s.txn.value, s.holders))
  }

  // ---------------------------------------------------------------- readers

  method RegisterReader(tracker: Tracker.TransactionTracker, mem: Memory, local: Tracker.SavepointState, disk: Disk,
                        ghost n: nat, ghost s: State)
    returns (id: Tid)
    requires Matches(tracker, mem, local, disk, s) && Guard(n) !in s.holders
    modifies tracker
    ensures id == s.current.id && Matches(tracker, mem, local, disk, Register(s, n))
  {
    id := tracker.RegisterRead(disk.committed.id, n);
    if s.txn.Some? {
      LocalAdd(local.created, local.deleted, local.invalidated, s.txn.value, s.holders, Guard(n), id);
    }
  }

  method CloseReader(tracker: Tracker.TransactionTracker, mem: Memory, local: Tracker.SavepointState, disk: Disk,
                     id: Tid, ghost n: nat, ghost s: State)
    requires Matches(tracker, mem, local, disk, s) && Guard(n) in s.holders && s.holders[Guard(n)] == id
    modifies tracker
    ensures Matches(tracker, mem, local, disk, Close(s, n))
  {
    tracker.Release(id, Guard(n));
    if s.txn.Some? {
      StillLocal(local.created, local.deleted, local.invalidated, s.txn.value, s.holders, tracker.holders);
    }
  }

  /** The handle of an ephemeral savepoint goes out of scope. */
  method DropEphemeral(tracker: Tracker.TransactionTracker, mem: Memory, local: Tracker.SavepointState, disk: Disk,
                       sp: SpId, id: Tid, ghost s: State)
    requires Matches(tracker, mem, local, disk, s) && Ephemeral(sp) in s.holders && s.holders[Ephemeral(sp)] == id
    modifies tracker
    ensures Matches(tracker, mem, local, disk, DropHandle(s, sp))
  {
    tracker.DeallocateSavepoint(sp, id, Ephemeral(sp));
    MarksWithout(s.valid, {sp});
    if s.txn.Some? {
      StillLocal(local.created, local.deleted, local.invalidated, s.txn.value, s.holders, tracker.holders);
    }
  }

  lemma StillLocal(created: set<Tracker.Deletion>, deleted: seq<Tracker.Deletion>, invalidated: set<SpId>, x: Txn,
                   holders: map<Holder, Tid>, now: map<Holder, Tid>)
    requires LocalMatches(created, deleted, invalidated, x, holders)
    requires forall h :: h in holders && h.Persistent? ==> h in now && now[h] == holders[h]
    ensures LocalMatches(created, deleted, invalidated, x, now)
  {
    StillHeld(created, holders, now);
    StillHeld(Tracker.Elements(deleted), holders, now);
  }

  // ---------------------------------------------------------------- commit and abort

  method CommitDurable(tracker: Tracker.TransactionTracker, mem: Memory, local: Tracker.SavepointState, disk: Disk,
                       wanted: set<Page>, sysDropped: seq<Page>, quick: bool, ghost s: State)
    returns (d: Disk, sysNew: set<Page>)
    requires Matches(tracker, mem, local, disk, s) && s.txn.Some? && s.txn.value.immediate && Ready(s, s.txn.value)
    requires NoDuplicates(sysDropped) && PageTables.Elements(sysDropped) <= s.current.system
    modifies tracker, mem, local
    ensures sysNew == wanted - (s.alloc - DurableReleased(s, s.txn.value))
    ensures Matches(tracker, mem, local, d, DurableCommit(s, s.txn.value, sysNew, PageTables.Elements(sysDropped),
                                                          quick))
  {
    ghost var x := s.txn.value;
    var id := tracker.liveWrite.value;
    var t := PrepareCommit(tracker, disk.work.tables, id, disk.work.freed, disk.work.tracking, mem.uncommitted, s, x);
    var reader := tracker.OldestLiveRead();
    var r;
    var until := if reader.None? then id else reader.value + 1;
    r, sysNew := DurableWork(mem, t, disk.work, disk.committed.system, id, until, tracker.unprocessed,
                             wanted, sysDropped, quick, s, x);
    ghost var now := DurableCommit(s, x, sysNew, PageTables.Elements(sysDropped), quick);
    DurableTracker(tracker, local, id, s, x, now);
    ImageStoredFewer(r, now.current, s.unprocessed);
    d := disk.(committed := r, durable := r);
  }

  method CommitNonDurable(tracker: Tracker.TransactionTracker, mem: Memory, local: Tracker.SavepointState, disk: Disk,
                          wanted: set<Page>, sysDropped: seq<Page>, ghost s: State)
    returns (d: Disk, sysNew: set<Page>, processed: seq<Tid>)
    requires Matches(tracker, mem, local, disk, s) && s.txn.Some? && !s.txn.value.immediate
    requires Ready(s, s.txn.value) && NonDurable(s.txn.value.id) !in s.holders && s.txn.value.deleted == {}
    requires NoDuplicates(sysDropped) && PageTables.Elements(sysDropped) <= s.current.system
    modifies tracker, mem, local
    ensures sysNew == wanted - (s.alloc - NonDurableReleasedAll(s, s.txn.value, Ids(processed)))
    ensures CanCommitNonDurable(s, s.txn.value, sysNew, PageTables.Elements(sysDropped), Ids(processed))
    ensures Matches(tracker, mem, local, d,
                    NonDurableCommit(s, s.txn.value, sysNew, PageTables.Elements(sysDropped), Ids(processed)))
  {
    ghost var x := s.txn.value;
    var id := tracker.liveWrite.value;
    var t := PrepareCommit(tracker, disk.work.tables, id, disk.work.freed, disk.work.tracking, mem.uncommitted, s, x);
    var until := BoundNonDurable(tracker, id, s);
    var r;
    r, sysNew, processed := NonDurableWork(mem, t, disk.work, disk.committed.system, id, until,
                                           tracker.unprocessed, wanted, sysDropped, s, x);
    ghost var now := NonDurableCommit(s, x, sysNew, PageTables.Elements(sysDropped), Ids(processed));
    NonDurableTracker(tracker, local, id, disk.durable.id, processed, s, x, now);
    d := disk.(committed := r);
  }

  /** The oldest reader of a pending commit, capped by the oldest savepoint. */
  method BoundNonDurable(tracker: Tracker.TransactionTracker, id: Tid, ghost s: State) returns (until: Tid)
    requires TrackerMatches(tracker, s)
    ensures until == FreeUntilNonDurable(s, id)
  {
    var reader := tracker.OldestLiveReadNonDurable();
    until := if reader.None? then id else reader.value + 1;
    var oldest := tracker.OldestSavepointId(s.valid);
    if oldest.Some? && oldest.value < until {
      until := oldest.value;
    }
  }

  /** `commit_inner` is one step of the protocol, whichever durability was chosen. */
  method Commit(tracker: Tracker.TransactionTracker, mem: Memory, local: Tracker.SavepointState, disk: Disk,
                wanted: set<Page>, sysDropped: seq<Page>, quick: bool, ghost s: State)
    returns (d: Disk, ghost e: Event, ghost now: State)
    requires Matches(tracker, mem, local, disk, s) && s.txn.Some?
    requires Ready(s, s.txn.value) && ReferencesReady(s, s.txn.value)
    requires NoDuplicates(sysDropped) && PageTables.Elements(sysDropped) <= s.current.system
    modifies tracker, mem, local
    ensures if s.txn.value.immediate then e.CommitDurable? else e.CommitNonDurable?
    ensures Enabled(s, e) && now == Next(s, e) && Matches(tracker, mem, local, d, now)
  {
    if disk.work.immediate {
      var sysNew;
      d, sysNew := CommitDurable(tracker, mem, local, disk, wanted, sysDropped, quick, s);
      e := Event.CommitDurable(sysNew, PageTables.Elements(sysDropped), quick);
      now := DurableCommit(s, s.txn.value, sysNew, PageTables.Elements(sysDropped), quick);
    } else {
      var sysNew, processed;
      d, sysNew, processed := CommitNonDurable(tracker, mem, local, disk, wanted, sysDropped, s);
      e := Event.CommitNonDurable(sysNew, PageTables.Elements(sysDropped), Ids(processed));
      now := NonDurableCommit(s, s.txn.value, sysNew, PageTables.Elements(sysDropped), Ids(processed));
    }
  }

  method AbortWrite(tracker: Tracker.TransactionTracker, mem: Memory, local: Tracker.SavepointState, disk: Disk,
                    ghost s: State)
    requires Matches(tracker, mem, local, disk, s) && s.txn.Some?
    modifies tracker, mem, local
    ensures Matches(tracker, mem, local, disk, Aborted(s, s.txn.value))
  {
    local.ApplyOnAbort(tracker);
    MarksWithout(s.valid, s.txn.value.created);
    mem.Rollback();
    tracker.EndWrite(tracker.liveWrite.value);
  }

  // ---------------------------------------------------------------- savepoints

  function Touched(s: State): State
    requires s.txn.Some?
  {
    s.(txn := Some(s.txn.value.(dirty := true)))
  }

  /** `restore_savepoint` with a handle on savepoint `sp`. */
  method RestoreSnapshot(tracker: Tracker.TransactionTracker, mem: Memory, local: Tracker.SavepointState, disk: Disk,
                 sp: SpId, target: Snapshot, ghost s: State)
    returns (d: Disk, ok: bool, ghost now: State)
    requires Matches(tracker, mem, local, disk, s) && s.txn.Some? && s.uncommitted <= s.alloc
    requires Referenced(s.txn.value.savepoints, s.txn.value.deleted, s.holders)
    requires sp in s.valid ==> s.valid[sp] == target
    modifies mem, local
    ensures ok == CanRestore(s, s.txn.value, sp)
    ensures now == if ok then Restored(s, s.txn.value, sp)
                   else if sp in s.valid && sp !in s.txn.value.invalidated then Touched(s) else s
    ensures Matches(tracker, mem, local, d, now)
  {
    ghost var x := s.txn.value;
    if sp !in tracker.valid || sp in local.invalidated {
      return disk, false, s;
    }
    if !disk.work.immediate && NewerThan(disk.work.savepoints.Keys, sp) != {} {
      // looking through the savepoint table marks the transaction as dirty
      return disk.(work := disk.work.(dirty := true)), false, Touched(s);
    }
    var tables, freed := RestoreTables(disk.work.tables, target, s, x, sp, disk.work.freed);
    RestoreMemory(mem, disk.work.tracking, s);
    var left := RestoreLocal(tracker, local, disk.work.savepoints, sp, s, x);
    d := disk.(work := disk.work.(data := target.pages, tables := tables, freed := freed, dirty := true,
                                  savepoints := left));
    ok, now := true, Restored(s, x, sp);
  }

  method RestoreMemory(mem: Memory, tracking: bool, ghost s: State)
    requires MemoryMatches(mem, s) && s.uncommitted <= s.alloc
    modifies mem
    ensures mem.alloc == s.alloc - (if tracking then s.uncommitted else {})
    ensures mem.uncommitted == s.uncommitted - (if tracking then s.uncommitted else {})
    ensures mem.unpersisted == s.unpersisted
  {
    if tracking {
      var recent := ToList(mem.uncommitted);
      mem.FreeUncommitted(recent);
    }
  }

  method RestoreLocal(tracker: Tracker.TransactionTracker, local: Tracker.SavepointState,
                      savepoints: map<SpId, Snapshot>, sp: SpId, ghost s: State, ghost x: Txn)
    returns (left: map<SpId, Snapshot>)
    requires TrackerMatches(tracker, s) && savepoints == x.savepoints && sp in s.valid
    requires LocalMatches(local.created, local.deleted, local.invalidated, x, s.holders)
    requires Referenced(x.savepoints, x.deleted, s.holders)
    modifies local
    ensures left == RestoreTxn(s, x, sp).savepoints
    ensures LocalMatches(local.created, local.deleted, local.invalidated, RestoreTxn(s, x, sp), s.holders)
  {
    var doomed := tracker.ListAfter(sp);
    assert tracker.valid.Keys == s.valid.Keys;
    local.invalidated := local.invalidated + set i | i in doomed;
    left := DeleteNewer(local, savepoints, sp, s.holders);
  }

  /** The tracker's part of `ephemeral_savepoint`: register a read, keep its reference. */
  method NewSavepoint(tracker: Tracker.TransactionTracker, id: Tid, ghost h: Holder, ghost s: State, ghost now: State)
    returns (sp: SpId)
    requires TrackerMatches(tracker, s) && h !in s.holders && !h.NonDurable? && id == s.current.id
    requires now.holders == s.holders[h := id] && now.nextSp == s.nextSp + 1
    requires now.valid == s.valid[s.nextSp + 1 := Snapshot(s.current.id, s.current.data)]
    requires now.unprocessed == s.unprocessed && now.nextTid == s.nextTid
    requires s.txn.Some? && now.txn.Some? && now.txn.value.id == s.txn.value.id
    modifies tracker
    ensures TrackerMatches(tracker, now) && sp == s.nextSp + 1
  {
    tracker.Acquire(id, h);
    sp := tracker.AllocateSavepoint(id);
    MarksAdd(s.valid, sp, Snapshot(s.current.id, s.current.data));
  }

  lemma LocalAdd(created: set<Tracker.Deletion>, deleted: seq<Tracker.Deletion>, invalidated: set<SpId>, x: Txn,
                 holders: map<Holder, Tid>, h: Holder, t: Tid)
    requires LocalMatches(created, deleted, invalidated, x, holders) && h !in holders
    ensures LocalMatches(created, deleted, invalidated, x, holders[h := t])
  {
    HeldAdd(created, holders, h, t);
    HeldAdd(Tracker.Elements(deleted), holders, h, t);
  }

  lemma LocalCreate(created: set<Tracker.Deletion>, deleted: seq<Tracker.Deletion>, invalidated: set<SpId>, x: Txn,
                    y: Txn, holders: map<Holder, Tid>, d: Tracker.Deletion)
    requires LocalMatches(created, deleted, invalidated, x, holders)
    requires Persistent(d.sp) in holders && holders[Persistent(d.sp)] == d.tid
    requires y.created == x.created + {d.sp} && y.deleted == x.deleted && y.invalidated == x.invalidated
    ensures LocalMatches(created + {d}, deleted, invalidated, y, holders)
  {
    assert Tracker.Named(created + {d}) == Tracker.Named(created) + {d.sp};
  }

  lemma MarksAdd(valid: map<SpId, Snapshot>, sp: SpId, x: Snapshot)
    ensures Tracker.Marks(valid)[sp := x.tid] == Tracker.Marks(valid[sp := x])
  {
  }

  lemma HeldAdd(ds: set<Tracker.Deletion>, holders: map<Holder, Tid>, h: Holder, t: Tid)
    requires Tracker.Held(ds, holders) && h !in holders
    ensures Tracker.Held(ds, holders[h := t])
  {
  }

  method EphemeralSavepoint(tracker: Tracker.TransactionTracker, mem: Memory, local: Tracker.SavepointState, disk: Disk,
                            ghost s: State)
    returns (r: Option<SpId>, ghost now: State)
    requires Matches(tracker, mem, local, disk, s) && s.txn.Some? && Ephemeral(s.nextSp + 1) !in s.holders
    modifies tracker
    ensures r.Some? == !s.txn.value.dirty
    ensures r.Some? ==> r.value == now.nextSp
    ensures now == (if r.Some? then NewEphemeral(s) else s) && Matches(tracker, mem, local, disk, now)
  {
    if disk.work.dirty {
      return None, s;
    }
    now := NewEphemeral(s);
    var sp := NewSavepoint(tracker, disk.committed.id, Ephemeral(s.nextSp + 1), s, now);
    LocalAdd(local.created, local.deleted, local.invalidated, s.txn.value, s.holders, Ephemeral(sp), s.current.id);
    r := Some(sp);
  }

  method PersistentSavepoint(tracker: Tracker.TransactionTracker, mem: Memory, local: Tracker.SavepointState,
                             disk: Disk, ghost s: State)
    returns (d: Disk, r: Option<SpId>, ghost now: State)
    requires Matches(tracker, mem, local, disk, s) && s.txn.Some? && Persistent(s.nextSp + 1) !in s.holders
    modifies tracker, local
    ensures r.Some? == (s.txn.value.immediate && !s.txn.value.dirty)
    ensures r.Some? ==> r.value == now.nextSp
    ensures now == (if r.Some? then NewPersistent(s, s.txn.value) else s) && Matches(tracker, mem, local, d, now)
  {
    if !disk.work.immediate || disk.work.dirty {
      return disk, None, s;
    }
    var id := disk.committed.id;
    now := NewPersistent(s, s.txn.value);
    var sp := NewSavepoint(tracker, id, Persistent(s.nextSp + 1), s, now);
    LocalAdd(local.created, local.deleted, local.invalidated, s.txn.value, s.holders, Persistent(sp), id);
    LocalCreate(local.created, local.deleted, local.invalidated, s.txn.value, now.txn.value, now.holders,
                Tracker.Deletion(sp, id));
    local.created := local.created + {Tracker.Deletion(sp, id)};
    var table := disk.work.savepoints[sp := Snapshot(id, disk.committed.data)];
    d := disk.(work := disk.work.(dirty := true, savepoints := table, nextSavepoint := sp + 1));
    r := Some(sp);
  }

  /** Refused unless the commit will be durable; else whether the savepoint was in the table. */
  method DeletePersistent(tracker: Tracker.TransactionTracker, mem: Memory, local: Tracker.SavepointState, disk: Disk,
                          sp: SpId, ghost s: State)
    returns (d: Disk, existed: Option<bool>, ghost now: State)
    requires Matches(tracker, mem, local, disk, s) && s.txn.Some?
    requires Referenced(s.txn.value.savepoints, s.txn.value.deleted, s.holders)
    modifies local
    ensures existed == if s.txn.value.immediate then Some(sp in s.txn.value.savepoints) else None
    ensures now == match existed
                   case None => s
                   case Some(true) => Delete(s, s.txn.value, sp)
                   case Some(false) => Touched(s)
    ensures Matches(tracker, mem, local, d, now)
  {
    if !disk.work.immediate {
      return disk, None, s;
    }
    d := disk.(work := disk.work.(dirty := true));
    if sp in disk.work.savepoints {
      var deletion := Tracker.Deletion(sp, disk.work.savepoints[sp].tid);
      RecordMore(local.deleted, deletion, s.holders);
      local.deleted := local.deleted + [deletion];
      d := d.(work := d.work.(savepoints := d.work.savepoints - {sp}));
      existed, now := Some(true), Delete(s, s.txn.value, sp);
    } else {
      existed, now := Some(false), Touched(s);
    }
  }

  predicate NothingModified(x: Txn) {
    x.created == {} && x.deleted == {}
  }

  function Switched(s: State, immediate: bool): State
    requires s.txn.Some?
  {
    s.(txn := Some(s.txn.value.(immediate := immediate)))
  }

  /** Refused for a commit that would lose changes to persistent savepoints. */
  method SetDurability(tracker: Tracker.TransactionTracker, mem: Memory, local: Tracker.SavepointState, disk: Disk,
                       immediate: bool, ghost s: State)
    returns (d: Disk, ok: bool, ghost now: State)
    requires Matches(tracker, mem, local, disk, s) && s.txn.Some?
    ensures ok <==> immediate || NothingModified(s.txn.value)
    ensures now == (if ok then Switched(s, immediate) else s) && Matches(tracker, mem, local, d, now)
  {
    NothingLocal(local.created, local.deleted);
    if !immediate && (local.created != {} || local.deleted != []) {
      return disk, false, s;
    }
    return disk.(work := disk.work.(immediate := immediate)), true, Switched(s, immediate);
  }

  lemma NothingLocal(created: set<Tracker.Deletion>, deleted: seq<Tracker.Deletion>)
    ensures Tracker.Named(created) == {} <==> created == {}
    ensures Tracker.Named(Tracker.Elements(deleted)) == {} <==> deleted == []
  {
    if d :| d in created {
      assert d.sp in Tracker.Named(created);
    }
    if deleted != [] {
      assert deleted[0] in Tracker.Elements(deleted);
      assert deleted[0].sp in Tracker.Named(Tracker.Elements(deleted));
    }
  }

  // ---------------------------------------------------------------- the data tables

  method StartWriter(tracker: Tracker.TransactionTracker, mem: Memory, old_local: Tracker.SavepointState, disk: Disk,
                     ghost s: State)
    returns (local: Tracker.SavepointState, d: Disk)
    requires Matches(tracker, mem, old_local, disk, s) && s.txn.None? && s.current.id <= s.nextTid
    modifies tracker
    ensures fresh(local) && Matches(tracker, mem, local, d, Begin(s))
  {
    var id := tracker.StartWrite();
    local := new Tracker.SavepointState();
    NewWorkStored(disk.committed, s.current, id, s.unprocessed);
    d := disk.(work := NewWork(disk.committed));
  }

  /** A transaction starts from the committed roots with nothing of its own. */
  function NewWork(r: Roots): Work {
    Work(r.data, r.tables, [], true, false, true, r.savepoints, r.nextSavepoint)
  }

  lemma NewWorkStored(r: Roots, i: Image, id: Tid, unprocessed: set<Tid>)
    requires ImageStored(r, i, unprocessed) && i.id < id
    ensures WorkStored(NewWork(r), NewTxn(i, id), i, unprocessed)
  {
    WiderFits(r.tables, r.id + 1, id, unprocessed);
    assert PageTables.Elements([]) == {};
  }

  lemma WiderFits(t: Tables, id: Tid, more: Tid, unprocessed: set<Tid>)
    requires Fits(t, id, unprocessed) && id <= more
    ensures Fits(t, more, unprocessed)
  {
  }

  /** `open_table`, which calls `set_dirty`. */
  method OpenTable(tracker: Tracker.TransactionTracker, mem: Memory, local: Tracker.SavepointState, disk: Disk,
                   ghost s: State)
    returns (d: Disk)
    requires Matches(tracker, mem, local, disk, s) && s.txn.Some?
    ensures Matches(tracker, mem, local, d, Open(s, s.txn.value))
  {
    assert tracker.valid.Keys == s.valid.Keys;
    d := disk.(work := disk.work.(dirty := true, tracking := disk.work.tracking && tracker.valid.Keys != {}));
  }

  /** One update of the data tree: what it drops is freed at once or queued. */
  method Mutate(mem: Memory, work: Work, wanted: set<Page>, dropped: seq<Page>, ghost s: State)
    returns (w: Work, added: set<Page>)
    requires MemoryMatches(mem, s) && s.txn.Some? && WorkStored(work, s.txn.value, s.current, s.unprocessed)
    requires NoDuplicates(dropped) && PageTables.Elements(dropped) <= s.txn.value.data
    requires s.txn.value.data !! s.txn.value.freed && s.uncommitted <= s.alloc
    modifies mem
    ensures added == wanted - s.alloc
    ensures MemoryMatches(mem, Update(s, s.txn.value, added, PageTables.Elements(dropped)))
    ensures WorkStored(w, Update(s, s.txn.value, added, PageTables.Elements(dropped)).txn.value, s.current,
                       s.unprocessed)
  {
    ghost var x := s.txn.value;
    var queued, recent := SplitList(dropped, mem.uncommitted);
    added := mem.Allocate(wanted);
    mem.FreeUncommitted(recent);
    JoinAside(work.freed, queued);
    w := work.(data := work.data - PageTables.Elements(dropped) + added, freed := work.freed + queued);
  }

  // ---------------------------------------------------------------- reopening

  function Registered(savepoints: map<SpId, Snapshot>): map<Holder, Tid> {
    map h | h in (set i | i in savepoints :: Persistent(i)) :: savepoints[h.sp].tid
  }

  method RegisterAll(tracker: Tracker.TransactionTracker, savepoints: map<SpId, Snapshot>)
    requires tracker.Valid() && tracker.holders == map[] && tracker.valid == map[]
    modifies tracker`live, tracker`holders, tracker`valid
    ensures tracker.Valid() && tracker.holders == Registered(savepoints) && tracker.valid == Tracker.Marks(savepoints)
  {
    var todo := savepoints.Keys;
    ghost var done: map<SpId, Snapshot> := map[];
    while todo != {}
      invariant todo <= savepoints.Keys && done.Keys == savepoints.Keys - todo
      invariant forall sp :: sp in done ==> done[sp] == savepoints[sp]
      invariant tracker.Valid() && tracker.holders == Registered(done) && tracker.valid == Tracker.Marks(done)
    {
      var sp :| sp in todo;
      RegisterNext(tracker, sp, savepoints[sp], done);
      todo, done := todo - {sp}, done[sp := savepoints[sp]];
    }
    assert done == savepoints;
  }

  method RegisterNext(tracker: Tracker.TransactionTracker, sp: SpId, x: Snapshot, ghost done: map<SpId, Snapshot>)
    requires tracker.Valid() && tracker.holders == Registered(done) && tracker.valid == Tracker.Marks(done)
             && sp !in done
    modifies tracker`live, tracker`holders, tracker`valid
    ensures tracker.Valid() && tracker.holders == Registered(done[sp := x])
            && tracker.valid == Tracker.Marks(done[sp := x])
  {
    RegisterOne(done, sp, x);
    MarksAdd(done, sp, x);
    tracker.RegisterPersistent(sp, x.tid);
  }

  /** The tracker of a new process: the counter and one reference per persistent savepoint. */
  method NewTracker(last: Tid, savepoints: map<SpId, Snapshot>, next: nat) returns (tracker: Tracker.TransactionTracker)
    ensures fresh(tracker) && tracker.Valid()
    ensures tracker.holders == Registered(savepoints) && tracker.valid == Tracker.Marks(savepoints)
    ensures tracker.nextSp == next && tracker.nextTid == last + 2
    ensures tracker.unprocessed == {} && tracker.liveWrite == None
  {
    tracker := new Tracker.TransactionTracker(last + 1);
    var id := tracker.StartWrite();
    tracker.RestoreCounter(next);
    RegisterAll(tracker, savepoints);
    tracker.EndWrite(id);
  }

  lemma RegisteredAt(m: map<SpId, Snapshot>, h: Holder)
    ensures h in Registered(m) <==> h.Persistent? && h.sp in m
    ensures h in Registered(m) ==> Registered(m)[h] == m[h.sp].tid
  {
  }

  lemma RegisterOne(done: map<SpId, Snapshot>, sp: SpId, x: Snapshot)
    requires sp !in done
    ensures Persistent(sp) !in Registered(done)
    ensures Registered(done[sp := x]) == Registered(done)[Persistent(sp) := x.tid]
  {
    var more := done[sp := x];
    forall h
      ensures h in Registered(more) <==> h in Registered(done)[Persistent(sp) := x.tid]
      ensures h in Registered(more) ==> Registered(more)[h] == Registered(done)[Persistent(sp) := x.tid][h]
    {
      RegisteredAt(more, h);
      RegisteredAt(done, h);
    }
  }

  lemma LaterRoots(r: Roots, d: Image)
    requires ImageStored(r, d, {})
    ensures ImageStored(r.(id := r.id + 1), d.(id := d.id + 1), {})
  {
    WiderFits(r.tables, r.id + 1, r.id + 2, {});
  }

  /** Both pairs of roots are the ones found on disk. */
  function Start(r: Roots): Disk {
    Disk(r, r, NewWork(r))
  }

  /** `Database::new` after a crash: only the durable roots are left of the old process. */
  method OpenAfterCrash(mem: Memory, durable: Roots, ghost s: State)
    returns (tracker: Tracker.TransactionTracker, local: Tracker.SavepointState, disk: Disk)
    requires ImageStored(durable, s.durable, {}) && Disjoint(s.durable)
    modifies mem
    ensures fresh(tracker) && fresh(local)
    ensures Matches(tracker, mem, local, disk, Crashed(s))
    ensures disk.committed == disk.durable == durable.(id := durable.id + 1)
    ensures tracker.valid == Tracker.Marks(durable.savepoints)
  {
    RebuildAllocator(mem, durable.data, durable.system, durable.tables, s.durable);
    var r := durable.(id := durable.id + 1);
    tracker := NewTracker(r.id, r.savepoints, r.nextSavepoint);
    local := new Tracker.SavepointState();
    LaterRoots(durable, s.durable);
    disk := Start(r);
  }

  /** `Database::new` with a saved allocator, whatever had happened since it was saved. */
  method OpenFromSaved(saved: set<Page>, durable: Roots, ghost s: State)
    returns (tracker: Tracker.TransactionTracker, mem: Memory, local: Tracker.SavepointState, disk: Disk)
    requires ImageStored(durable, s.durable, {}) && saved == Repaired(s.durable)
    ensures fresh(tracker) && fresh(mem) && fresh(local)
    ensures Matches(tracker, mem, local, disk, Loaded(s))
    ensures disk.committed == disk.durable == durable && mem.alloc == saved
    ensures tracker.valid == Tracker.Marks(durable.savepoints)
  {
    mem := new Memory(saved);
    tracker := NewTracker(durable.id, durable.savepoints, durable.nextSavepoint);
    local := new Tracker.SavepointState();
    disk := Start(durable);
  }
}
