/**
 The database with its one writer, its readers and its savepoints.  Whatever a client does with
 it, across crashes, `model` is a state some run of the protocol reaches, so that every result
 about runs holds of the object.
 */
module DatabaseObject {
  import opened Ledgers
  import opened Mvcc
  import opened MvccInvariant
  import opened MvccTheorems
  import MvccReadRace
  import opened PageTables
  import Tracker
  import Engine
  import opened EngineParts
  import DatabaseSteps

  // ---------------------------------------------------------------- what reachability gives each step

  lemma WriterReady(s: State)
    requires Reached(s) && s.txn.Some?
    ensures Ready(s, s.txn.value) && ReferencesReady(s, s.txn.value)
  {
    ReachedInv(s);
    InvReady(s);
  }

  lemma NamesReady(s: State)
    requires Reached(s) && s.txn.Some?
    ensures Ephemeral(s.nextSp + 1) !in s.holders && Persistent(s.nextSp + 1) !in s.holders
  {
    WriterReady(s);
  }

  lemma TableReady(s: State)
    requires Reached(s) && s.txn.Some?
    ensures Referenced(s.txn.value.savepoints, s.txn.value.deleted, s.holders) && s.uncommitted <= s.alloc
  {
    WriterReady(s);
  }

  lemma TreeReady(s: State)
    requires Reached(s) && s.txn.Some?
    ensures s.txn.value.data !! s.txn.value.freed && s.uncommitted <= s.alloc
  {
    ReachedInv(s);
  }

  lemma IdsReady(s: State)
    requires Reached(s)
    ensures s.current.id <= s.nextTid
  {
    ReachedInv(s);
  }

  lemma DurableReady(s: State)
    requires Reached(s)
    ensures Disjoint(s.durable)
  {
    ReachedInv(s);
  }

  /** Nothing comes between the two halves of `begin_read` here. */
  lemma FetchReady(s: State, n: nat)
    requires Reached(s) && Guard(n) !in s.holders
    ensures Guard(n) in Register(s, n).holders && RootProtected(Register(s, n), n)
  {
    ReachedInv(s);
    MvccReadRace.UndisturbedFetchIsProtected(s, n, []);
  }

  /** A handle that is not registered has no root. */
  lemma NoRoot(s: State, n: nat)
    requires Reached(s) && Guard(n) !in s.holders
    ensures n !in s.readers
  {
    ReachedInv(s);
    assert n in s.readers ==>
        GuardOk(s.holders, n, s.readers[n], s.current.id, s.durable.id, s.unpersisted + s.uncommitted, Saved(s));
  }

  // ---------------------------------------------------------------- one step each

  /** `e` leads from one reachable state to another. */
  ghost predicate Leads(s: State, e: Event, now: State) {
    Guarded(s, e) && now == Next(s, e) && Reached(now)
  }

  lemma RegisterStep(s: State, n: nat)
    requires Reached(s) && Guard(n) !in s.holders
    ensures Leads(s, RegisterRead(n), Register(s, n))
  {
    ReachedStep(s, RegisterRead(n));
  }

  lemma FetchStep(s: State, n: nat)
    requires Reached(s) && Guard(n) in s.holders && n !in s.readers && RootProtected(s, n)
    ensures Leads(s, FetchRoot(n), Fetch(s, n))
  {
    ReachedStep(s, FetchRoot(n));
  }

  lemma CloseStep(s: State, n: nat)
    requires Reached(s) && Guard(n) in s.holders
    ensures Leads(s, CloseRead(n), Close(s, n))
  {
    ReachedStep(s, CloseRead(n));
  }

  lemma BeginStep(s: State)
    requires Reached(s) && s.txn.None?
    ensures Leads(s, BeginWrite, Begin(s))
  {
    ReachedStep(s, BeginWrite);
  }

  lemma DurabilityStep(s: State, immediate: bool)
    requires Reached(s) && s.txn.Some?
    ensures immediate || DatabaseSteps.NothingModified(s.txn.value) ==>
              Leads(s, SetDurability(immediate), DatabaseSteps.Switched(s, immediate))
  {
    if immediate || DatabaseSteps.NothingModified(s.txn.value) {
      ReachedStep(s, SetDurability(immediate));
    }
  }

  lemma OpenStep(s: State)
    requires Reached(s) && s.txn.Some?
    ensures Leads(s, OpenTable, Open(s, s.txn.value))
  {
    ReachedStep(s, OpenTable);
  }

  lemma TouchStep(s: State)
    requires Reached(s) && s.txn.Some?
    ensures Leads(s, OpenSystemTable, DatabaseSteps.Touched(s))
  {
    ReachedStep(s, OpenSystemTable);
  }

  lemma MutateStep(s: State, added: set<Page>, dropped: set<Page>)
    requires Reached(s) && Enabled(s, Mutate(added, dropped))
    ensures Leads(s, Mutate(added, dropped), Update(s, s.txn.value, added, dropped))
  {
    ReachedStep(s, Mutate(added, dropped));
  }

  lemma CommitStep(s: State, e: Event)
    requires Reached(s) && Enabled(s, e) && !e.FetchRoot?
    ensures Leads(s, e, Next(s, e))
  {
    ReachedStep(s, e);
  }

  lemma AbortStep(s: State)
    requires Reached(s) && s.txn.Some?
    ensures Leads(s, Abort, Aborted(s, s.txn.value))
  {
    ReachedStep(s, Abort);
  }

  lemma EphemeralStep(s: State)
    requires Reached(s) && s.txn.Some?
    ensures !s.txn.value.dirty ==> Leads(s, EphemeralSavepoint, NewEphemeral(s))
  {
    if !s.txn.value.dirty {
      ReachedStep(s, EphemeralSavepoint);
    }
  }

  lemma PersistentStep(s: State)
    requires Reached(s) && s.txn.Some? && s.txn.value.immediate && !s.txn.value.dirty
    ensures Leads(s, PersistentSavepoint, NewPersistent(s, s.txn.value))
  {
    NextPersistent(s);
    ReachedStep(s, PersistentSavepoint);
  }

  lemma PersistentOutcome(s: State, made: bool, now: State)
    requires Reached(s) && s.txn.Some? && made == (s.txn.value.immediate && !s.txn.value.dirty)
    requires now == if made then NewPersistent(s, s.txn.value) else s
    ensures Reached(now) && (made ==> Leads(s, PersistentSavepoint, now))
  {
    if made {
      PersistentStep(s);
    }
  }

  lemma DropStep(s: State, sp: SpId)
    requires Reached(s) && Ephemeral(sp) in s.holders
    ensures Leads(s, DropSavepoint(sp), DropHandle(s, sp))
  {
    ReachedStep(s, DropSavepoint(sp));
  }

  lemma DeleteStep(s: State, sp: SpId)
    requires Reached(s) && s.txn.Some?
    ensures s.txn.value.immediate && sp in s.txn.value.savepoints ==>
              Leads(s, DeletePersistent(sp), Delete(s, s.txn.value, sp))
  {
    if s.txn.value.immediate && sp in s.txn.value.savepoints {
      ReachedStep(s, DeletePersistent(sp));
    }
  }

  lemma RestoreStep(s: State, sp: SpId)
    requires Reached(s) && s.txn.Some?
    ensures CanRestore(s, s.txn.value, sp) ==> Leads(s, Restore(sp), Restored(s, s.txn.value, sp))
  {
    if CanRestore(s, s.txn.value, sp) {
      ReachedStep(s, Restore(sp));
    }
  }

  lemma CrashStep(s: State)
    requires Reached(s)
    ensures Leads(s, CrashAndRepair, Crashed(s))
  {
    ReachedStep(s, CrashAndRepair);
  }

  lemma LoadStep(s: State)
    requires Reached(s)
    ensures Leads(s, LoadAllocator, Loaded(s))
  {
    ReachedStep(s, LoadAllocator);
  }

  // ---------------------------------------------------------------- the object

  class Database {
    var tracker: Tracker.TransactionTracker
    var local: Tracker.SavepointState
    const mem: Memory
    var disk: DatabaseSteps.Disk
    ghost var model: State

    ghost predicate Valid()
      reads this, tracker, local, mem
    {
      DatabaseSteps.Matches(tracker, mem, local, disk, model) && Reached(model)
    }

    /** The protocol makes the step `e`. */
    twostate predicate Makes(e: Event)
      reads this
    {
      Leads(old(model), e, model)
    }

    /** Whatever has happened: roots, readers and savepoints keep all their pages. */
    lemma AlwaysSafe()
      requires Valid()
      ensures disk.committed.data + disk.committed.system + disk.durable.data + disk.durable.system <= mem.alloc
      ensures forall n :: n in model.readers ==> model.readers[n].pages <= mem.alloc
      ensures forall sp :: sp in disk.durable.savepoints ==> disk.durable.savepoints[sp].pages <= mem.alloc
      ensures forall sp :: sp in tracker.valid ==> sp in model.valid && model.valid[sp].pages <= mem.alloc
    {
      ReachedSafe(model);
    }

    constructor ()
      ensures Valid() && model == Init() && fresh(tracker) && fresh(local) && fresh(mem)
    {
      tracker := new Tracker.TransactionTracker(2);
      local := new Tracker.SavepointState();
      mem := new Memory({});
      disk := DatabaseSteps.Start(Roots(0, {}, {}, Engine.Tables(map[], map[], map[]), map[], 0));
      model := Init();
      new;
      assert PageTables.Elements([]) == {};
      InitReached();
    }

    /** The fields follow what the step has done to tracker and memory. */
    method Follow(d: DatabaseSteps.Disk, ghost now: State)
      requires DatabaseSteps.Matches(tracker, mem, local, d, now) && Reached(now)
      modifies this`disk, this`model
      ensures Valid() && model == now && disk == d
    {
      disk := d;
      model := now;
    }

    // -------------------------------------------------------------- readers

    method RegisterRead(ghost n: nat) returns (id: Tid)
      requires Valid() && Guard(n) !in model.holders
      modifies this`model, this`disk, tracker
      ensures Valid() && Makes(Event.RegisterRead(n)) && disk == old(disk) && id == model.holders[Guard(n)]
    {
      ghost var s := model;
      RegisterStep(s, n);
      id := DatabaseSteps.RegisterReader(tracker, mem, local, disk, n, s);
      Follow(disk, Register(s, n));
    }

    /** The second half of `begin_read`, under the condition that makes it safe. */
    method FetchRoot(ghost n: nat) returns (root: set<Page>)
      requires Valid() && Guard(n) in model.holders && n !in model.readers && RootProtected(model, n)
      modifies this`model, this`disk
      ensures Valid() && Makes(Event.FetchRoot(n)) && disk == old(disk) && model.readers[n].pages == root
    {
      ghost var s := model;
      root := disk.committed.data;
      FetchStep(s, n);
      Follow(disk, Fetch(s, n));
    }

    /** `begin_read` with no commit in between. */
    method BeginRead(ghost n: nat) returns (id: Tid, root: set<Page>)
      requires Valid() && Guard(n) !in model.holders
      modifies this`model, this`disk, tracker
      ensures Valid() && model == Fetch(Register(old(model), n), n) && disk == old(disk)
      ensures id == model.holders[Guard(n)] && model.readers[n].pages == root == disk.committed.data
    {
      FetchReady(model, n);
      NoRoot(model, n);
      id := RegisterRead(n);
      root := FetchRoot(n);
    }

    method CloseRead(id: Tid, ghost n: nat)
      requires Valid() && Guard(n) in model.holders && model.holders[Guard(n)] == id
      modifies this`model, this`disk, tracker
      ensures Valid() && Makes(Event.CloseRead(n)) && disk == old(disk)
    {
      ghost var s := model;
      CloseStep(s, n);
      DatabaseSteps.CloseReader(tracker, mem, local, disk, id, n, s);
      Follow(disk, Close(s, n));
    }

    // -------------------------------------------------------------- the write transaction

    method BeginWrite()
      requires Valid() && model.txn.None?
      modifies this`model, this`disk, this`local, tracker
      ensures Valid() && Makes(Event.BeginWrite) && fresh(local)
    {
      ghost var s := model;
      IdsReady(s);
      BeginStep(s);
      local, disk := DatabaseSteps.StartWriter(tracker, mem, local, disk, s);
      Follow(disk, Begin(s));
    }

    method SetDurability(immediate: bool) returns (ok: bool)
      requires Valid() && model.txn.Some?
      modifies this`model, this`disk
      ensures Valid() && (ok <==> immediate || DatabaseSteps.NothingModified(old(model).txn.value))
      ensures if ok then Makes(Event.SetDurability(immediate)) else model == old(model)
    {
      ghost var s := model;
      DurabilityStep(s, immediate);
      var d;
      ghost var now;
      d, ok, now := DatabaseSteps.SetDurability(tracker, mem, local, disk, immediate, s);
      Follow(d, now);
    }

    method OpenTable()
      requires Valid() && model.txn.Some?
      modifies this`model, this`disk
      ensures Valid() && Makes(Event.OpenTable)
    {
      ghost var s := model;
      OpenStep(s);
      var d := DatabaseSteps.OpenTable(tracker, mem, local, disk, s);
      Follow(d, Open(s, s.txn.value));
    }

    /** One update of an open table: the tree drops pages and takes what the allocator gives it. */
    method Mutate(wanted: set<Page>, dropped: seq<Page>) returns (added: set<Page>)
      requires Valid() && model.txn.Some? && model.txn.value.dirty
      requires NoDuplicates(dropped) && PageTables.Elements(dropped) <= model.txn.value.data
      modifies this`model, this`disk, mem
      ensures Valid() && added == wanted - old(model).alloc && Makes(Event.Mutate(added, PageTables.Elements(dropped)))
    {
      ghost var s := model;
      TreeReady(s);
      var w;
      w, added := DatabaseSteps.Mutate(mem, disk.work, wanted, dropped, s);
      MutateStep(s, added, PageTables.Elements(dropped));
      Follow(disk.(work := w), Update(s, s.txn.value, added, PageTables.Elements(dropped)));
    }

    /** One enabled commit, durable or not as the transaction was set. */
    method Commit(wanted: set<Page>, sysDropped: seq<Page>, quick: bool) returns (ghost e: Event)
      requires Valid() && model.txn.Some?
      requires NoDuplicates(sysDropped) && PageTables.Elements(sysDropped) <= model.current.system
      modifies this`model, this`disk, tracker, local, mem
      ensures Valid() && Makes(e) && if old(model).txn.value.immediate then e.CommitDurable? else e.CommitNonDurable?
    {
      ghost var s := model;
      WriterReady(s);
      var d;
      ghost var now;
      d, e, now := DatabaseSteps.Commit(tracker, mem, local, disk, wanted, sysDropped, quick, s);
      CommitStep(s, e);
      Follow(d, now);
    }

    method Abort()
      requires Valid() && model.txn.Some?
      modifies this`model, this`disk, tracker, local, mem
      ensures Valid() && Makes(Event.Abort)
    {
      ghost var s := model;
      AbortStep(s);
      DatabaseSteps.AbortWrite(tracker, mem, local, disk, s);
      Follow(disk, Aborted(s, s.txn.value));
    }

    // -------------------------------------------------------------- savepoints

    method EphemeralSavepoint() returns (r: Option<SpId>)
      requires Valid() && model.txn.Some?
      modifies this`model, this`disk, tracker
      ensures Valid() && r.Some? == !old(model).txn.value.dirty
      ensures if r.Some? then Makes(Event.EphemeralSavepoint) && r.value == model.nextSp else model == old(model)
    {
      ghost var s := model;
      NamesReady(s);
      EphemeralStep(s);
      ghost var now;
      r, now := DatabaseSteps.EphemeralSavepoint(tracker, mem, local, disk, s);
      Follow(disk, now);
    }

    method PersistentSavepoint() returns (r: Option<SpId>)
      requires Valid() && model.txn.Some?
      modifies this`model, this`disk, tracker, local
      ensures Valid() && r.Some? == (old(model).txn.value.immediate && !old(model).txn.value.dirty)
      ensures if r.Some? then Makes(Event.PersistentSavepoint) && r.value == model.nextSp else model == old(model)
    {
      ghost var s := model;
      NamesReady(s);
      var d;
      ghost var now;
      d, r, now := DatabaseSteps.PersistentSavepoint(tracker, mem, local, disk, s);
      PersistentOutcome(s, r.Some?, now);
      Follow(d, now);
    }

    method DropSavepoint(sp: SpId, id: Tid)
      requires Valid() && Ephemeral(sp) in model.holders && model.holders[Ephemeral(sp)] == id
      modifies this`model, this`disk, tracker
      ensures Valid() && Makes(Event.DropSavepoint(sp))
    {
      ghost var s := model;
      DropStep(s, sp);
      DatabaseSteps.DropEphemeral(tracker, mem, local, disk, sp, id, s);
      Follow(disk, DropHandle(s, sp));
    }

    /** A savepoint that is not there still opens the table, which makes the transaction dirty. */
    method DeletePersistent(sp: SpId) returns (existed: Option<bool>)
      requires Valid() && model.txn.Some?
      modifies this`model, this`disk, local
      ensures Valid()
      ensures existed == if old(model).txn.value.immediate then Some(sp in old(model).txn.value.savepoints) else None
      ensures match existed
              case None => model == old(model)
              case Some(true) => Makes(Event.DeletePersistent(sp))
              case Some(false) => Makes(OpenSystemTable)
    {
      ghost var s := model;
      TableReady(s);
      TouchStep(s);
      DeleteStep(s, sp);
      var d;
      ghost var now;
      d, existed, now := DatabaseSteps.DeletePersistent(tracker, mem, local, disk, sp, s);
      Follow(d, now);
    }

    /** With a handle on savepoint `sp`; a refusal may have looked into the savepoint table. */
    method RestoreSavepoint(sp: SpId, target: Snapshot) returns (ok: bool)
      requires Valid() && model.txn.Some? && (sp in model.valid ==> model.valid[sp] == target)
      modifies this`model, this`disk, local, mem
      ensures Valid() && ok == CanRestore(old(model), old(model).txn.value, sp)
      ensures if ok then Makes(Restore(sp))
              else if sp in old(model).valid && sp !in old(model).txn.value.invalidated then Makes(OpenSystemTable)
              else model == old(model)
    {
      ghost var s := model;
      TableReady(s);
      TouchStep(s);
      RestoreStep(s, sp);
      var d;
      ghost var now;
      d, ok, now := DatabaseSteps.RestoreSnapshot(tracker, mem, local, disk, sp, target, s);
      Follow(d, now);
    }

    // -------------------------------------------------------------- reopening

    /** The process that had reached `s` died; a new one repairs what is on disk and opens it. */
    constructor Recover(memory: Memory, durable: Roots, ghost s: State)
      requires Reached(s) && ImageStored(durable, s.durable, {})
      modifies memory
      ensures Valid() && model == Crashed(s) && mem == memory && fresh(tracker) && fresh(local)
      ensures disk.committed == disk.durable == durable.(id := durable.id + 1)
      ensures tracker.valid == Tracker.Marks(durable.savepoints)
    {
      DurableReady(s);
      CrashStep(s);
      var t, l, d := DatabaseSteps.OpenAfterCrash(memory, durable, s);
      tracker, local, disk, model, mem := t, l, d, Crashed(s), memory;
    }

    /**
     The process that had reached `s` ended, in whatever way; its last durable commit had saved
     the allocator, which `MvccTheorems.SavedIsRepaired` says was what a repair would rebuild.
     */
    constructor Reopen(saved: set<Page>, durable: Roots, ghost s: State)
      requires Reached(s) && ImageStored(durable, s.durable, {}) && saved == Repaired(s.durable)
      ensures Valid() && model == Loaded(s) && fresh(tracker) && fresh(local) && fresh(mem)
      ensures disk.committed == disk.durable == durable && mem.alloc == saved
      ensures tracker.valid == Tracker.Marks(durable.savepoints)
    {
      LoadStep(s);
      var t, m, l, d := DatabaseSteps.OpenFromSaved(saved, durable, s);
      tracker, local, disk, model, mem := t, l, d, Loaded(s), m;
    }
  }
}
