/**
 The multi-version protocol of the redb transaction layer, as a state machine.

 A tree root is represented by the set of pages reachable from it.  A whole commit is one step
 and a crash falls back to the last durable commit.  What the storage layer chooses (which
 fresh pages it hands out, which system-tree pages a commit rewrites) is carried by the event.
 */
module Mvcc {
  import opened Ledgers

  type SpId = nat

  /** A transaction id together with the data pages reachable from its root. */
  datatype Snapshot = Snapshot(tid: Tid, pages: set<Page>)

  /** Everything a committed pair of roots gives access to. */
  datatype Image = Image(
    id: Tid,
    data: set<Page>,
    system: set<Page>,
    dataFreed: Ledger,
    systemFreed: Ledger,
    dataAllocated: Ledger,
    savepoints: map<SpId, Snapshot>,
    nextSavepoint: nat)

  /** One counted reference of `live_read_transactions`. */
  datatype Holder = Guard(n: nat) | Ephemeral(sp: SpId) | Persistent(sp: SpId) | NonDurable(t: Tid)

  /** The state private to the one write transaction. */
  datatype Txn = Txn(
    id: Tid,
    dirty: bool,
    immediate: bool,
    tracking: bool,
    data: set<Page>,
    freed: set<Page>,
    dataFreed: Ledger,
    savepoints: map<SpId, Snapshot>,
    nextSavepoint: nat,
    created: set<SpId>,
    deleted: set<SpId>,
    invalidated: set<SpId>)

  datatype State = State(
    // TransactionalMemory
    alloc: set<Page>,
    uncommitted: set<Page>,
    unpersisted: set<Page>,
    current: Image,
    durable: Image,
    // TransactionTracker
    holders: map<Holder, Tid>,
    valid: map<SpId, Snapshot>,
    unprocessed: set<Tid>,
    nextTid: Tid,
    nextSp: SpId,
    // read transactions that fetched their root
    readers: map<nat, Snapshot>,
    txn: Option<Txn>)

  datatype Event =
    | RegisterRead(n: nat)
    | FetchRoot(n: nat)
    | CloseRead(n: nat)
    | BeginWrite
    | SetDurability(immediate: bool)
    | OpenTable
    | OpenSystemTable
    | Mutate(added: set<Page>, dropped: set<Page>)
    | EphemeralSavepoint
    | PersistentSavepoint
    | DropSavepoint(sp: SpId)
    | DeletePersistent(sp: SpId)
    | Restore(sp: SpId)
    | CommitDurable(sysNew: set<Page>, sysDropped: set<Page>, quickRepair: bool)
    | CommitNonDurable(sysNew: set<Page>, sysDropped: set<Page>, processed: set<Tid>)
    | Abort
    | CrashAndRepair
    | LoadAllocator

  // ---------------------------------------------------------------- tracker queries

  /** Ids of non-durable commits still waiting for a durable one. */
  function Pending(holders: map<Holder, Tid>): set<Tid> {
    set h | h in holders && h.NonDurable? :: h.t
  }

  /** `oldest_live_read_transaction().map_or(own, |x| x.next())` */
  ghost function FreeUntil(holders: map<Holder, Tid>, own: Tid): Tid {
    if holders.Values == {} then own else Min(holders.Values) + 1
  }

  /** `valid_savepoints.first_key_value()`, the transaction of the savepoint with least id. */
  ghost function OldestSavepoint(valid: map<SpId, Snapshot>): Option<Tid> {
    if valid.Keys == {} then None else Some(valid[Min(valid.Keys)].tid)
  }

  /** `oldest_live_read_nondurable_transaction()` capped by the oldest savepoint. */
  ghost function FreeUntilNonDurable(s: State, own: Tid): Tid {
    var ids := s.holders.Values * Pending(s.holders);
    var readers := if ids == {} then own else Min(ids) + 1;
    match OldestSavepoint(s.valid)
    case None => readers
    case Some(t) => if t < readers then t else readers
  }

  /** `store_allocated_pages`: list the new allocations, purge below the oldest savepoint. */
  ghost function AllocatedAfterCommit(s: State, x: Txn): Ledger {
    match OldestSavepoint(s.valid)
    case None => map[]
    case Some(t) =>
      KeepFrom(s.current.dataAllocated + Tag(if x.tracking then s.uncommitted else {}, x.id), t)
  }

  // ---------------------------------------------------------------- commits

  /** Pages handed back to the allocator by `process_freed_pages`, before the new root is written. */
  ghost function DurableReleased(s: State, x: Txn): set<Page> {
    Before(x.dataFreed + Tag(x.freed, x.id), FreeUntil(s.holders, x.id))
    + Before(s.current.systemFreed, FreeUntil(s.holders, x.id))
  }

  ghost function DurableImage(s: State, x: Txn, sysNew: set<Page>, sysDropped: set<Page>, quick: bool): Image {
    var until := FreeUntil(s.holders, x.id);
    Image(x.id,
          x.data,
          s.current.system - sysDropped + sysNew,
          KeepFrom(x.dataFreed + Tag(x.freed, x.id), until),
          KeepFrom(s.current.systemFreed, until) + Tag(if quick then sysDropped else {}, x.id),
          AllocatedAfterCommit(s, x),
          x.savepoints,
          x.nextSavepoint)
  }

  /**
   `durable_commit`.  Pages dropped from the system tree are freed right after the commit; with
   quick repair they are queued in the system ledger instead.
   */
  ghost function DurableCommit(s: State, x: Txn, sysNew: set<Page>, sysDropped: set<Page>, quick: bool): State {
    var image := DurableImage(s, x, sysNew, sysDropped, quick);
    s.(alloc := s.alloc - DurableReleased(s, x) + sysNew - (if quick then {} else sysDropped),
       uncommitted := {},
       unpersisted := {},
       current := image,
       durable := image,
       holders := map h | h in s.holders && !h.NonDurable? && !(h.Persistent? && h.sp in x.deleted)
                        :: s.holders[h],
       valid := s.valid - x.deleted - x.invalidated,
       txn := None)
  }

  /** Pages handed back by `process_freed_pages_nondurable`: unpersisted pages only. */
  ghost function NonDurableReleased(s: State, l: Ledger, processed: set<Tid>): set<Page> {
    set p | p in l && l[p] in processed && p in s.unpersisted
  }

  ghost function NonDurableReleasedAll(s: State, x: Txn, processed: set<Tid>): set<Page> {
    NonDurableReleased(s, x.dataFreed + Tag(x.freed, x.id), processed)
    + NonDurableReleased(s, s.current.systemFreed, processed)
  }

  ghost function NonDurableImage(s: State, x: Txn, sysNew: set<Page>, sysDropped: set<Page>, processed: set<Tid>): Image
  {
    var freed := x.dataFreed + Tag(x.freed, x.id);
    Image(x.id,
          x.data,
          s.current.system - sysDropped + sysNew,
          Drop(freed, NonDurableReleased(s, freed, processed)),
          Drop(s.current.systemFreed, NonDurableReleased(s, s.current.systemFreed, processed))
          + Tag(sysDropped - s.unpersisted, x.id),
          AllocatedAfterCommit(s, x),
          x.savepoints,
          x.nextSavepoint)
  }

  /**
   `non_durable_commit`.  Unpersisted pages dropped from the system tree are freed after the
   commit; they stay listed as unpersisted, as in the code.
   */
  ghost function NonDurableCommit(s: State, x: Txn, sysNew: set<Page>, sysDropped: set<Page>,
                                  processed: set<Tid>): State
  {
    var released := NonDurableReleasedAll(s, x, processed);
    s.(alloc := s.alloc - released + sysNew - (sysDropped * s.unpersisted),
       uncommitted := {},
       unpersisted := s.unpersisted - released + s.uncommitted + sysNew,
       current := NonDurableImage(s, x, sysNew, sysDropped, processed),
       holders := s.holders[NonDurable(x.id) := s.durable.id],
       valid := s.valid - x.invalidated,
       unprocessed := s.unprocessed - processed + {x.id},
       txn := None)
  }

  // ---------------------------------------------------------------- read transactions

  function Register(s: State, n: nat): State {
    s.(holders := s.holders[Guard(n) := s.current.id])
  }

  function Fetch(s: State, n: nat): State {
    s.(readers := s.readers[n := Snapshot(s.current.id, s.current.data)])
  }

  function Close(s: State, n: nat): State {
    s.(holders := s.holders - {Guard(n)}, readers := s.readers - {n})
  }

  // ---------------------------------------------------------------- the write transaction

  function NewTxn(i: Image, id: Tid): Txn {
    Txn(id, false, true, true, i.data, {}, i.dataFreed, i.savepoints, i.nextSavepoint, {}, {}, {})
  }

  function Begin(s: State): State {
    s.(nextTid := s.nextTid + 1, txn := Some(NewTxn(s.current, s.nextTid + 1)))
  }

  /** `set_dirty`: allocation tracking stops once no savepoint can need it. */
  function Open(s: State, x: Txn): State {
    s.(txn := Some(x.(dirty := true, tracking := x.tracking && s.valid.Keys != {})))
  }

  /** A data tree update: uncommitted pages are freed at once, committed ones are queued. */
  function Update(s: State, x: Txn, added: set<Page>, dropped: set<Page>): State {
    s.(alloc := s.alloc + added - (dropped * s.uncommitted),
       uncommitted := s.uncommitted + added - (dropped * s.uncommitted),
       txn := Some(x.(data := x.data - dropped + added, freed := x.freed + (dropped - s.uncommitted))))
  }

  function Aborted(s: State, x: Txn): State {
    s.(alloc := s.alloc - s.uncommitted,
       uncommitted := {},
       holders := map h | h in s.holders && !(h.Persistent? && h.sp in x.created) :: s.holders[h],
       valid := s.valid - x.created,
       txn := None)
  }

  // ---------------------------------------------------------------- savepoints

  function NewEphemeral(s: State): State {
    s.(nextSp := s.nextSp + 1,
       valid := s.valid[s.nextSp + 1 := Snapshot(s.current.id, s.current.data)],
       holders := s.holders[Ephemeral(s.nextSp + 1) := s.current.id])
  }

  function NewPersistent(s: State, x: Txn): State {
    var id := s.nextSp + 1;
    var snap := Snapshot(s.current.id, s.current.data);
    s.(nextSp := id,
       valid := s.valid[id := snap],
       holders := s.holders[Persistent(id) := s.current.id],
       txn := Some(x.(dirty := true,
                      savepoints := x.savepoints[id := snap],
                      nextSavepoint := id + 1,
                      created := x.created + {id})))
  }

  function DropHandle(s: State, sp: SpId): State {
    s.(holders := s.holders - {Ephemeral(sp)}, valid := s.valid - {sp})
  }

  function Delete(s: State, x: Txn, sp: SpId): State {
    s.(txn := Some(x.(dirty := true, savepoints := x.savepoints - {sp}, deleted := x.deleted + {sp})))
  }

  function NewerThan(ids: set<SpId>, sp: SpId): set<SpId> {
    set i | i in ids && i > sp
  }

  function RestoreTxn(s: State, x: Txn, sp: SpId): Txn
    requires sp in s.valid
  {
    var target := s.valid[sp];
    var doomed := NewerThan(x.savepoints.Keys, sp);
    x.(dirty := true,
       data := target.pages,
       dataFreed := KeepThrough(x.dataFreed, target.tid),
       freed := After(s.current.dataAllocated, target.tid),
       invalidated := x.invalidated + NewerThan(s.valid.Keys, sp),
       savepoints := x.savepoints - doomed,
       deleted := x.deleted + doomed)
  }

  function Restored(s: State, x: Txn, sp: SpId): State
    requires sp in s.valid
  {
    var reset := if x.tracking then s.uncommitted else {};
    s.(alloc := s.alloc - reset, uncommitted := s.uncommitted - reset, txn := Some(RestoreTxn(s, x, sp)))
  }

  // ---------------------------------------------------------------- reopening

  /** The allocator as `do_repair` rebuilds it: two roots and two freed tables, nothing else. */
  function Repaired(d: Image): set<Page> {
    d.data + d.system + d.dataFreed.Keys + d.systemFreed.Keys
  }

  function Reopened(d: Image, alloc: set<Page>): State {
    State(alloc, {}, {}, d, d,
          map h | h in (set i | i in d.savepoints :: Persistent(i)) :: d.savepoints[h.sp].tid,
          d.savepoints, {}, d.id + 2, d.nextSavepoint, map[], None)
  }

  /** `Database::new` after a crash: repair, then commit the repaired roots under the next id. */
  function Crashed(s: State): State {
    var d := s.durable.(id := s.durable.id + 1);
    Reopened(d, Repaired(d))
  }

  /**
   `Database::new` when the last durable commit has saved the allocator: after a clean shutdown,
   or after a crash that follows a commit with quick repair.  Nothing is repaired or committed.
   */
  function Loaded(s: State): State {
    Reopened(s.durable, Repaired(s.durable))
  }

  // ---------------------------------------------------------------- the machine

  ghost predicate CanCommitDurable(s: State, x: Txn, sysNew: set<Page>, sysDropped: set<Page>) {
    && x.immediate
    && sysDropped <= s.current.system
    && sysNew !! (s.alloc - DurableReleased(s, x))
  }

  /** Unprocessed commits before the bound that still have pages queued. */
  ghost function Due(s: State, x: Txn): set<Tid> {
    set t | t in s.unprocessed && t < FreeUntilNonDurable(s, x.id)
            && (t in (x.dataFreed + Tag(x.freed, x.id)).Values || t in s.current.systemFreed.Values)
  }

  ghost predicate CanCommitNonDurable(s: State, x: Txn, sysNew: set<Page>, sysDropped: set<Page>, processed: set<Tid>) {
    && !x.immediate
    && sysDropped <= s.current.system
    && sysNew !! (s.alloc - NonDurableReleasedAll(s, x, processed))
    && Due(s, x) <= processed <= s.unprocessed
    && (forall t :: t in processed ==> t < FreeUntilNonDurable(s, x.id))
  }

  predicate CanRestore(s: State, x: Txn, sp: SpId) {
    && sp in s.valid
    && sp !in x.invalidated
    && (x.immediate || NewerThan(x.savepoints.Keys, sp) == {})
  }

  /** Guards under which an operation does not return an error. */
  ghost predicate Enabled(s: State, e: Event) {
    match e
    case RegisterRead(n) => Guard(n) !in s.holders
    case FetchRoot(n) => Guard(n) in s.holders && n !in s.readers
    case CloseRead(n) => Guard(n) in s.holders
    case BeginWrite => s.txn.None?
    case SetDurability(im) => s.txn.Some? && (im || (s.txn.value.created == {} && s.txn.value.deleted == {}))
    case OpenTable => s.txn.Some?
    case OpenSystemTable => s.txn.Some?
    case Mutate(added, dropped) =>
      s.txn.Some? && s.txn.value.dirty && added !! s.alloc && dropped <= s.txn.value.data
    case EphemeralSavepoint => s.txn.Some? && !s.txn.value.dirty
    case PersistentSavepoint => s.txn.Some? && !s.txn.value.dirty && s.txn.value.immediate
    case DropSavepoint(sp) => Ephemeral(sp) in s.holders
    case DeletePersistent(sp) => s.txn.Some? && s.txn.value.immediate && sp in s.txn.value.savepoints
    case Restore(sp) => s.txn.Some? && CanRestore(s, s.txn.value, sp)
    case CommitDurable(sysNew, sysDropped, _) =>
      s.txn.Some? && CanCommitDurable(s, s.txn.value, sysNew, sysDropped)
    case CommitNonDurable(sysNew, sysDropped, processed) =>
      s.txn.Some? && CanCommitNonDurable(s, s.txn.value, sysNew, sysDropped, processed)
    case Abort => s.txn.Some?
    case CrashAndRepair => true
    case LoadAllocator => true
  }

  ghost function Next(s: State, e: Event): State
    requires Enabled(s, e)
  {
    match e
    case RegisterRead(n) => Register(s, n)
    case FetchRoot(n) => Fetch(s, n)
    case CloseRead(n) => Close(s, n)
    case BeginWrite => Begin(s)
    case SetDurability(im) => s.(txn := Some(s.txn.value.(immediate := im)))
    case OpenTable => Open(s, s.txn.value)
    case OpenSystemTable => s.(txn := Some(s.txn.value.(dirty := true)))
    case Mutate(added, dropped) => Update(s, s.txn.value, added, dropped)
    case EphemeralSavepoint => NewEphemeral(s)
    case PersistentSavepoint => NewPersistent(s, s.txn.value)
    case DropSavepoint(sp) => DropHandle(s, sp)
    case DeletePersistent(sp) => Delete(s, s.txn.value, sp)
    case Restore(sp) => Restored(s, s.txn.value, sp)
    case CommitDurable(sysNew, sysDropped, quick) => DurableCommit(s, s.txn.value, sysNew, sysDropped, quick)
    case CommitNonDurable(sysNew, sysDropped, processed) =>
      NonDurableCommit(s, s.txn.value, sysNew, sysDropped, processed)
    case Abort => Aborted(s, s.txn.value)
    case CrashAndRepair => Crashed(s)
    case LoadAllocator => Loaded(s)
  }

  function Init(): State {
    Reopened(Image(0, {}, {}, map[], map[], map[], map[], 0), {})
  }
}
