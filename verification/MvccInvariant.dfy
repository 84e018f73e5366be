/**
 The inductive invariant of the multi-version protocol, in named parts.  Each part takes only
 the components it speaks about, so that a step has to argue only about what it changes.
 */
module MvccInvariant {
  import opened Ledgers
  import opened Mvcc

  /** The data pages one root and its ledger account for. */
  datatype View = View(data: set<Page>, freed: set<Page>, ledger: Ledger)

  function ImageView(i: Image): View {
    View(i.data, {}, i.dataFreed)
  }

  function TxnView(x: Txn): View {
    View(x.data, x.freed, x.dataFreed)
  }

  function Root(i: Image): Snapshot {
    Snapshot(i.id, i.data)
  }

  // ---------------------------------------------------------------- pages

  /** Every page of the snapshot is still in use or queued under a later transaction. */
  ghost predicate Cover(v: View, x: Snapshot) {
    x.pages <= v.data + v.freed + After(v.ledger, x.tid)
  }

  ghost predicate CoverAll(v: View, readers: map<nat, Snapshot>) {
    forall n :: n in readers ==> Cover(v, readers[n])
  }

  /**
   Conservation since a savepoint: its pages and everything allocated after it are exactly the
   pages in use now and everything queued for freeing after it, each page once on either side.
   */
  ghost predicate Conserve(v: View, allocation: Ledger, uncommitted: set<Page>, x: Snapshot) {
    && x.pages !! After(allocation, x.tid)
    && uncommitted !! x.pages + After(allocation, x.tid)
    && x.pages + After(allocation, x.tid) + uncommitted == v.data + v.freed + After(v.ledger, x.tid)
  }

  ghost predicate ConserveAll(v: View, allocation: Ledger, uncommitted: set<Page>, valid: map<SpId, Snapshot>) {
    forall sp :: sp in valid ==> Conserve(v, allocation, uncommitted, valid[sp])
  }

  /** No ledger entry is later than `t`. */
  ghost predicate Bounded(l: Ledger, t: Tid) {
    forall p :: p in l ==> l[p] <= t
  }

  /** The four page classes of a committed image do not overlap. */
  ghost predicate Disjoint(i: Image) {
    && i.data !! i.system
    && i.data !! i.dataFreed.Keys
    && i.data !! i.systemFreed.Keys
    && i.system !! i.dataFreed.Keys
    && i.system !! i.systemFreed.Keys
    && i.dataFreed.Keys !! i.systemFreed.Keys
  }

  ghost predicate LedgersOk(i: Image) {
    && Bounded(i.dataFreed, i.id)
    && Bounded(i.systemFreed, i.id)
    && Bounded(i.dataAllocated, i.id)
    && i.dataAllocated.Keys <= i.data + i.dataFreed.Keys
    && (forall p :: p in i.dataAllocated && i.dataAllocated[p] == i.id ==> p in i.data)
  }

  // ---------------------------------------------------------------- savepoints

  /** Savepoints with larger ids belong to transactions that are not older. */
  ghost predicate Ordered(valid: map<SpId, Snapshot>) {
    forall i, j {:trigger valid[i], valid[j]} :: i in valid && j in valid && i < j ==> valid[i].tid <= valid[j].tid
  }

  ghost predicate TaggedOk(id: Tid, allocation: Ledger, x: Snapshot) {
    && x.tid <= id
    && (forall p :: p in allocation && allocation[p] == x.tid ==> p in x.pages)
  }

  ghost predicate RootsOk(i: Image, valid: map<SpId, Snapshot>) {
    && Ordered(valid)
    && ConserveAll(ImageView(i), i.dataAllocated, {}, valid)
    && (forall sp :: sp in valid ==> TaggedOk(i.id, i.dataAllocated, valid[sp]))
  }

  ghost predicate ImageOk(i: Image) {
    && Disjoint(i)
    && LedgersOk(i)
    && RootsOk(i, i.savepoints)
    && (forall sp :: sp in i.savepoints ==> sp < i.nextSavepoint)
  }

  /** Which references stand for which savepoints. */
  ghost predicate RefsOk(holders: map<Holder, Tid>, valid: map<SpId, Snapshot>, nextSp: SpId) {
    && (forall sp: SpId :: sp in valid ==> Ephemeral(sp) in holders || Persistent(sp) in holders)
    && (forall sp: SpId :: sp in valid && Ephemeral(sp) in holders ==> holders[Ephemeral(sp)] == valid[sp].tid)
    && (forall sp: SpId :: Persistent(sp) in holders ==>
          sp in valid && holders[Persistent(sp)] == valid[sp].tid && Ephemeral(sp) !in holders)
    && (forall sp: SpId :: Ephemeral(sp) in holders || Persistent(sp) in holders ==> sp <= nextSp)
  }

  /** The persistent savepoint table and the registrations that stand for it. */
  ghost predicate TableOk(holders: map<Holder, Tid>, valid: map<SpId, Snapshot>,
                          table: map<SpId, Snapshot>, created: set<SpId>)
  {
    && (forall sp :: sp in table ==> sp in valid && valid[sp] == table[sp])
    && (forall sp: SpId :: Persistent(sp) in holders <==> sp in table || sp in created)
  }

  function Created(s: State): set<SpId> {
    if s.txn.Some? then s.txn.value.created else {}
  }

  // ---------------------------------------------------------------- tracker and readers

  ghost predicate Partition(alloc: set<Page>, uncommitted: set<Page>, i: Image) {
    && alloc == Repaired(i) + uncommitted
    && uncommitted !! Repaired(i)
  }

  ghost predicate IdsOk(s: State) {
    && s.durable.id <= s.current.id <= s.nextTid
    && (s.txn.Some? ==> s.txn.value.id == s.nextTid > s.current.id)
    && (s.txn.None? ==> s.uncommitted == {})
    && s.durable.savepoints == s.current.savepoints
    && s.current.nextSavepoint <= s.nextSp + 1
  }

  ghost predicate TrackerOk(holders: map<Holder, Tid>, currentId: Tid, durableId: Tid) {
    && (forall h :: h in holders ==>
          holders[h] <= currentId && (holders[h] <= durableId || holders[h] in Pending(holders)))
    && (forall h :: h in holders && h.NonDurable? ==> holders[h] == durableId && durableId < h.t <= currentId)
  }

  ghost predicate PendingOk(pending: set<Tid>, current: Image, durable: Image) {
    && (pending == {} ==> current == durable)
    && (pending != {} ==> current.id in pending)
  }

  /** What keeps the root of an open reader out of reach of both freeing rules. */
  ghost predicate GuardOk(holders: map<Holder, Tid>, n: nat, x: Snapshot, currentId: Tid, durableId: Tid,
                          volatile: set<Page>, saved: bool)
  {
    && Guard(n) in holders
    && holders[Guard(n)] <= x.tid <= currentId
    && (x.pages !! volatile || holders[Guard(n)] in Pending(holders) || (saved && durableId <= x.tid))
  }

  ghost predicate GuardsOk(readers: map<nat, Snapshot>, holders: map<Holder, Tid>, currentId: Tid, durableId: Tid,
                           volatile: set<Page>, saved: bool)
  {
    forall n :: n in readers ==> GuardOk(holders, n, readers[n], currentId, durableId, volatile, saved)
  }

  /** There are persistent savepoints; the last durable commit lists the same ones. */
  predicate Saved(s: State) {
    s.current.savepoints.Keys != {}
  }

  /** The last durable roots survive until the next durable commit. */
  ghost predicate DurableOk(durable: Image, current: Image, volatile: set<Page>) {
    && Cover(ImageView(current), Root(durable))
    && durable.system <= current.system + After(current.systemFreed, durable.id)
    && durable.data !! volatile
    && durable.system !! volatile
  }

  // ---------------------------------------------------------------- the write transaction

  ghost predicate TxnPages(v: View, current: Image, uncommitted: set<Page>) {
    && v.data !! v.freed
    && v.data !! v.ledger.Keys
    && v.freed !! v.ledger.Keys
    && v.data + v.freed + v.ledger.Keys == current.data + current.dataFreed.Keys + uncommitted
    && uncommitted <= v.data
    && (forall p :: p in v.ledger ==> p in current.dataFreed && v.ledger[p] == current.dataFreed[p])
  }

  ghost predicate TxnFlags(x: Txn, current: Image, uncommitted: set<Page>, valid: map<SpId, Snapshot>) {
    && (!x.dirty ==> TxnView(x) == ImageView(current) && x.tracking && x.invalidated == {} && uncommitted == {})
    && (valid.Keys != {} ==> x.tracking)
    && (!x.immediate ==> x.created == {} && x.deleted == {})
  }

  ghost predicate TxnTable(x: Txn, table: map<SpId, Snapshot>, valid: map<SpId, Snapshot>, nextSp: SpId) {
    && x.savepoints.Keys == table.Keys + x.created - x.deleted
    && x.created !! table.Keys
    && x.deleted <= table.Keys + x.created
    && x.savepoints.Keys !! x.invalidated
    && x.nextSavepoint <= nextSp + 1
    && (forall sp :: sp in x.savepoints ==> sp in valid && valid[sp] == x.savepoints[sp] && sp < x.nextSavepoint)
  }

  ghost predicate TxnOk(s: State, x: Txn) {
    && TxnPages(TxnView(x), s.current, s.uncommitted)
    && TxnFlags(x, s.current, s.uncommitted, s.valid)
    && TxnTable(x, s.current.savepoints, s.valid, s.nextSp)
    && Cover(TxnView(x), Root(s.current))
    && Cover(TxnView(x), Root(s.durable))
    && CoverAll(TxnView(x), s.readers)
    && ConserveAll(TxnView(x), s.current.dataAllocated, s.uncommitted, s.valid - x.invalidated)
  }

  /** The parts about the reference map. */
  ghost predicate HoldersOk(s: State) {
    && TrackerOk(s.holders, s.current.id, s.durable.id)
    && RefsOk(s.holders, s.valid, s.nextSp)
    && TableOk(s.holders, s.valid, s.current.savepoints, Created(s))
    && GuardsOk(s.readers, s.holders, s.current.id, s.durable.id, s.unpersisted + s.uncommitted, Saved(s))
  }

  ghost predicate Inv(s: State) {
    && ImageOk(s.current)
    && ImageOk(s.durable)
    && Partition(s.alloc, s.uncommitted, s.current)
    && IdsOk(s)
    && HoldersOk(s)
    && PendingOk(Pending(s.holders), s.current, s.durable)
    && RootsOk(s.current, s.valid)
    && CoverAll(ImageView(s.current), s.readers)
    && DurableOk(s.durable, s.current, s.unpersisted + s.uncommitted)
    && (s.txn.Some? ==> TxnOk(s, s.txn.value))
  }

  /**
   `begin_read` registers an id and then, separately, reads the data root.  The root it finds is
   out of reach of the non-durable rule if the id is itself a pending commit, if no page of the
   root is unpersisted, or if a persistent savepoint holds the bound below the last durable commit.
   */
  ghost predicate RootProtected(s: State, n: nat)
    requires Guard(n) in s.holders
  {
    s.holders[Guard(n)] in Pending(s.holders) || s.current.data !! s.unpersisted || Saved(s)
  }
}
