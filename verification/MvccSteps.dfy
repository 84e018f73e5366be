/**
 Every step other than restore and commit keeps the invariant.
 */
module MvccSteps {
  import opened Ledgers
  import opened Mvcc
  import opened MvccInvariant

  // ---------------------------------------------------------------- changes of the reference map

  /** `h` and `k` agree on the references of savepoints and of pending commits. */
  ghost predicate SameButGuards(h: map<Holder, Tid>, k: map<Holder, Tid>) {
    forall x: Holder :: !x.Guard? ==> (x in h <==> x in k) && (x in h && x in k ==> h[x] == k[x])
  }

  lemma GuardsDoNotMatter(h: map<Holder, Tid>, k: map<Holder, Tid>, valid: map<SpId, Snapshot>, nextSp: SpId,
                          table: map<SpId, Snapshot>, created: set<SpId>)
    requires SameButGuards(h, k) && RefsOk(h, valid, nextSp) && TableOk(h, valid, table, created)
    ensures RefsOk(k, valid, nextSp) && TableOk(k, valid, table, created) && Pending(k) == Pending(h)
  {
    assert forall sp: SpId :: Ephemeral(sp) in k <==> Ephemeral(sp) in h;
    assert forall sp: SpId :: Persistent(sp) in k <==> Persistent(sp) in h;
    assert forall t: Tid :: NonDurable(t) in k <==> NonDurable(t) in h;
  }

  /** Adding or removing a reference that is not a pending commit keeps the tracker part. */
  lemma AddReference(h: map<Holder, Tid>, x: Holder, current: Image, durable: Image)
    requires TrackerOk(h, current.id, durable.id) && PendingOk(Pending(h), current, durable)
    requires !x.NonDurable? && x !in h
    ensures var k := h[x := current.id]; TrackerOk(k, current.id, durable.id) && Pending(k) == Pending(h)
  {
    assert Pending(h[x := current.id]) == Pending(h);
  }

  lemma RemoveReferences(h: map<Holder, Tid>, k: map<Holder, Tid>, currentId: Tid, durableId: Tid)
    requires TrackerOk(h, currentId, durableId)
    requires forall x :: x in k ==> x in h && k[x] == h[x]
    requires forall x :: x in h && x.NonDurable? ==> x in k
    ensures TrackerOk(k, currentId, durableId) && Pending(k) == Pending(h)
  {
    assert Pending(k) == Pending(h);
  }

  lemma GuardsKept(readers: map<nat, Snapshot>, rest: map<nat, Snapshot>, h: map<Holder, Tid>, k: map<Holder, Tid>,
                   currentId: Tid, durableId: Tid, volatile: set<Page>, saved: bool)
    requires GuardsOk(readers, h, currentId, durableId, volatile, saved) && Pending(k) == Pending(h)
    requires forall n :: n in rest ==> n in readers && rest[n] == readers[n]
    requires forall n :: n in rest && Guard(n) in h ==> Guard(n) in k && k[Guard(n)] == h[Guard(n)]
    ensures GuardsOk(rest, k, currentId, durableId, volatile, saved)
  {
  }

  lemma RefsAdd(h: map<Holder, Tid>, k: map<Holder, Tid>, x: Holder, valid: map<SpId, Snapshot>, nextSp: SpId,
                snap: Snapshot)
    requires RefsOk(h, valid, nextSp)
    requires x == Ephemeral(nextSp + 1) || x == Persistent(nextSp + 1)
    requires k == h[x := snap.tid]
    ensures RefsOk(k, valid[nextSp + 1 := snap], nextSp + 1)
  {
    var id := nextSp + 1;
    assert id !in valid && Ephemeral(id) !in h && Persistent(id) !in h;
    forall sp: SpId
      ensures sp != id ==>
                (Ephemeral(sp) in k <==> Ephemeral(sp) in h) && (Persistent(sp) in k <==> Persistent(sp) in h)
    {
    }
  }

  lemma RefsRemove(h: map<Holder, Tid>, k: map<Holder, Tid>, gone: set<SpId>, valid: map<SpId, Snapshot>, nextSp: SpId)
    requires RefsOk(h, valid, nextSp)
    requires forall x :: x in k ==> x in h && k[x] == h[x]
    requires forall sp: SpId :: Persistent(sp) in h && sp !in gone ==> Persistent(sp) in k
    requires forall sp: SpId :: Ephemeral(sp) in h && sp !in gone ==> Ephemeral(sp) in k
    requires forall sp: SpId :: sp in gone ==> Persistent(sp) !in k
    ensures RefsOk(k, valid - gone, nextSp)
  {
  }

  // ---------------------------------------------------------------- readers

  lemma RegisterHolders(s: State, n: nat)
    requires HoldersOk(s) && IdsOk(s) && PendingOk(Pending(s.holders), s.current, s.durable)
    requires Guard(n) !in s.holders
    ensures HoldersOk(Register(s, n)) && Pending(Register(s, n).holders) == Pending(s.holders)
  {
    var t := Register(s, n);
    AddReference(s.holders, Guard(n), s.current, s.durable);
    GuardsDoNotMatter(s.holders, t.holders, s.valid, s.nextSp, s.current.savepoints, Created(s));
  }

  lemma RegisterInv(s: State, n: nat)
    requires Inv(s) && Guard(n) !in s.holders
    ensures Inv(Register(s, n))
  {
    RegisterHolders(s, n);
  }

  lemma FetchInv(s: State, n: nat)
    requires Inv(s) && Guard(n) in s.holders && n !in s.readers && RootProtected(s, n)
    ensures Inv(Fetch(s, n))
  {
    FetchGuards(s, n);
    MoreReaders(ImageView(s.current), s.readers, n, Root(s.current));
    if s.txn.Some? {
      MoreReaders(TxnView(s.txn.value), s.readers, n, Root(s.current));
    }
    FetchHolders(s, n);
  }

  lemma MoreReaders(v: View, readers: map<nat, Snapshot>, n: nat, r: Snapshot)
    requires CoverAll(v, readers) && Cover(v, r)
    ensures CoverAll(v, readers[n := r])
  {
  }

  lemma FetchHolders(s: State, n: nat)
    requires HoldersOk(s)
    requires GuardsOk(Fetch(s, n).readers, s.holders, s.current.id, s.durable.id, s.unpersisted + s.uncommitted,
                      Saved(s))
    ensures HoldersOk(Fetch(s, n))
  {
  }

  lemma FetchGuards(s: State, n: nat)
    requires HoldersOk(s) && IdsOk(s) && Partition(s.alloc, s.uncommitted, s.current)
    requires Guard(n) in s.holders && n !in s.readers && RootProtected(s, n)
    ensures GuardsOk(Fetch(s, n).readers, s.holders, s.current.id, s.durable.id, s.unpersisted + s.uncommitted,
                     Saved(s))
  {
    assert GuardOk(s.holders, n, Root(s.current), s.current.id, s.durable.id, s.unpersisted + s.uncommitted, Saved(s));
  }

  lemma CloseHolders(s: State, n: nat)
    requires HoldersOk(s)
    ensures HoldersOk(Close(s, n)) && Pending(Close(s, n).holders) == Pending(s.holders)
  {
    var t := Close(s, n);
    RemoveReferences(s.holders, t.holders, s.current.id, s.durable.id);
    GuardsKept(s.readers, t.readers, s.holders, t.holders, s.current.id, s.durable.id, s.unpersisted + s.uncommitted,
               Saved(s));
    GuardsDoNotMatter(s.holders, t.holders, s.valid, s.nextSp, s.current.savepoints, Created(s));
  }

  lemma CloseInv(s: State, n: nat)
    requires Inv(s) && Guard(n) in s.holders
    ensures Inv(Close(s, n))
  {
    CloseHolders(s, n);
  }

  // ---------------------------------------------------------------- the open write transaction

  lemma BeginInv(s: State)
    requires Inv(s) && s.txn.None?
    ensures Inv(Begin(s))
  {
    BeginTxn(s);
  }

  lemma BeginTxn(s: State)
    requires ImageOk(s.current) && s.uncommitted == {} && s.current.nextSavepoint <= s.nextSp + 1
    requires TableOk(s.holders, s.valid, s.current.savepoints, Created(s)) && RootsOk(s.current, s.valid)
    requires CoverAll(ImageView(s.current), s.readers) && Cover(ImageView(s.current), Root(s.durable))
    ensures TxnOk(Begin(s), Begin(s).txn.value)
  {
    assert s.valid - {} == s.valid;
  }

  lemma OpenInv(s: State)
    requires Inv(s) && s.txn.Some?
    ensures Inv(Open(s, s.txn.value))
  {
  }

  lemma FlagInv(s: State, x: Txn)
    requires Inv(s) && s.txn.Some?
    requires x == s.txn.value.(dirty := true)
             || (x == s.txn.value.(immediate := x.immediate) && (x.immediate || (x.created == {} && x.deleted == {})))
    ensures Inv(s.(txn := Some(x)))
  {
  }

  lemma UpdateConserves(v: View, allocation: Ledger, uncommitted: set<Page>, valid: map<SpId, Snapshot>,
                        added: set<Page>, dropped: set<Page>)
    requires ConserveAll(v, allocation, uncommitted, valid)
    requires v.data !! v.freed && v.data !! v.ledger.Keys
    requires uncommitted <= v.data && dropped <= v.data
    requires added !! v.data + v.freed + v.ledger.Keys
    ensures ConserveAll(View(v.data - dropped + added, v.freed + (dropped - uncommitted), v.ledger),
                        allocation, uncommitted + added - (dropped * uncommitted), valid)
  {
  }

  lemma UpdateInv(s: State, added: set<Page>, dropped: set<Page>)
    requires Inv(s) && s.txn.Some? && s.txn.value.dirty && added !! s.alloc && dropped <= s.txn.value.data
    ensures Inv(Update(s, s.txn.value, added, dropped))
  {
    UpdateTxn(s, s.txn.value, added, dropped);
    UpdateVolatile(s, added, dropped);
  }

  lemma UpdateTxn(s: State, x: Txn, added: set<Page>, dropped: set<Page>)
    requires TxnOk(s, x) && Partition(s.alloc, s.uncommitted, s.current) && s.txn == Some(x)
    requires CoverAll(ImageView(s.current), s.readers) && Cover(ImageView(s.current), Root(s.durable))
    requires x.dirty && added !! s.alloc && dropped <= x.data
    ensures TxnOk(Update(s, x, added, dropped), Update(s, x, added, dropped).txn.value)
  {
    var v := TxnView(x);
    UpdatePages(v, s.current, s.uncommitted, added, dropped);
    UpdateConserves(v, s.current.dataAllocated, s.uncommitted, s.valid - x.invalidated, added, dropped);
    UpdateCovers(v, s.current, s.uncommitted, added, dropped, Root(s.current));
    UpdateCovers(v, s.current, s.uncommitted, added, dropped, Root(s.durable));
    UpdateCoversAll(v, s.current, s.uncommitted, added, dropped, s.readers);
  }

  lemma UpdatePages(v: View, current: Image, uncommitted: set<Page>, added: set<Page>, dropped: set<Page>)
    requires TxnPages(v, current, uncommitted) && dropped <= v.data && added !! Repaired(current) + uncommitted
    requires uncommitted !! Repaired(current)
    ensures added !! v.data + v.freed + v.ledger.Keys
    ensures TxnPages(View(v.data - dropped + added, v.freed + (dropped - uncommitted), v.ledger), current,
                     uncommitted + added - (dropped * uncommitted))
  {
  }

  lemma UpdateCoversAll(v: View, current: Image, uncommitted: set<Page>, added: set<Page>, dropped: set<Page>,
                        readers: map<nat, Snapshot>)
    requires CoverAll(v, readers) && CoverAll(ImageView(current), readers) && uncommitted !! Repaired(current)
    ensures CoverAll(View(v.data - dropped + added, v.freed + (dropped - uncommitted), v.ledger), readers)
  {
    forall n | n in readers
      ensures Cover(View(v.data - dropped + added, v.freed + (dropped - uncommitted), v.ledger), readers[n])
    {
      UpdateCovers(v, current, uncommitted, added, dropped, readers[n]);
    }
  }

  /** What a committed root reaches is never among the uncommitted pages an update frees. */
  lemma UpdateCovers(v: View, current: Image, uncommitted: set<Page>, added: set<Page>, dropped: set<Page>, r: Snapshot)
    requires Cover(v, r) && Cover(ImageView(current), r) && uncommitted !! Repaired(current)
    ensures Cover(View(v.data - dropped + added, v.freed + (dropped - uncommitted), v.ledger), r)
  {
  }

  /** New pages are none that a reader or the durable roots can reach. */
  lemma UpdateVolatile(s: State, added: set<Page>, dropped: set<Page>)
    requires Partition(s.alloc, s.uncommitted, s.current) && added !! s.alloc
    requires CoverAll(ImageView(s.current), s.readers) && DurableOk(s.durable, s.current, s.unpersisted + s.uncommitted)
    requires GuardsOk(s.readers, s.holders, s.current.id, s.durable.id, s.unpersisted + s.uncommitted, Saved(s))
    ensures var now := s.uncommitted + added - (dropped * s.uncommitted);
            && DurableOk(s.durable, s.current, s.unpersisted + now)
            && GuardsOk(s.readers, s.holders, s.current.id, s.durable.id, s.unpersisted + now, Saved(s))
            && Partition(s.alloc + added - (dropped * s.uncommitted), now, s.current)
  {
    assert s.durable.data <= s.alloc && s.durable.system <= s.alloc;
    forall n | n in s.readers
      ensures s.readers[n].pages <= s.alloc
    {
      assert Cover(ImageView(s.current), s.readers[n]);
    }
  }

  lemma AbortHolders(s: State)
    requires HoldersOk(s) && s.txn.Some? && s.txn.value.created !! s.current.savepoints.Keys
    ensures var t := Aborted(s, s.txn.value); HoldersOk(t) && Pending(t.holders) == Pending(s.holders)
  {
    var t := Aborted(s, s.txn.value);
    RemoveReferences(s.holders, t.holders, s.current.id, s.durable.id);
    GuardsKept(s.readers, t.readers, s.holders, t.holders, s.current.id, s.durable.id, s.unpersisted + t.uncommitted,
               Saved(s));
    RefsRemove(s.holders, t.holders, s.txn.value.created, s.valid, s.nextSp);
  }

  lemma AbortInv(s: State)
    requires Inv(s) && s.txn.Some?
    ensures Inv(Aborted(s, s.txn.value))
  {
    AbortHolders(s);
  }

  // ---------------------------------------------------------------- savepoints

  lemma DeleteTable(x: Txn, table: map<SpId, Snapshot>, valid: map<SpId, Snapshot>, nextSp: SpId, sp: SpId)
    requires TxnTable(x, table, valid, nextSp) && sp in x.savepoints
    ensures TxnTable(x.(dirty := true, savepoints := x.savepoints - {sp}, deleted := x.deleted + {sp}),
                     table, valid, nextSp)
  {
  }

  lemma DeleteInv(s: State, sp: SpId)
    requires Inv(s) && s.txn.Some? && s.txn.value.immediate && sp in s.txn.value.savepoints
    ensures Inv(Delete(s, s.txn.value, sp))
  {
    DeleteTable(s.txn.value, s.current.savepoints, s.valid, s.nextSp, sp);
  }

  lemma DropHandleHolders(s: State, sp: SpId)
    requires HoldersOk(s) && Ephemeral(sp) in s.holders
    ensures HoldersOk(DropHandle(s, sp)) && Pending(DropHandle(s, sp).holders) == Pending(s.holders)
  {
    var t := DropHandle(s, sp);
    RemoveReferences(s.holders, t.holders, s.current.id, s.durable.id);
    GuardsKept(s.readers, t.readers, s.holders, t.holders, s.current.id, s.durable.id, s.unpersisted + s.uncommitted,
               Saved(s));
    RefsRemove(s.holders, t.holders, {sp}, s.valid, s.nextSp);
    DropHandleTable(s.holders, s.valid, s.nextSp, s.current.savepoints, Created(s), sp);
  }

  lemma DropHandleTable(h: map<Holder, Tid>, valid: map<SpId, Snapshot>, nextSp: SpId, table: map<SpId, Snapshot>,
                        created: set<SpId>, sp: SpId)
    requires RefsOk(h, valid, nextSp) && TableOk(h, valid, table, created) && Ephemeral(sp) in h
    ensures TableOk(h - {Ephemeral(sp)}, valid - {sp}, table, created)
  {
    assert Persistent(sp) !in h;
  }

  /** Fewer savepoints ask for less. */
  lemma ConserveFewer(v: View, allocation: Ledger, uncommitted: set<Page>, valid: map<SpId, Snapshot>,
                      fewer: map<SpId, Snapshot>)
    requires ConserveAll(v, allocation, uncommitted, valid)
    requires forall sp :: sp in fewer ==> sp in valid && fewer[sp] == valid[sp]
    ensures ConserveAll(v, allocation, uncommitted, fewer)
  {
  }

  lemma RootsFewer(i: Image, valid: map<SpId, Snapshot>, fewer: map<SpId, Snapshot>)
    requires RootsOk(i, valid)
    requires forall sp :: sp in fewer ==> sp in valid && fewer[sp] == valid[sp]
    ensures RootsOk(i, fewer)
  {
    ConserveFewer(ImageView(i), i.dataAllocated, {}, valid, fewer);
  }

  lemma DropHandleTxn(s: State, sp: SpId)
    requires s.txn.Some? && TxnOk(s, s.txn.value) && sp !in s.txn.value.savepoints
    ensures TxnOk(DropHandle(s, sp), s.txn.value)
  {
    var x := s.txn.value;
    ConserveFewer(TxnView(x), s.current.dataAllocated, s.uncommitted, s.valid - x.invalidated,
                  s.valid - {sp} - x.invalidated);
  }

  lemma DropHandleInv(s: State, sp: SpId)
    requires Inv(s) && Ephemeral(sp) in s.holders
    ensures Inv(DropHandle(s, sp))
  {
    DropHandleHolders(s, sp);
    RootsFewer(s.current, s.valid, s.valid - {sp});
    if s.txn.Some? {
      DropHandleTxn(s, sp);
    }
  }

  /** A savepoint taken now starts with nothing allocated or queued after it. */
  lemma FreshConserves(i: Image, valid: map<SpId, Snapshot>, id: SpId)
    requires LedgersOk(i) && ConserveAll(ImageView(i), i.dataAllocated, {}, valid)
    ensures ConserveAll(ImageView(i), i.dataAllocated, {}, valid[id := Root(i)])
  {
    assert Conserve(ImageView(i), i.dataAllocated, {}, Root(i));
  }

  lemma FreshSavepointOk(i: Image, valid: map<SpId, Snapshot>, id: SpId)
    requires LedgersOk(i) && RootsOk(i, valid) && forall sp :: sp in valid ==> sp < id
    ensures RootsOk(i, valid[id := Root(i)])
  {
    FreshConserves(i, valid, id);
    assert forall sp :: sp in valid ==> TaggedOk(i.id, i.dataAllocated, valid[sp]);
  }

  /** `t` is `s` with one more savepoint, referenced by `h`. */
  ghost predicate OneSavepointMore(s: State, t: State, h: Holder) {
    && t.current == s.current && t.durable == s.durable && t.alloc == s.alloc
    && t.uncommitted == s.uncommitted && t.unpersisted == s.unpersisted && t.readers == s.readers
    && t.nextTid == s.nextTid && t.nextSp == s.nextSp + 1
    && t.valid == s.valid[s.nextSp + 1 := Root(s.current)]
    && t.holders == s.holders[h := s.current.id]
    && (h == Ephemeral(s.nextSp + 1) || h == Persistent(s.nextSp + 1))
  }

  lemma NewIdsAreNew(s: State)
    requires RefsOk(s.holders, s.valid, s.nextSp) && TableOk(s.holders, s.valid, s.current.savepoints, Created(s))
    ensures Ephemeral(s.nextSp + 1) !in s.holders && Persistent(s.nextSp + 1) !in s.holders
    ensures forall sp :: sp in s.valid ==> sp <= s.nextSp
    ensures s.nextSp + 1 !in s.current.savepoints && s.nextSp + 1 !in Created(s)
  {
    assert Persistent(s.nextSp + 1) !in s.holders;
  }

  lemma NewSavepointHolders(s: State, t: State, h: Holder)
    requires HoldersOk(s) && PendingOk(Pending(s.holders), s.current, s.durable) && OneSavepointMore(s, t, h)
    requires TableOk(t.holders, t.valid, t.current.savepoints, Created(t))
    ensures HoldersOk(t) && Pending(t.holders) == Pending(s.holders)
  {
    NewIdsAreNew(s);
    RefsAdd(s.holders, t.holders, h, s.valid, s.nextSp, Root(s.current));
    AddReference(s.holders, h, s.current, s.durable);
    GuardsKept(s.readers, t.readers, s.holders, t.holders, s.current.id, s.durable.id, s.unpersisted + s.uncommitted,
               Saved(s));
  }

  lemma NewSavepointRoots(s: State, t: State)
    requires LedgersOk(s.current) && RootsOk(s.current, s.valid) && forall sp :: sp in s.valid ==> sp <= s.nextSp
    requires t.valid == s.valid[s.nextSp + 1 := Root(s.current)] && t.current == s.current
    ensures RootsOk(s.current, t.valid) && RootsOk(t.current, t.valid) && s.nextSp + 1 !in s.valid
  {
    FreshSavepointOk(s.current, s.valid, s.nextSp + 1);
  }

  lemma EphemeralTxn(s: State)
    requires s.txn.Some? && !s.txn.value.dirty && TxnOk(s, s.txn.value)
    requires RootsOk(s.current, NewEphemeral(s).valid) && s.nextSp + 1 !in s.valid
    ensures TxnOk(NewEphemeral(s), s.txn.value)
  {
    var t, x := NewEphemeral(s), s.txn.value;
    assert t.valid - x.invalidated == t.valid;
    assert TxnView(x) == ImageView(s.current);
    assert TxnTable(x, s.current.savepoints, t.valid, t.nextSp);
  }

  lemma PersistentTxn(s: State)
    requires s.txn.Some? && !s.txn.value.dirty && s.txn.value.immediate && TxnOk(s, s.txn.value)
    requires RootsOk(s.current, NewPersistent(s, s.txn.value).valid) && s.nextSp + 1 !in s.valid
    requires s.nextSp + 1 !in s.current.savepoints && s.nextSp + 1 !in s.txn.value.created
    ensures TxnOk(NewPersistent(s, s.txn.value), NewPersistent(s, s.txn.value).txn.value)
  {
    var t, x := NewPersistent(s, s.txn.value), s.txn.value;
    assert t.valid - x.invalidated == t.valid;
    assert TxnView(t.txn.value) == ImageView(s.current);
    PersistentTable(x, t.txn.value, s.current.savepoints, s.valid, t.valid, s.nextSp, Root(s.current));
  }

  lemma PersistentTable(x: Txn, y: Txn, table: map<SpId, Snapshot>, valid: map<SpId, Snapshot>,
                        more: map<SpId, Snapshot>, nextSp: SpId, snap: Snapshot)
    requires TxnTable(x, table, valid, nextSp) && more == valid[nextSp + 1 := snap]
    requires nextSp + 1 !in table && nextSp + 1 !in x.created && nextSp + 1 !in valid && x.invalidated == {}
    requires y.savepoints == x.savepoints[nextSp + 1 := snap] && y.nextSavepoint == nextSp + 2
    requires y.created == x.created + {nextSp + 1} && y.deleted == x.deleted && y.invalidated == x.invalidated
    ensures TxnTable(y, table, more, nextSp + 1)
  {
  }

  lemma EphemeralShape(s: State)
    requires TableOk(s.holders, s.valid, s.current.savepoints, Created(s))
    requires s.nextSp + 1 !in s.current.savepoints && forall sp :: sp in s.valid ==> sp <= s.nextSp
    ensures var t := NewEphemeral(s);
            && OneSavepointMore(s, t, Ephemeral(s.nextSp + 1))
            && TableOk(t.holders, t.valid, t.current.savepoints, Created(t))
  {
  }

  lemma PersistentShape(s: State)
    requires TableOk(s.holders, s.valid, s.current.savepoints, Created(s)) && s.txn.Some?
    requires s.nextSp + 1 !in s.current.savepoints && forall sp :: sp in s.valid ==> sp <= s.nextSp
    ensures var t := NewPersistent(s, s.txn.value);
            && OneSavepointMore(s, t, Persistent(s.nextSp + 1))
            && TableOk(t.holders, t.valid, t.current.savepoints, Created(t))
  {
  }

  lemma EphemeralInv(s: State)
    requires Inv(s) && s.txn.Some? && !s.txn.value.dirty
    ensures Inv(NewEphemeral(s))
  {
    var t := NewEphemeral(s);
    NewIdsAreNew(s);
    EphemeralShape(s);
    NewSavepointHolders(s, t, Ephemeral(s.nextSp + 1));
    NewSavepointRoots(s, t);
    EphemeralTxn(s);
    Reassemble(s, t);
  }

  lemma PersistentInv(s: State)
    requires Inv(s) && s.txn.Some? && !s.txn.value.dirty && s.txn.value.immediate
    ensures Inv(NewPersistent(s, s.txn.value))
  {
    var t := NewPersistent(s, s.txn.value);
    NewIdsAreNew(s);
    PersistentShape(s);
    NewSavepointHolders(s, t, Persistent(s.nextSp + 1));
    NewSavepointRoots(s, t);
    PersistentTxn(s);
    Reassemble(s, t);
  }

  /** The images, the pages and the readers are as before; the rest has been shown. */
  lemma Reassemble(s: State, t: State)
    requires Inv(s) && t.current == s.current && t.durable == s.durable && t.alloc == s.alloc
    requires t.uncommitted == s.uncommitted && t.unpersisted == s.unpersisted && t.readers == s.readers
    requires t.nextTid == s.nextTid && t.nextSp >= s.nextSp && Pending(t.holders) == Pending(s.holders)
    requires s.txn.Some? && t.txn.Some? && t.txn.value.id == s.txn.value.id
    requires HoldersOk(t) && RootsOk(t.current, t.valid) && TxnOk(t, t.txn.value)
    ensures Inv(t)
  {
  }

  // ---------------------------------------------------------------- crash and reopen

  lemma ReopenedHolders(d: Image, alloc: set<Page>)
    requires forall sp :: sp in d.savepoints ==> sp < d.nextSavepoint && d.savepoints[sp].tid <= d.id
    ensures HoldersOk(Reopened(d, alloc)) && Pending(Reopened(d, alloc).holders) == {}
  {
    var h := Reopened(d, alloc).holders;
    ReopenedKeys(d, alloc);
    ReopenedRefs(h, d);
    assert HoldersOk(Reopened(d, alloc));
  }

  lemma ReopenedKeys(d: Image, alloc: set<Page>)
    ensures var h := Reopened(d, alloc).holders;
            forall k :: k in h <==> k.Persistent? && k.sp in d.savepoints
    ensures var h := Reopened(d, alloc).holders;
            forall k :: k in h ==> h[k] == d.savepoints[k.sp].tid
  {
  }

  lemma ReopenedRefs(h: map<Holder, Tid>, d: Image)
    requires forall k :: k in h <==> k.Persistent? && k.sp in d.savepoints
    requires forall k :: k in h ==> h[k] == d.savepoints[k.sp].tid
    requires forall sp :: sp in d.savepoints ==> sp < d.nextSavepoint && d.savepoints[sp].tid <= d.id
    ensures Pending(h) == {} && TrackerOk(h, d.id, d.id)
    ensures RefsOk(h, d.savepoints, d.nextSavepoint) && TableOk(h, d.savepoints, d.savepoints, {})
  {
  }

  lemma ReopenedInv(d: Image, alloc: set<Page>)
    requires ImageOk(d) && alloc == Repaired(d)
    ensures Inv(Reopened(d, alloc))
  {
    assert forall sp :: sp in d.savepoints ==> TaggedOk(d.id, d.dataAllocated, d.savepoints[sp]);
    ReopenedHolders(d, alloc);
    ReopenedRest(d, alloc);
  }

  lemma ReopenedRest(d: Image, alloc: set<Page>)
    requires alloc == Repaired(d) && forall sp :: sp in d.savepoints ==> sp < d.nextSavepoint
    requires Pending(Reopened(d, alloc).holders) == {}
    ensures var t := Reopened(d, alloc);
            && Partition(t.alloc, t.uncommitted, t.current)
            && IdsOk(t)
            && PendingOk(Pending(t.holders), t.current, t.durable)
            && CoverAll(ImageView(t.current), t.readers)
            && DurableOk(t.durable, t.current, t.unpersisted + t.uncommitted)
  {
    assert Reopened(d, alloc).unpersisted + Reopened(d, alloc).uncommitted == {};
  }

  lemma CrashInv(s: State)
    requires Inv(s)
    ensures Inv(Crashed(s))
  {
    CrashedInv(s);
  }

  lemma CrashedInv(s: State)
    requires ImageOk(s.durable)
    ensures Inv(Crashed(s))
  {
    var d := s.durable.(id := s.durable.id + 1);
    LaterImage(s.durable, d);
    ReopenedInv(d, Repaired(d));
  }

  /** The repaired roots are committed again under the next id. */
  lemma LaterImage(d: Image, e: Image)
    requires ImageOk(d) && e == d.(id := d.id + 1)
    ensures ImageOk(e)
  {
    assert ImageView(e) == ImageView(d);
    assert LedgersOk(e);
  }

  lemma LoadedInv(s: State)
    requires Inv(s)
    ensures Inv(Loaded(s))
  {
    ReopenedInv(s.durable, Repaired(s.durable));
  }

  lemma InitInv()
    ensures Inv(Init())
  {
    ReopenedInv(Init().current, {});
  }
}
