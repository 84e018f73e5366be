/**
 What users of the database see, without pages to free, ledgers or reference counts: a few
 versions of the data and who holds which.  The protocol refines this machine.
 */
module MvccVersions {
  import opened Ledgers
  import opened Mvcc
  import opened MvccInvariant
  import opened MvccTheorems

  /** The writer's version; `dropped` savepoints end with its commit, `created` ones with its abort. */
  datatype Writer = Writer(id: Tid, data: set<Page>, durable: bool, dirty: bool, kept: map<SpId, Snapshot>,
                           counter: nat, created: set<SpId>, dropped: set<SpId>)

  /**
   The versions committed last and committed durably last, the versions readers and savepoints
   hold, the ids registered by readers, the table of persistent savepoints, and the two counters.
   */
  datatype Versions = Versions(committed: Snapshot, durable: Snapshot, registered: map<nat, Tid>,
                               readers: map<nat, Snapshot>, savepoints: map<SpId, Snapshot>,
                               kept: map<SpId, Snapshot>, keptCounter: nat, durableCounter: nat, lastTid: Tid,
                               lastSp: SpId, writer: Option<Writer>)

  function Guards(holders: map<Holder, Tid>): map<nat, Tid> {
    map n | n in (set h | h in holders && h.Guard? :: h.n) :: holders[Guard(n)]
  }

  function WriterOf(x: Txn): Writer {
    Writer(x.id, x.data, x.immediate, x.dirty, x.savepoints, x.nextSavepoint, x.created, x.deleted + x.invalidated)
  }

  function VersionsOf(s: State): Versions {
    Versions(Root(s.current), Root(s.durable), Guards(s.holders), s.readers, s.valid, s.current.savepoints,
         s.current.nextSavepoint, s.durable.nextSavepoint, s.nextTid, s.nextSp,
         if s.txn.Some? then Some(WriterOf(s.txn.value)) else None)
  }

  // ---------------------------------------------------------------- the machine of versions

  /** A restart: the durable version, under the id `tid`, and the persistent savepoints. */
  function Restart(v: Versions, tid: Tid): Versions {
    var root := Snapshot(tid, v.durable.pages);
    Versions(root, root, map[], map[], v.kept, v.kept, v.durableCounter, v.durableCounter, tid + 2, v.durableCounter,
             None)
  }

  function NewVersion(v: Versions, w: Writer): Versions {
    v.(committed := Snapshot(w.id, w.data), savepoints := v.savepoints - w.dropped, kept := w.kept,
       keptCounter := w.counter, writer := None)
  }

  /** What an event needs: a writer, or the savepoint it names. */
  predicate Sensible(v: Versions, e: Event) {
    && (v.writer.None? ==> e.RegisterRead? || e.FetchRoot? || e.CloseRead? || e.BeginWrite? || e.DropSavepoint?
                           || e.CrashAndRepair? || e.LoadAllocator?)
    && (e.Restore? ==> e.sp in v.savepoints)
  }

  function See(v: Versions, e: Event): Versions
    requires Sensible(v, e)
  {
    match e
    case RegisterRead(n) => v.(registered := v.registered[n := v.committed.tid])
    case FetchRoot(n) => v.(readers := v.readers[n := v.committed])
    case CloseRead(n) => v.(registered := v.registered - {n}, readers := v.readers - {n})
    case BeginWrite =>
      v.(lastTid := v.lastTid + 1,
         writer := Some(Writer(v.lastTid + 1, v.committed.pages, true, false, v.kept, v.keptCounter, {}, {})))
    case SetDurability(durable) => v.(writer := Some(v.writer.value.(durable := durable)))
    case OpenTable => v.(writer := Some(v.writer.value.(dirty := true)))
    case OpenSystemTable => v.(writer := Some(v.writer.value.(dirty := true)))
    case Mutate(added, dropped) =>
      v.(writer := Some(v.writer.value.(data := v.writer.value.data - dropped + added)))
    case EphemeralSavepoint => v.(lastSp := v.lastSp + 1, savepoints := v.savepoints[v.lastSp + 1 := v.committed])
    case PersistentSavepoint =>
      var w, id := v.writer.value, v.lastSp + 1;
      v.(lastSp := id, savepoints := v.savepoints[id := v.committed],
         writer := Some(w.(dirty := true, kept := w.kept[id := v.committed], counter := id + 1,
                           created := w.created + {id})))
    case DropSavepoint(sp) => v.(savepoints := v.savepoints - {sp})
    case DeletePersistent(sp) =>
      var w := v.writer.value;
      v.(writer := Some(w.(dirty := true, kept := w.kept - {sp}, dropped := w.dropped + {sp})))
    case Restore(sp) =>
      var w, newer := v.writer.value, NewerThan(v.savepoints.Keys, sp);
      v.(writer := Some(w.(dirty := true, data := v.savepoints[sp].pages, kept := w.kept - newer,
                           dropped := w.dropped + newer)))
    case CommitDurable(_, _, _) =>
      var w := v.writer.value;
      NewVersion(v, w).(durable := Snapshot(w.id, w.data), durableCounter := w.counter)
    case CommitNonDurable(_, _, _) => NewVersion(v, v.writer.value)
    case Abort => v.(savepoints := v.savepoints - v.writer.value.created, writer := None)
    case CrashAndRepair => Restart(v, v.durable.tid + 1)
    case LoadAllocator => Restart(v, v.durable.tid)
  }

  // ---------------------------------------------------------------- refinement

  lemma CanSee(s: State, e: Event)
    requires Guarded(s, e)
    ensures Sensible(VersionsOf(s), e)
  {
  }

  lemma GuardsAt(holders: map<Holder, Tid>, n: nat)
    ensures n in Guards(holders) <==> Guard(n) in holders
    ensures n in Guards(holders) ==> Guards(holders)[n] == holders[Guard(n)]
  {
  }

  lemma SameGuards(h: map<Holder, Tid>, k: map<Holder, Tid>)
    requires forall n: nat :: (Guard(n) in h <==> Guard(n) in k) && (Guard(n) in h ==> h[Guard(n)] == k[Guard(n)])
    ensures Guards(h) == Guards(k)
  {
    forall n: nat
      ensures n in Guards(h) <==> n in Guards(k)
      ensures n in Guards(h) ==> Guards(h)[n] == Guards(k)[n]
    {
      GuardsAt(h, n);
      GuardsAt(k, n);
    }
  }

  lemma OneMoreGuard(h: map<Holder, Tid>, n: nat, t: Tid)
    ensures Guards(h[Guard(n) := t]) == Guards(h)[n := t]
    ensures Guards(h - {Guard(n)}) == Guards(h) - {n}
  {
    forall m: nat
      ensures m in Guards(h[Guard(n) := t]) <==> m in Guards(h)[n := t]
      ensures m in Guards(h[Guard(n) := t]) ==> Guards(h[Guard(n) := t])[m] == Guards(h)[n := t][m]
      ensures m in Guards(h - {Guard(n)}) <==> m in Guards(h) - {n}
      ensures m in Guards(h - {Guard(n)}) ==> Guards(h - {Guard(n)})[m] == (Guards(h) - {n})[m]
    {
      GuardsAt(h, m);
      GuardsAt(h[Guard(n) := t], m);
      GuardsAt(h - {Guard(n)}, m);
    }
  }

  lemma SeeReaders(s: State, e: Event)
    requires Guarded(s, e) && (e.RegisterRead? || e.FetchRoot? || e.CloseRead?)
    ensures VersionsOf(Next(s, e)) == See(VersionsOf(s), e)
  {
    CanSee(s, e);
    if !e.FetchRoot? {
      OneMoreGuard(s.holders, e.n, s.current.id);
    }
  }

  lemma NotAGuard(h: map<Holder, Tid>, x: Holder, t: Tid)
    requires !x.Guard?
    ensures Guards(h[x := t]) == Guards(h) && Guards(h - {x}) == Guards(h)
  {
    SameGuards(h, h[x := t]);
    SameGuards(h, h - {x});
  }

  lemma SeeWriter(s: State, e: Event)
    requires Guarded(s, e) && (e.BeginWrite? || e.SetDurability? || e.OpenTable? || e.OpenSystemTable? || e.Mutate?)
    requires Sensible(VersionsOf(s), e)
    ensures VersionsOf(Next(s, e)) == See(VersionsOf(s), e)
  {
    var none: set<SpId> := {};
    assert none + none == none;
  }

  // the number of the new savepoint, named once

  lemma EphemeralNamed(s: State, id: SpId)
    requires id == s.nextSp + 1
    ensures NewEphemeral(s) == s.(nextSp := id, valid := s.valid[id := Root(s.current)],
                                  holders := s.holders[Ephemeral(id) := s.current.id])
  {
  }

  lemma PersistentNamed(s: State, x: Txn, id: SpId, next: SpId)
    requires id == s.nextSp + 1 && next == id + 1
    ensures var y := x.(dirty := true, savepoints := x.savepoints[id := Root(s.current)], nextSavepoint := next,
                        created := x.created + {id});
            NewPersistent(s, x) == s.(nextSp := id, valid := s.valid[id := Root(s.current)], txn := Some(y),
                                      holders := s.holders[Persistent(id) := s.current.id])
  {
  }

  lemma SeeNamed(v: Versions, id: SpId, next: SpId)
    requires v.writer.Some? && id == v.lastSp + 1 && next == id + 1
    ensures See(v, EphemeralSavepoint) == v.(lastSp := id, savepoints := v.savepoints[id := v.committed])
    ensures See(v, PersistentSavepoint)
         == v.(lastSp := id, savepoints := v.savepoints[id := v.committed],
               writer := Some(v.writer.value.(dirty := true, kept := v.writer.value.kept[id := v.committed],
                                              counter := next, created := v.writer.value.created + {id})))
  {
  }

  lemma SeeEphemeral(s: State, id: SpId)
    requires s.txn.Some? && id == s.nextSp + 1
    ensures VersionsOf(NewEphemeral(s)) == See(VersionsOf(s), EphemeralSavepoint)
  {
    EphemeralNamed(s, id);
    SeeNamed(VersionsOf(s), id, id + 1);
    NotAGuard(s.holders, Ephemeral(id), s.current.id);
  }

  lemma SeePersistent(s: State, x: Txn, id: SpId, next: SpId)
    requires s.txn == Some(x) && id == s.nextSp + 1 && next == id + 1
    ensures VersionsOf(NewPersistent(s, x)) == See(VersionsOf(s), PersistentSavepoint)
  {
    PersistentNamed(s, x, id, next);
    SeeNamed(VersionsOf(s), id, next);
    NotAGuard(s.holders, Persistent(id), s.current.id);
  }

  lemma SeeDrop(s: State, e: Event)
    requires Guarded(s, e) && e.DropSavepoint?
    ensures VersionsOf(DropHandle(s, e.sp)) == See(VersionsOf(s), e)
  {
    NotAGuard(s.holders, Ephemeral(e.sp), 0);
  }

  lemma SeeSavepoint(s: State, e: Event)
    requires Guarded(s, e) && (e.EphemeralSavepoint? || e.PersistentSavepoint? || e.DropSavepoint?)
    ensures Sensible(VersionsOf(s), e) && VersionsOf(Next(s, e)) == See(VersionsOf(s), e)
  {
    CanSee(s, e);
    if e.EphemeralSavepoint? {
      NextEphemeral(s);
      SeeEphemeral(s, s.nextSp + 1);
    } else if e.PersistentSavepoint? {
      NextPersistent(s);
      SeePersistent(s, s.txn.value, s.nextSp + 1, s.nextSp + 2);
    } else {
      NextDrop(s, e);
      SeeDrop(s, e);
    }
  }

  lemma SeeDelete(s: State, e: Event)
    requires Guarded(s, e) && e.DeletePersistent? && Sensible(VersionsOf(s), e)
    ensures VersionsOf(Next(s, e)) == See(VersionsOf(s), e)
  {
    var x := s.txn.value;
    assert (x.deleted + {e.sp}) + x.invalidated == (x.deleted + x.invalidated) + {e.sp};
  }

  lemma SeeRestore(s: State, e: Event)
    requires Guarded(s, e) && e.Restore? && Sensible(VersionsOf(s), e)
    requires forall sp :: s.txn.Some? && sp in s.txn.value.savepoints ==> sp in s.valid
    ensures VersionsOf(Next(s, e)) == See(VersionsOf(s), e)
  {
    var x := s.txn.value;
    var doomed, newer := NewerThan(x.savepoints.Keys, e.sp), NewerThan(s.valid.Keys, e.sp);
    assert (x.deleted + doomed) + (x.invalidated + newer) == (x.deleted + x.invalidated) + newer;
    assert x.savepoints - doomed == x.savepoints - newer;
  }

  lemma WithoutMany(valid: map<SpId, Snapshot>, a: set<SpId>, b: set<SpId>)
    ensures valid - a - b == valid - (a + b)
  {
  }

  lemma DurableGuards(s: State, x: Txn, sysNew: set<Page>, sysDropped: set<Page>, quick: bool)
    ensures Guards(DurableCommit(s, x, sysNew, sysDropped, quick).holders) == Guards(s.holders)
  {
    SameGuards(s.holders, DurableCommit(s, x, sysNew, sysDropped, quick).holders);
  }

  /** The parts of a state that a new version determines. */
  ghost predicate Published(s: State, x: Txn, u: State) {
    && Root(u.current) == Snapshot(x.id, x.data) && u.current.savepoints == x.savepoints
    && u.current.nextSavepoint == x.nextSavepoint && u.valid == s.valid - (x.deleted + x.invalidated)
    && u.readers == s.readers && u.nextTid == s.nextTid && u.nextSp == s.nextSp && u.txn.None?
    && Guards(u.holders) == Guards(s.holders)
  }

  lemma DurablePublishes(s: State, x: Txn, sysNew: set<Page>, sysDropped: set<Page>, quick: bool, u: State)
    requires u == DurableCommit(s, x, sysNew, sysDropped, quick)
    ensures Published(s, x, u) && u.durable == u.current
  {
    DurableGuards(s, x, sysNew, sysDropped, quick);
    WithoutMany(s.valid, x.deleted, x.invalidated);
  }

  lemma SeeDurable(s: State, x: Txn, e: Event, u: State)
    requires s.txn == Some(x) && e.CommitDurable? && Published(s, x, u) && u.durable == u.current
    ensures VersionsOf(u) == See(VersionsOf(s), e)
  {
  }

  lemma NonDurablePublishes(s: State, x: Txn, sysNew: set<Page>, sysDropped: set<Page>, processed: set<Tid>, u: State)
    requires u == NonDurableCommit(s, x, sysNew, sysDropped, processed) && x.deleted == {}
    ensures Published(s, x, u) && u.durable == s.durable
  {
    NonDurableGuards(s, x, sysNew, sysDropped, processed);
    NonDurableValid(s, x, sysNew, sysDropped, processed);
  }

  lemma NonDurableValid(s: State, x: Txn, sysNew: set<Page>, sysDropped: set<Page>, processed: set<Tid>)
    requires x.deleted == {}
    ensures NonDurableCommit(s, x, sysNew, sysDropped, processed).valid == s.valid - (x.deleted + x.invalidated)
  {
    assert x.deleted + x.invalidated == x.invalidated;
  }

  lemma NonDurableGuards(s: State, x: Txn, sysNew: set<Page>, sysDropped: set<Page>, processed: set<Tid>)
    ensures Guards(NonDurableCommit(s, x, sysNew, sysDropped, processed).holders) == Guards(s.holders)
  {
    NotAGuard(s.holders, NonDurable(x.id), s.durable.id);
  }

  lemma SeeNonDurable(s: State, x: Txn, e: Event, u: State)
    requires s.txn == Some(x) && e.CommitNonDurable? && Published(s, x, u) && u.durable == s.durable
    ensures VersionsOf(u) == See(VersionsOf(s), e)
  {
  }

  lemma SeeAbort(s: State)
    requires Guarded(s, Abort) && Sensible(VersionsOf(s), Abort)
    ensures VersionsOf(Next(s, Abort)) == See(VersionsOf(s), Abort)
  {
    NextAbort(s);
    SameGuards(s.holders, Next(s, Abort).holders);
  }

  lemma NoGuards(d: Image, alloc: set<Page>)
    ensures Guards(Reopened(d, alloc).holders) == map[]
  {
    SameGuards(Reopened(d, alloc).holders, map[]);
    assert Guards(map[]) == map[];
  }

  lemma SeeReopened(v: Versions, d: Image, alloc: set<Page>)
    requires v.durable.pages == d.data && v.kept == d.savepoints && v.durableCounter == d.nextSavepoint
    ensures VersionsOf(Reopened(d, alloc)) == Restart(v, d.id)
  {
    NoGuards(d, alloc);
  }

  lemma SeeRestart(s: State, e: Event)
    requires IsRestart(e) && s.durable.savepoints == s.current.savepoints
    ensures Sensible(VersionsOf(s), e) && VersionsOf(Next(s, e)) == See(VersionsOf(s), e)
  {
    if e.CrashAndRepair? {
      NextCrash(s);
      var d := s.durable.(id := s.durable.id + 1);
      SeeReopened(VersionsOf(s), d, Repaired(d));
    } else {
      NextLoad(s);
      SeeReopened(VersionsOf(s), s.durable, Repaired(s.durable));
    }
  }

  lemma InvGives(s: State)
    requires Inv(s)
    ensures s.durable.savepoints == s.current.savepoints
    ensures s.txn.Some? ==> forall sp :: sp in s.txn.value.savepoints ==> sp in s.valid
    ensures s.txn.Some? && !s.txn.value.immediate ==> s.txn.value.deleted == {}
  {
  }

  /** Every step of the protocol looks like a step of the machine of versions. */
  lemma StepSeen(s: State, e: Event)
    requires Inv(s) && Guarded(s, e)
    ensures Sensible(VersionsOf(s), e) && VersionsOf(Next(s, e)) == See(VersionsOf(s), e)
  {
    InvGives(s);
    CanSee(s, e);
    if e.RegisterRead? || e.FetchRoot? || e.CloseRead? {
      SeeReaders(s, e);
    } else if e.EphemeralSavepoint? || e.PersistentSavepoint? || e.DropSavepoint? {
      SeeSavepoint(s, e);
    } else if e.DeletePersistent? {
      SeeDelete(s, e);
    } else if e.Restore? {
      SeeRestore(s, e);
    } else if e.CommitDurable? {
      NextDurable(s, e);
      DurablePublishes(s, s.txn.value, e.sysNew, e.sysDropped, e.quickRepair, Next(s, e));
      SeeDurable(s, s.txn.value, e, Next(s, e));
    } else if e.CommitNonDurable? {
      NextNonDurable(s, e);
      NonDurablePublishes(s, s.txn.value, e.sysNew, e.sysDropped, e.processed, Next(s, e));
      SeeNonDurable(s, s.txn.value, e, Next(s, e));
    } else if e.Abort? {
      SeeAbort(s);
    } else if e.CrashAndRepair? || e.LoadAllocator? {
      SeeRestart(s, e);
    } else {
      SeeWriter(s, e);
    }
  }

  // ---------------------------------------------------------------- whole runs

  /** The versions after the first `k` events, computed from the events alone. */
  ghost predicate Follows(vs: seq<Versions>, events: seq<Event>) {
    && |vs| == |events| + 1 && vs[0] == VersionsOf(Init())
    && (forall k :: 0 <= k < |events| ==> Sensible(vs[k], events[k]) && vs[k + 1] == See(vs[k], events[k]))
  }

  lemma RunStepSeen(trace: seq<State>, events: seq<Event>, i: nat, k: nat)
    requires Run(trace, events) && k < |trace| && k == i + 1
    ensures Sensible(VersionsOf(trace[i]), events[i])
    ensures VersionsOf(trace[k]) == See(VersionsOf(trace[i]), events[i])
  {
    RunInv(trace, events, i);
    MvccTheorems.Follows(trace, events, i, k);
    StepSeen(trace[i], events[i]);
  }

  /** What users see in a run of the protocol is what the machine of versions shows them. */
  lemma RunSeen(trace: seq<State>, events: seq<Event>)
    requires Run(trace, events)
    ensures Follows(seq(|trace|, k requires 0 <= k < |trace| => VersionsOf(trace[k])), events)
  {
    forall k | 0 <= k < |events|
      ensures Sensible(VersionsOf(trace[k]), events[k])
      ensures VersionsOf(trace[k + 1]) == See(VersionsOf(trace[k]), events[k])
    {
      RunStepSeen(trace, events, k, k + 1);
    }
  }

  lemma SeeReader(v: Versions, e: Event, n: nat)
    requires Sensible(v, e)
    ensures e == FetchRoot(n) ==> n in See(v, e).readers && See(v, e).readers[n] == v.committed
    ensures e != FetchRoot(n) && e != CloseRead(n) && !IsRestart(e) && n in v.readers ==>
              n in See(v, e).readers && See(v, e).readers[n] == v.readers[n]
  {
  }

  lemma SeeDurableVersion(v: Versions, e: Event)
    requires Sensible(v, e)
    ensures e.CommitDurable? ==> See(v, e).durable.pages == v.writer.value.data
    ensures !e.CommitDurable? ==> See(v, e).durable.pages == v.durable.pages
    ensures IsRestart(e) ==> See(v, e).committed.pages == v.durable.pages
  {
  }

  ghost predicate Reads(s: State, n: nat, version: Snapshot) {
    n in s.readers && s.readers[n] == version
  }

  /** Another event than the fetch and the closing of reader `n`, in the same process. */
  predicate Elsewhere(e: Event, n: nat) {
    e != FetchRoot(n) && e != CloseRead(n) && !IsRestart(e)
  }

  lemma ReaderStep(trace: seq<State>, events: seq<Event>, i: nat, k: nat, n: nat, version: Snapshot)
    requires Run(trace, events) && k < |trace| && k == i + 1
    requires if events[i] == FetchRoot(n) then version == Root(trace[i].current)
             else Elsewhere(events[i], n) && Reads(trace[i], n, version)
    ensures Reads(trace[k], n, version)
  {
    RunStepSeen(trace, events, i, k);
    SeeReader(VersionsOf(trace[i]), events[i], n);
  }

  lemma DurableStep(trace: seq<State>, events: seq<Event>, i: nat, k: nat)
    requires Run(trace, events) && k < |trace| && k == i + 1
    ensures events[i].CommitDurable? ==>
              var w := VersionsOf(trace[i]).writer; w.Some? && VersionsOf(trace[k]).durable.pages == w.value.data
    ensures !events[i].CommitDurable? ==> VersionsOf(trace[k]).durable.pages == VersionsOf(trace[i]).durable.pages
    ensures IsRestart(events[i]) ==> VersionsOf(trace[k]).committed.pages == VersionsOf(trace[i]).durable.pages
  {
    RunStepSeen(trace, events, i, k);
    SeeDurableVersion(VersionsOf(trace[i]), events[i]);
  }

  /** Until its reader is closed or the process ends, a version a reader holds stays the same. */
  lemma {:induction false} ReaderKeepsVersion(trace: seq<State>, events: seq<Event>, j: nat, k: nat, n: nat)
    requires Run(trace, events) && j < k < |trace| && events[j] == FetchRoot(n)
    requires forall i :: j < i < k ==> Elsewhere(events[i], n)
    ensures Reads(trace[k], n, Root(trace[j].current))
    decreases k
  {
    var i := k - 1;
    if j < i {
      ReaderKeepsVersion(trace, events, j, i, n);
      assert Elsewhere(events[i], n);
    }
    ReaderStep(trace, events, i, k, n, Root(trace[j].current));
  }

  /** Only a durable commit changes what is durable. */
  lemma {:induction false} DurableVersionStays(trace: seq<State>, events: seq<Event>, j: nat, k: nat)
    requires Run(trace, events) && j < k < |trace| && events[j].CommitDurable?
    requires forall i :: j < i < k ==> !events[i].CommitDurable?
    ensures var w := VersionsOf(trace[j]).writer; w.Some? && VersionsOf(trace[k]).durable.pages == w.value.data
    decreases k
  {
    var i := k - 1;
    DurableStep(trace, events, i, k);
    if j < i {
      DurableVersionStays(trace, events, j, i);
    }
  }

  /** What was committed durably last is what a restart brings back, whatever came in between. */
  lemma DurableComesBack(trace: seq<State>, events: seq<Event>, j: nat, k: nat, next: nat)
    requires Run(trace, events) && j < k < |events| && events[j].CommitDurable? && next == k + 1
    requires IsRestart(events[k]) && forall i :: j < i < k ==> !events[i].CommitDurable?
    ensures var w := VersionsOf(trace[j]).writer; w.Some? && VersionsOf(trace[next]).committed.pages == w.value.data
  {
    DurableVersionStays(trace, events, j, k);
    DurableStep(trace, events, k, next);
  }
}
