/**
 `begin_read` registers a transaction id and fetches the data root in two separate steps.  When a
 non-durable commit lands between the two, the registration can name a durable transaction while
 the root belongs to a pending one, and the non-durable freeing rule no longer sees the reader.
 This module states exactly when a fetched root is safe.
 */
module MvccReadRace {
  import opened Ledgers
  import opened Mvcc
  import opened MvccInvariant
  import opened MvccTheorems
  import MvccSteps

  /** `events` can be executed from `s`, later readers fetching their roots under protection. */
  ghost predicate Continues(s: State, events: seq<Event>)
    decreases |events|
  {
    events == [] || (Guarded(s, events[0]) && Continues(Next(s, events[0]), events[1..]))
  }

  ghost function Exec(s: State, events: seq<Event>): State
    requires Continues(s, events)
    decreases |events|
  {
    if events == [] then s else Exec(Next(s, events[0]), events[1..])
  }

  lemma Prepend(s: State, e: Event, events: seq<Event>)
    requires Guarded(s, e) && Continues(Next(s, e), events)
    ensures Continues(s, [e] + events) && Exec(s, [e] + events) == Exec(Next(s, e), events)
  {
    assert ([e] + events)[1..] == events;
  }

  lemma Regroup(first: seq<Event>, second: seq<Event>)
    requires first != []
    ensures first + second == [first[0]] + (first[1..] + second)
  {
  }

  lemma {:induction false} Append(s: State, first: seq<Event>, second: seq<Event>)
    requires Continues(s, first) && Continues(Exec(s, first), second)
    ensures Continues(s, first + second) && Exec(s, first + second) == Exec(Exec(s, first), second)
    decreases |first|
  {
    if first == [] {
      assert first + second == second;
    } else {
      Regroup(first, second);
      Append(Next(s, first[0]), first[1..], second);
      Prepend(s, first[0], first[1..] + second);
    }
  }

  lemma {:induction false} ContinuesInv(s: State, events: seq<Event>)
    requires Inv(s) && Continues(s, events)
    ensures Inv(Exec(s, events))
    decreases |events|
  {
    if events != [] {
      StepInv(s, events[0]);
      ContinuesInv(Next(s, events[0]), events[1..]);
    }
  }

  /** However the run goes on, an open reader `n` keeps its pages. */
  ghost predicate ReaderNeverLosesPages(s: State, n: nat) {
    forall events :: Continues(s, events) && n in Exec(s, events).readers ==>
      Exec(s, events).readers[n].pages <= Exec(s, events).alloc
  }

  lemma ProtectedFetchIsSafe(s: State, n: nat)
    requires Inv(s) && Enabled(s, FetchRoot(n)) && RootProtected(s, n)
    ensures ReaderNeverLosesPages(Fetch(s, n), n)
  {
    MvccSteps.FetchInv(s, n);
    forall events | Continues(Fetch(s, n), events) && n in Exec(Fetch(s, n), events).readers
      ensures Exec(Fetch(s, n), events).readers[n].pages <= Exec(Fetch(s, n), events).alloc
    {
      ContinuesInv(Fetch(s, n), events);
      InvSafe(Exec(Fetch(s, n), events));
    }
  }

  // ---------------------------------------------------------------- no commit in between

  predicate IsCommit(e: Event) {
    e.CommitDurable? || e.CommitNonDurable?
  }

  /** What reader `n` has registered, if anything, is the last commit. */
  ghost predicate RegisteredLast(s: State, n: nat) {
    Guard(n) in s.holders ==> s.holders[Guard(n)] == s.current.id
  }

  lemma StaysRegisteredLast(s: State, e: Event, n: nat)
    requires RegisteredLast(s, n) && Guarded(s, e) && !IsCommit(e)
    ensures RegisteredLast(Next(s, e), n)
  {
  }

  lemma {:induction false} UndisturbedRun(s: State, n: nat, events: seq<Event>)
    requires RegisteredLast(s, n) && Continues(s, events) && forall e :: e in events ==> !IsCommit(e)
    ensures RegisteredLast(Exec(s, events), n)
    decreases |events|
  {
    if events != [] {
      StaysRegisteredLast(s, events[0], n);
      UndisturbedRun(Next(s, events[0]), n, events[1..]);
    }
  }

  /** A root that is the one registered is protected: its id is pending, or it is durable. */
  lemma RegisteredLastIsProtected(s: State, n: nat)
    requires Inv(s) && Guard(n) in s.holders && RegisteredLast(s, n)
    ensures RootProtected(s, n)
  {
    if Pending(s.holders) == {} {
      assert s.current == s.durable;
      assert DurableOk(s.durable, s.current, s.unpersisted + s.uncommitted);
    }
  }

  /** If no commit lands between the two steps of `begin_read`, the root is protected. */
  lemma UndisturbedFetchIsProtected(s: State, n: nat, events: seq<Event>)
    requires Inv(s) && Guard(n) !in s.holders && Continues(Register(s, n), events)
    requires forall e :: e in events ==> !IsCommit(e)
    requires Guard(n) in Exec(Register(s, n), events).holders
    ensures RootProtected(Exec(Register(s, n), events), n)
  {
    MvccSteps.RegisterInv(s, n);
    ContinuesInv(Register(s, n), events);
    UndisturbedRun(Register(s, n), n, events);
    RegisteredLastIsProtected(Exec(Register(s, n), events), n);
  }

  // ---------------------------------------------------------------- the other direction

  /** References a user can give up: other readers and ephemeral savepoint handles. */
  function Others(h: map<Holder, Tid>, n: nat): set<Holder> {
    set x | x in h && ((x.Guard? && x != Guard(n)) || x.Ephemeral?)
  }

  /** Every valid savepoint is an ephemeral one with an open handle. */
  ghost predicate OnlyHandles(s: State) {
    forall sp: SpId :: sp in s.valid ==> Ephemeral(sp) in s.holders
  }

  /** Only reader `n` is left and no savepoint; everything else a writer looks at is unchanged. */
  ghost predicate OnlyReader(s: State, t: State, n: nat) {
    && Others(t.holders, n) == {}
    && (forall h :: h in t.holders ==> h in s.holders && t.holders[h] == s.holders[h])
    && Guard(n) in t.holders
    && Pending(t.holders) == Pending(s.holders)
    && n in s.readers && n in t.readers && t.readers[n] == s.readers[n]
    && t == s.(holders := t.holders, readers := t.readers, valid := map[])
  }

  lemma CloseOne(s: State, n: nat, h: Holder, e: Event)
    requires h in Others(s.holders, n) && OnlyHandles(s) && Guard(n) in s.holders && n in s.readers
    requires e == if h.Guard? then CloseRead(h.n) else DropSavepoint(h.sp)
    ensures Guarded(s, e)
    ensures var t := Next(s, e);
            && t == s.(holders := s.holders - {h}, readers := t.readers, valid := t.valid)
            && n in t.readers && t.readers[n] == s.readers[n] && OnlyHandles(t)
            && Others(s.holders, n) == Others(t.holders, n) + {h} && h !in Others(t.holders, n)
            && Pending(t.holders) == Pending(s.holders)
  {
    var t := Next(s, e);
    assert t.holders == s.holders - {h};
    forall sp: SpId | sp in t.valid
      ensures Ephemeral(sp) in t.holders
    {
      assert Ephemeral(sp) in s.holders;
    }
  }

  lemma {:induction false} CloseOthers(s: State, n: nat) returns (events: seq<Event>)
    requires Guard(n) in s.holders && n in s.readers && OnlyHandles(s)
    ensures Continues(s, events) && OnlyReader(s, Exec(s, events), n)
    decreases |Others(s.holders, n)|
  {
    if h :| h in Others(s.holders, n) {
      var e := if h.Guard? then CloseRead(h.n) else DropSavepoint(h.sp);
      CloseOne(s, n, h, e);
      var rest := CloseOthers(Next(s, e), n);
      Prepend(s, e, rest);
      events := [e] + rest;
      CloseMore(s, Next(s, e), Exec(s, events), n, h);
    } else {
      events := [];
      NoHandles(s, n);
    }
  }

  lemma CloseMore(s: State, t: State, u: State, n: nat, h: Holder)
    requires OnlyReader(t, u, n) && n in s.readers && t.readers[n] == s.readers[n]
    requires t == s.(holders := s.holders - {h}, readers := t.readers, valid := t.valid)
    requires Pending(t.holders) == Pending(s.holders)
    ensures OnlyReader(s, u, n)
  {
  }

  lemma NoHandles(s: State, n: nat)
    requires Others(s.holders, n) == {} && OnlyHandles(s) && Guard(n) in s.holders && n in s.readers
    ensures OnlyReader(s, s, n)
  {
    assert forall sp: SpId :: Ephemeral(sp) !in Others(s.holders, n);
    assert s.valid.Keys == {};
    assert s.valid == map[];
  }

  /** The tracker of a state whose only reader registered a transaction that is not pending. */
  ghost predicate Overlooked(s: State, n: nat, p: Page) {
    && s.txn.None? && s.valid == map[] && s.uncommitted == {}
    && n in s.readers && p in s.readers[n].pages
    && p in s.current.data && p in s.unpersisted && p !in s.current.dataFreed && p !in s.current.systemFreed
    && s.current.id <= s.nextTid
    && (forall h :: h in s.holders ==> s.holders[h] !in Pending(s.holders) && s.holders[h] <= s.current.id)
    && s.durable.id !in Pending(s.holders) && s.durable.id <= s.current.id
  }

  function PrepareEvents(p: Page): seq<Event> {
    [BeginWrite, SetDurability(false), OpenTable, Mutate({}, {p})]
  }

  /** A non-durable commit that leaves the system tree alone. */
  ghost function PlainCommit(s: State): Event
    requires s.txn.Some?
  {
    CommitNonDurable({}, {}, Due(s, s.txn.value))
  }

  lemma PlainCommitEnabled(s: State)
    requires s.txn.Some? && !s.txn.value.immediate
    ensures Guarded(s, PlainCommit(s)) && PlainCommit(s).processed == Due(s, s.txn.value)
    ensures Next(s, PlainCommit(s)) == NonDurableCommit(s, s.txn.value, {}, {}, Due(s, s.txn.value))
  {
  }

  ghost function DropEvents(s: State, p: Page): seq<Event> {
    PrepareEvents(p) + [PlainCommit(Dropping(s, p))]
  }

  ghost function ReclaimEvents(s: State): seq<Event> {
    [BeginWrite, SetDurability(false), PlainCommit(Volatile(s))]
  }

  /** A transaction just begun, not to be durable. */
  function Volatile(s: State): State {
    s.(nextTid := s.nextTid + 1, txn := Some(NewTxn(s.current, s.nextTid + 1).(immediate := false)))
  }

  ghost predicate PageQueued(s: State, n: nat, p: Page, own: Tid) {
    && s.txn.None? && s.valid == map[] && own == s.nextTid
    && n in s.readers && p in s.readers[n].pages
    && p in s.current.dataFreed && s.current.dataFreed[p] == own && p in s.unpersisted
    && own in s.unprocessed
    && (forall h :: h in s.holders ==> s.holders[h] !in Pending(s.holders))
  }

  /** The open transaction that has dropped `p` from the data tree. */
  function Dropping(s: State, p: Page): State {
    var x := NewTxn(s.current, s.nextTid + 1);
    s.(nextTid := s.nextTid + 1,
       txn := Some(x.(dirty := true, immediate := false, tracking := false,
                      data := s.current.data - {p}, freed := {p})))
  }

  lemma PrepareDrop(s: State, n: nat, p: Page)
    requires Overlooked(s, n, p)
    ensures Continues(s, PrepareEvents(p)) && Exec(s, PrepareEvents(p)) == Dropping(s, p)
  {
    var s1 := Next(s, BeginWrite);
    var s2 := Next(s1, SetDurability(false));
    var s3 := Next(s2, OpenTable);
    var s4 := Next(s3, Mutate({}, {p}));
    assert s4 == Dropping(s, p) by {
      assert s.alloc + {} - ({p} * s.uncommitted) == s.alloc;
      assert s.uncommitted + {} - ({p} * s.uncommitted) == s.uncommitted;
      assert s.current.data - {p} + {} == s.current.data - {p};
      assert {} + ({p} - s.uncommitted) == {p};
    }
    Prepend(s3, Mutate({}, {p}), []);
    Prepend(s2, OpenTable, [Mutate({}, {p})]);
    Prepend(s1, SetDurability(false), [OpenTable, Mutate({}, {p})]);
    Prepend(s, BeginWrite, [SetDurability(false), OpenTable, Mutate({}, {p})]);
  }

  /** What is due was queued before, so the page just dropped is not among it. */
  lemma DropNotDue(s: State, n: nat, p: Page)
    requires Overlooked(s, n, p)
    ensures var t := Dropping(s, p); p !in NonDurableReleasedAll(t, t.txn.value, Due(t, t.txn.value))
  {
    var t := Dropping(s, p);
    OwnNotDue(t, t.txn.value);
  }

  lemma OwnNotDue(s: State, x: Txn)
    requires forall h :: h in s.holders ==> s.holders[h] < x.id
    ensures x.id !in Due(s, x)
  {
    var ids := s.holders.Values * Pending(s.holders);
    if ids != {} {
      var h :| h in s.holders && s.holders[h] == Min(ids);
    }
  }

  lemma CommitDrop(s: State, n: nat, p: Page)
    requires Overlooked(s, n, p)
    ensures var t := Dropping(s, p);
            Guarded(t, PlainCommit(t)) && PageQueued(Next(t, PlainCommit(t)), n, p, s.nextTid + 1)
  {
    var t, own := Dropping(s, p), s.nextTid + 1;
    PlainCommitEnabled(t);
    DropNotDue(s, n, p);
    OwnNotDue(t, t.txn.value);
    DropOutcome(s, n, p, t, own, NonDurableCommit(t, t.txn.value, {}, {}, Due(t, t.txn.value)));
  }

  lemma DropOutcome(s: State, n: nat, p: Page, t: State, own: Tid, u: State)
    requires Overlooked(s, n, p) && t == Dropping(s, p) && own == s.nextTid + 1
    requires u == NonDurableCommit(t, t.txn.value, {}, {}, Due(t, t.txn.value))
    requires p !in NonDurableReleasedAll(t, t.txn.value, Due(t, t.txn.value)) && own !in Due(t, t.txn.value)
    ensures PageQueued(u, n, p, own)
  {
    PendingAdd(s.holders, own, s.durable.id);
    assert u.valid == map[];
  }

  /** A first non-durable commit drops the page from the data tree. */
  lemma DropPage(s: State, n: nat, p: Page)
    requires Overlooked(s, n, p)
    ensures Continues(s, DropEvents(s, p)) && PageQueued(Exec(s, DropEvents(s, p)), n, p, s.nextTid + 1)
  {
    PrepareDrop(s, n, p);
    CommitDrop(s, n, p);
    Prepend(Dropping(s, p), PlainCommit(Dropping(s, p)), []);
    Append(s, PrepareEvents(p), [PlainCommit(Dropping(s, p))]);
  }

  /** A second one hands it back to the allocator, reader or not. */
  lemma ReclaimPage(s: State, n: nat, p: Page, own: Tid)
    requires PageQueued(s, n, p, own)
    ensures Continues(s, ReclaimEvents(s))
    ensures var t := Exec(s, ReclaimEvents(s)); n in t.readers && p in t.readers[n].pages && p !in t.alloc
  {
    var s1, s2 := Next(s, BeginWrite), Volatile(s);
    assert Next(s1, SetDurability(false)) == s2;
    assert s2.holders.Values * Pending(s2.holders) == {};
    assert FreeUntilNonDurable(s2, s2.txn.value.id) == own + 1;
    PlainCommitEnabled(s2);
    QueuedIsDue(s2, s2.txn.value, p, own);
    Prepend(s2, PlainCommit(s2), []);
    Prepend(s1, SetDurability(false), [PlainCommit(s2)]);
    Prepend(s, BeginWrite, [SetDurability(false), PlainCommit(s2)]);
  }

  lemma QueuedIsDue(s: State, x: Txn, p: Page, t: Tid)
    requires p in x.dataFreed && x.dataFreed[p] == t && x.freed == {} && t in s.unprocessed
    requires t < FreeUntilNonDurable(s, x.id) && p in s.unpersisted
    ensures p in NonDurableReleasedAll(s, x, Due(s, x))
  {
    var queue := x.dataFreed + Tag(x.freed, x.id);
    assert p in queue && queue[p] == t;
  }

  lemma OverlookedReader(s: State, n: nat, p: Page, t: State)
    requires TrackerOk(s.holders, s.current.id, s.durable.id) && IdsOk(s)
    requires TableOk(s.holders, s.valid, s.current.savepoints, {})
    requires Guard(n) in s.holders && !RootProtected(s, n) && s.txn.None?
    requires p in s.current.data && p in s.unpersisted && Disjoint(s.current)
    requires OnlyReader(Fetch(s, n), t, n)
    ensures Overlooked(t, n, p)
  {
    assert forall sp: SpId :: Persistent(sp) !in s.holders;
    forall h | h in t.holders
      ensures t.holders[h] !in Pending(t.holders)
    {
      assert h !in Others(t.holders, n);
      assert h == Guard(n) || h.NonDurable?;
    }
  }

  lemma OverlookedLosesPage(t: State, n: nat, p: Page) returns (events: seq<Event>)
    requires Overlooked(t, n, p)
    ensures Continues(t, events)
    ensures var u := Exec(t, events); n in u.readers && p in u.readers[n].pages && p !in u.alloc
  {
    var own := t.nextTid + 1;
    DropPage(t, n, p);
    var u := Exec(t, DropEvents(t, p));
    ReclaimPage(u, n, p, own);
    Append(t, DropEvents(t, p), ReclaimEvents(u));
    events := DropEvents(t, p) + ReclaimEvents(u);
  }

  lemma HandlesOnly(s: State)
    requires RefsOk(s.holders, s.valid, s.nextSp) && TableOk(s.holders, s.valid, s.current.savepoints, {}) && !Saved(s)
    ensures OnlyHandles(s)
  {
    forall sp: SpId | sp in s.valid
      ensures Ephemeral(sp) in s.holders
    {
      assert Persistent(sp) !in s.holders;
    }
  }

  /** Without a writer: close everything else, drop the page from the tree, commit twice. */
  lemma UnprotectedFetchLosesPage(s: State, n: nat)
    requires Inv(s) && Enabled(s, FetchRoot(n)) && !RootProtected(s, n) && s.txn.None?
    ensures !ReaderNeverLosesPages(Fetch(s, n), n)
  {
    var p :| p in s.current.data && p in s.unpersisted;
    HandlesOnly(s);
    var close := CloseOthers(Fetch(s, n), n);
    OverlookedReader(s, n, p, Exec(Fetch(s, n), close));
    var lose := OverlookedLosesPage(Exec(Fetch(s, n), close), n, p);
    Append(Fetch(s, n), close, lose);
    LosesPage(Fetch(s, n), n, p, close + lose);
  }

  lemma LosesPage(s: State, n: nat, p: Page, events: seq<Event>)
    requires Continues(s, events)
    requires var u := Exec(s, events); n in u.readers && p in u.readers[n].pages && p !in u.alloc
    ensures !ReaderNeverLosesPages(s, n)
  {
  }

  /** A writer can be aborted first; that changes nothing the reader depends on. */
  lemma AbortFirst(s: State, n: nat)
    requires Inv(s) && Enabled(s, FetchRoot(n)) && !RootProtected(s, n) && s.txn.Some?
    ensures var t := Aborted(s, s.txn.value);
            Inv(t) && Enabled(t, FetchRoot(n)) && !RootProtected(t, n) && t.txn.None?
  {
    MvccSteps.AbortInv(s);
    MvccSteps.AbortHolders(s);
  }

  lemma AbortCommutes(s: State, n: nat)
    requires s.txn.Some?
    ensures Guarded(Fetch(s, n), Abort) && Next(Fetch(s, n), Abort) == Fetch(Aborted(s, s.txn.value), n)
  {
  }

  lemma LaterLoss(s: State, e: Event, n: nat)
    requires Guarded(s, e) && !ReaderNeverLosesPages(Next(s, e), n)
    ensures !ReaderNeverLosesPages(s, n)
  {
    var events :| Continues(Next(s, e), events) && n in Exec(Next(s, e), events).readers
                  && !(Exec(Next(s, e), events).readers[n].pages <= Exec(Next(s, e), events).alloc);
    Prepend(s, e, events);
    var u := Exec(s, [e] + events);
    var p :| p in u.readers[n].pages && p !in u.alloc;
    LosesPage(s, n, p, [e] + events);
  }

  /**
   The exact condition, in every state the protocol can be in: the root a reader fetches is safe
   for the rest of every run if and only if the id the reader registered is a pending commit, no
   page of the root is unpersisted, or there is a persistent savepoint.
   */
  lemma FetchIsSafeIffProtected(s: State, n: nat)
    requires Inv(s) && Enabled(s, FetchRoot(n))
    ensures ReaderNeverLosesPages(Fetch(s, n), n) <==> RootProtected(s, n)
  {
    if RootProtected(s, n) {
      ProtectedFetchIsSafe(s, n);
    } else if s.txn.None? {
      UnprotectedFetchLosesPage(s, n);
    } else {
      AbortFirst(s, n);
      UnprotectedFetchLosesPage(Aborted(s, s.txn.value), n);
      AbortCommutes(s, n);
      LaterLoss(Fetch(s, n), Abort, n);
    }
  }

  // ---------------------------------------------------------------- the race happens

  /** A reader registers, then a non-durable commit writes page 1 and a system page 2. */
  const RACE: seq<Event> :=
    [RegisterRead(0), BeginWrite, SetDurability(false), OpenTable, Mutate({1}, {}), CommitNonDurable({2}, {}, {})]

  /** The state just before the racing commit. */
  function BeforeRace(): State {
    var x := NewTxn(Init().current, 3).(dirty := true, immediate := false, tracking := false, data := {1});
    Init().(alloc := {1}, uncommitted := {1}, holders := map[Guard(0) := 0], nextTid := 3, txn := Some(x))
  }

  /** The state just before the write. */
  function BeforeWrite(): State {
    var x := NewTxn(Init().current, 3).(dirty := true, immediate := false, tracking := false);
    Init().(holders := map[Guard(0) := 0], nextTid := 3, txn := Some(x))
  }

  lemma RaceWrites()
    ensures Guarded(BeforeWrite(), Mutate({1}, {})) && Next(BeforeWrite(), Mutate({1}, {})) == BeforeRace()
  {
    var none: set<Page> := {};
    assert none + {1} - (none * none) == {1} && none - none + {1} == {1} && none + (none - none) == none;
  }

  lemma RaceBegins()
    ensures var events := [RegisterRead(0), BeginWrite, SetDurability(false), OpenTable];
            Continues(Init(), events) && Exec(Init(), events) == BeforeWrite()
  {
    var s1 := Next(Init(), RegisterRead(0));
    var s2 := Next(s1, BeginWrite);
    var s3 := Next(s2, SetDurability(false));
    assert Init().holders == map[] && s3.valid.Keys == {};
    assert Next(s3, OpenTable) == BeforeWrite();
    Prepend(s3, OpenTable, []);
    Prepend(s2, SetDurability(false), [OpenTable]);
    Prepend(s1, BeginWrite, [SetDurability(false), OpenTable]);
    Prepend(Init(), RegisterRead(0), [BeginWrite, SetDurability(false), OpenTable]);
    assert [RegisterRead(0)] + [BeginWrite, SetDurability(false), OpenTable]
        == [RegisterRead(0), BeginWrite, SetDurability(false), OpenTable];
  }

  lemma RaceOpens()
    ensures Continues(Init(), RACE[..5]) && Exec(Init(), RACE[..5]) == BeforeRace()
  {
    RaceBegins();
    RaceWrites();
    Prepend(BeforeWrite(), Mutate({1}, {}), []);
    Append(Init(), [RegisterRead(0), BeginWrite, SetDurability(false), OpenTable], [Mutate({1}, {})]);
    assert RACE[..5] == [RegisterRead(0), BeginWrite, SetDurability(false), OpenTable] + [Mutate({1}, {})];
  }

  ghost function AfterRace(): State {
    NonDurableCommit(BeforeRace(), BeforeRace().txn.value, {2}, {}, {})
  }

  lemma RaceCommits()
    ensures Guarded(BeforeRace(), RACE[5]) && Next(BeforeRace(), RACE[5]) == AfterRace()
  {
    var s := BeforeRace();
    NothingReleased(s, s.txn.value);
    assert RACE[5] == CommitNonDurable({2}, {}, {});
    CommitEnabled(s, s.txn.value, {2});
  }

  lemma NothingReleased(s: State, x: Txn)
    ensures NonDurableReleasedAll(s, x, {}) == {}
  {
  }

  lemma CommitEnabled(s: State, x: Txn, sysNew: set<Page>)
    requires s.txn == Some(x) && !x.immediate && NonDurableReleasedAll(s, x, {}) == {} && sysNew !! s.alloc
    requires s.unprocessed == {}
    ensures Guarded(s, CommitNonDurable(sysNew, {}, {}))
    ensures Next(s, CommitNonDurable(sysNew, {}, {})) == NonDurableCommit(s, x, sysNew, {}, {})
  {
  }

  lemma PendingAdd(h: map<Holder, Tid>, t: Tid, d: Tid)
    ensures Pending(h[NonDurable(t) := d]) == Pending(h) + {t}
  {
    var k := h[NonDurable(t) := d];
    assert NonDurable(t) in k;
    assert forall u: Tid :: u != t ==> (NonDurable(u) in k <==> NonDurable(u) in h);
  }

  lemma NoPending(n: nat, d: Tid)
    ensures Pending(map[Guard(n) := d]) == {}
  {
  }

  lemma RaceLeavesPageUnpersisted()
    ensures 1 in AfterRace().current.data && 1 in AfterRace().unpersisted && !Saved(AfterRace())
    ensures AfterRace().txn.None? && AfterRace().readers == map[] && Guard(0) in AfterRace().holders
  {
    assert 1 in BeforeRace().uncommitted;
  }

  lemma RaceUnprotected()
    ensures Guard(0) in AfterRace().holders && !RootProtected(AfterRace(), 0)
  {
    NoPending(0, 0);
    PendingAdd(BeforeRace().holders, 3, 0);
    RaceLeavesPageUnpersisted();
  }

  lemma RaceRuns()
    ensures Continues(Init(), RACE) && Exec(Init(), RACE) == AfterRace()
  {
    RaceOpens();
    RaceCommits();
    Prepend(BeforeRace(), RACE[5], []);
    Append(Init(), RACE[..5], [RACE[5]]);
    assert RACE[..5] + [RACE[5]] == RACE;
  }

  lemma ReachableInv(events: seq<Event>)
    requires Continues(Init(), events)
    ensures Inv(Exec(Init(), events))
  {
    MvccSteps.InitInv();
    ContinuesInv(Init(), events);
  }

  lemma ReachableFetchLosesPage(events: seq<Event>, s: State, n: nat)
    requires Continues(Init(), events) && s == Exec(Init(), events)
    requires Guard(n) in s.holders && n !in s.readers && !RootProtected(s, n)
    ensures !ReaderNeverLosesPages(Fetch(s, n), n)
  {
    ReachableInv(events);
    FetchIsSafeIffProtected(s, n);
  }

  /** From a new database a run reaches a state in which fetching the root loses a page. */
  lemma RaceIsReachable()
    ensures Continues(Init(), RACE)
    ensures !ReaderNeverLosesPages(Fetch(Exec(Init(), RACE), 0), 0)
  {
    RaceRuns();
    RaceUnprotected();
    RaceLeavesPageUnpersisted();
    ReachableFetchLosesPage(RACE, AfterRace(), 0);
  }
}
