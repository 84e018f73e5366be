/**
 What an actor instance holds in memory about its disk, as a value, and how the single writes of
 the instance and of others change it.
 */
module ActorCore {
  import opened Ledgers
  import opened ActorDisk
  import opened ActorLog
  import opened ActorPhase
  import opened ActorScript

  datatype Pending = Pending(before: Option<Snap>, after: Snap, parents: seq<Action>, ts: nat)

  function Waiting(p: Option<Pending>): Option<Snap> {
    if p.Some? then Some(p.value.after) else None
  }

  /** The number of the barrier that waits for its entry. */
  function Number(p: Option<Pending>): Option<nat> {
    if p.Some? then Some(p.value.after.index) else None
  }

  /** The references an instance holds into the disk. */
  ghost predicate Anchored(snaps: set<Snap>, log: seq<Action>, snap: Option<Snap>, last: Option<Action>,
                           pending: Option<Pending>, extra: seq<Action>, counter: nat)
  {
    && Present(snaps, snap)
    && (snap.Some? ==> snap.value.index < counter && Descending(snap.value))
    && (last.Some? ==> last.value in log)
    && (pending.Some? ==> Present(snaps, pending.value.before) && pending.value.after in snaps
                          && pending.value.after.parent == pending.value.before && Descending(pending.value.after)
                          && pending.value.after.index < counter
                          && forall p :: p in pending.value.parents ==> p in log)
    && (forall c :: c in extra ==> c in log)
  }

  /** The agent's own entries: what they tell, and that the counts of its boundaries sum to `start`. */
  ghost predicate Accounted(log: seq<Action>, id: Agent, last: Option<Action>, waiting: Option<Snap>, counter: nat,
                            start: nat, story: Tale)
  {
    && OwnEntries(log, id, last, waiting, counter)
    && Sum(BoundaryCounts(log, id)) == start
    && Story(log, id) == story
  }

  /** A new entry of the agent keeps the account, a boundary raising the sum. */
  lemma OwnEntry(log: seq<Action>, id: Agent, last: Option<Action>, waiting: Option<Snap>, counter: nat, start: nat,
                 story: Tale, a: Action)
    requires Accounted(log, id, last, waiting, counter, start, story) && a !in log
    requires a.agent == id && (a.after.Some? ==> a.after.value.index < counter)
    requires waiting.Some? ==> !Commits(a, waiting.value)
    ensures Accounted(log + [a], id, Some(a), waiting, counter,
                      start + if a.payload.Boundary? then a.payload.count else 0, Say(story, Told(a.payload)))
  {
    OwnAppend(log, id, last, waiting, counter, a);
    BoundaryCountsAppend(log, id, a);
    StoryAppend(log, id, a);
  }

  /** A boundary chained to the last entry brings the sum up to the counter. */
  lemma BoundaryEntry(log: seq<Action>, id: Agent, last: Option<Action>, waiting: Option<Snap>, counter: nat,
                      start: nat, story: Tale, a: Action)
    requires ParentsOk(log) && Accounted(log, id, last, waiting, counter, start, story) && start <= counter
    requires a.agent == id && a.parents == Optional(last) && a.before == a.after
    requires a.after.Some? ==> a.after.value.index < counter
    requires a.payload.Boundary? && a.payload.count == counter - start
    ensures a !in log && Accounted(log + [a], id, Some(a), waiting, counter, counter, Say(story, a.payload))
  {
    NewSince(log, id, last, {}, a);
    OwnEntry(log, id, last, waiting, counter, start, story, a);
  }

  /** What other agents write changes neither the references nor the account. */
  lemma ForeignKeeps(snaps: set<Snap>, all: set<Snap>, log: seq<Action>, more: seq<Action>, id: Agent,
                     snap: Option<Snap>, last: Option<Action>, pending: Option<Pending>, extra: seq<Action>,
                     counter: nat, start: nat, story: Tale)
    requires Foreign(log, more, id) && snaps <= all && Anchored(snaps, log, snap, last, pending, extra, counter)
    ensures Anchored(all, more, snap, last, pending, extra, counter)
    ensures Accounted(log, id, last, Waiting(pending), counter, start, story) ==>
              Accounted(more, id, last, Waiting(pending), counter, start, story)
  {
    if Accounted(log, id, last, Waiting(pending), counter, start, story) {
      OwnForeign(log, more, id, last, Waiting(pending), counter);
      BoundaryForeign(log, more, id);
      StoryForeign(log, more, id);
    }
  }

  /** The entry of a barrier is new, however late it is logged. */
  lemma CommitEntry(log: seq<Action>, id: Agent, last: Option<Action>, s: Snap, counter: nat, start: nat,
                    story: Tale, a: Action)
    requires Accounted(log, id, last, Some(s), counter, start, story)
    requires a.agent == id && Commits(a, s) && s.index < counter && !a.payload.Boundary?
    ensures a !in log
    ensures Accounted(log + [a], id, Some(a), None, counter, start, Say(story, Told(a.payload)))
  {
    CommitIsNew(log, id, last, s, counter, a);
    OwnAppend(log, id, last, Some(s), counter, a);
    BoundaryCountsAppend(log, id, a);
    StoryAppend(log, id, a);
  }

  /** One more barrier is logged. */
  lemma CommitAdded(log: seq<Action>, more: seq<Action>, id: Agent, commits: map<nat, seq<Action>>, a: Action, n: nat)
    requires CommitsLogged(log, id, commits) && log <= more && a in more && IsCommit(a, id, n, a.parents)
    ensures CommitsLogged(more, id, commits[n := a.parents])
  {
    CommitsMore(log, more, id, commits);
    assert CommitIn(more, id, n, a.parents);
  }

  ghost function Logged(commits: map<nat, seq<Action>>, p: Pending): map<nat, seq<Action>> {
    commits[p.after.index := p.parents]
  }

  // ---------------------------------------------------------------- the cause of a message

  /**
   Cause `c` came in before barrier `n`: it waits for the barrier, or is among the parents the
   barrier has, waiting or logged.
   */
  ghost predicate Carried(extra: seq<Action>, pending: Option<Pending>, commits: map<nat, seq<Action>>, counter: nat,
                          c: Action, n: nat)
  {
    && n <= counter
    && (counter == n ==> c in extra)
    && (counter > n && Number(pending) == Some(n) ==> c in pending.value.parents)
    && (n in commits ==> c in commits[n])
  }

  lemma CarriedBarrier(extra: seq<Action>, pending: Option<Pending>, commits: map<nat, seq<Action>>, counter: nat,
                       c: Action, n: nat, p: Pending, next: nat)
    requires Carried(extra, pending, commits, counter, c, n) && next == counter + 1 && p.after.index == counter
    requires forall x :: x in extra ==> x in p.parents
    ensures Carried([], Some(p), commits, next, c, n)
  {
  }

  lemma CarriedLogged(extra: seq<Action>, pending: Option<Pending>, commits: map<nat, seq<Action>>, counter: nat,
                      c: Action, n: nat)
    requires Carried(extra, pending, commits, counter, c, n) && (pending.Some? ==> pending.value.after.index < counter)
    ensures Carried(extra, None, commits, counter, c, n)
    ensures pending.Some? ==> Carried(extra, None, Logged(commits, pending.value), counter, c, n)
  {
  }

  /** In terms of the log: if the agent's barrier `n` has an entry, `c` is one of its parents. */
  ghost predicate Caused(log: seq<Action>, id: Agent, c: Action, n: nat) {
    exists a {:trigger IsCommit(a, id, n, a.parents)} ::
      a in log && IsCommit(a, id, n, a.parents) && c in a.parents
  }

  lemma CarriedIsCaused(log: seq<Action>, id: Agent, extra: seq<Action>, pending: Option<Pending>,
                        commits: map<nat, seq<Action>>, counter: nat, c: Action, n: nat)
    requires Carried(extra, pending, commits, counter, c, n) && CommitsLogged(log, id, commits) && n in commits
    ensures Caused(log, id, c, n)
  {
    assert CommitIn(log, id, n, commits[n]);
    var a :| a in log && IsCommit(a, id, n, commits[n]);
    assert IsCommit(a, id, n, a.parents);
  }

  /** What the agent has written after `before` if `last` is the same entry or the next one. */
  ghost function Written(before: Option<Action>, last: Option<Action>): set<Action> {
    if last == before || last.None? then {} else {last.value}
  }

  /** What was not in the log when `wait` was cannot be behind an entry after it. */
  lemma NotBehind(log: seq<Action>, wait: Option<Action>, result: Action, request: Action)
    requires ParentsOk(log) && request !in log && result != request && result.parents == Optional(wait)
    requires wait.Some? ==> wait.value in log
    ensures !Behind(result, request)
  {
    if wait.Some? && Behind(wait.value, request) {
      BehindLogged(log, wait.value, request);
    }
    assert forall p :: p in result.parents ==> wait == Some(p);
  }

  lemma AnchoredAppend(snaps: set<Snap>, log: seq<Action>, more: seq<Action>, snap: Option<Snap>, last: Option<Action>,
                       pending: Option<Pending>, extra: seq<Action>, counter: nat, a: Action)
    requires Anchored(snaps, log, snap, last, pending, extra, counter)
    requires more == if a in log then log else log + [a]
    ensures Anchored(snaps, more, snap, Some(a), pending, extra, counter)
    ensures Anchored(snaps, more, snap, Some(a), None, extra, counter)
  {
  }

  lemma AnchoredBarrier(snaps: set<Snap>, log: seq<Action>, snap: Option<Snap>, last: Option<Action>,
                        pending: Option<Pending>, extra: seq<Action>, counter: nat, s: Snap, ts: nat)
    requires Anchored(snaps, log, snap, last, pending, extra, counter)
    requires s in snaps && s.parent == snap && s.index == counter
    ensures Anchored(snaps, log, Some(s), last, Some(Pending(snap, s, Optional(last) + extra, ts)), [], counter + 1)
  {
  }

  // ---------------------------------------------------------------- the whole of it

  /** The fields of an instance that refer to the disk or account for its entries. */
  datatype Core = Core(snap: Option<Snap>, last: Option<Action>, pending: Option<Pending>, extra: seq<Action>,
                       counter: nat, start: nat, story: Tale, commits: map<nat, seq<Action>>)

  ghost predicate Sound(snaps: set<Snap>, log: seq<Action>, id: Agent, first: bool, k: Core) {
    && Anchored(snaps, log, k.snap, k.last, k.pending, k.extra, k.counter)
    && (k.last.Some? ==> k.last.value.agent == id)
    && (first ==> Accounted(log, id, k.last, Waiting(k.pending), k.counter, k.start, k.story))
    && CommitsLogged(log, id, k.commits) && (forall n :: n in k.commits ==> n < k.counter)
    && k.start <= k.counter
  }

  lemma SoundForeign(snaps: set<Snap>, all: set<Snap>, log: seq<Action>, more: seq<Action>, id: Agent, first: bool,
                     k: Core)
    requires Sound(snaps, log, id, first, k) && Foreign(log, more, id) && snaps <= all
    ensures Sound(all, more, id, first, k)
  {
    ForeignKeeps(snaps, all, log, more, id, k.snap, k.last, k.pending, k.extra, k.counter, k.start, k.story);
    CommitsMore(log, more, id, k.commits);
  }

  /** A new entry that is neither a boundary nor the entry of the waiting barrier. */
  lemma SoundEnter(snaps: set<Snap>, log: seq<Action>, more: seq<Action>, id: Agent, first: bool, k: Core, a: Action)
    requires Sound(snaps, log, id, first, k) && (first ==> a !in log) && more == (if a in log then log else log + [a])
    requires a.agent == id && (a.after.Some? ==> a.after.value.index < k.counter) && !a.payload.Boundary?
    requires k.pending.Some? ==> !Commits(a, k.pending.value.after)
    ensures Sound(snaps, more, id, first, k.(last := Some(a), story := Say(k.story, Told(a.payload))))
  {
    if first {
      OwnEntry(log, id, k.last, Waiting(k.pending), k.counter, k.start, k.story, a);
    }
    AnchoredAppend(snaps, log, more, k.snap, k.last, k.pending, k.extra, k.counter, a);
    CommitsMore(log, more, id, k.commits);
  }

  lemma SoundBoundary(snaps: set<Snap>, log: seq<Action>, more: seq<Action>, id: Agent, first: bool, k: Core, a: Action)
    requires Sound(snaps, log, id, first, k) && ParentsOk(log) && more == (if a in log then log else log + [a])
    requires a.agent == id && a.parents == Optional(k.last) && a.before == a.after == k.snap
    requires a.payload.Boundary? && a.payload.count == k.counter - k.start
    ensures Sound(snaps, more, id, first, k.(last := Some(a), story := Say(k.story, a.payload), start := k.counter))
  {
    if first {
      BoundaryEntry(log, id, k.last, Waiting(k.pending), k.counter, k.start, k.story, a);
    }
    AnchoredAppend(snaps, log, more, k.snap, k.last, k.pending, k.extra, k.counter, a);
    CommitsMore(log, more, id, k.commits);
  }

  /** The entry of the waiting barrier. */
  lemma SoundCommit(snaps: set<Snap>, log: seq<Action>, more: seq<Action>, id: Agent, first: bool, k: Core, p: Pending,
                    a: Action)
    requires Sound(snaps, log, id, first, k) && k.pending == Some(p) && more == (if a in log then log else log + [a])
    requires a.agent == id && a.parents == p.parents && a.before == p.before && a.after == Some(p.after)
    requires a.payload.Output? || a.payload.Flush?
    ensures Sound(snaps, more, id, first, k.(last := Some(a), pending := None, story := Say(k.story, a.payload),
                                             commits := Logged(k.commits, p)))
  {
    if first {
      CommitEntry(log, id, k.last, p.after, k.counter, k.start, k.story, a);
    }
    AnchoredAppend(snaps, log, more, k.snap, k.last, k.pending, k.extra, k.counter, a);
    CommitAdded(log, more, id, k.commits, a, p.after.index);
  }

  /** A new snapshot, whose entry waits. */
  lemma SoundBarrier(snaps: set<Snap>, log: seq<Action>, id: Agent, first: bool, k: Core, s: Snap, p: Pending,
                     next: nat)
    requires Sound(snaps, log, id, first, k) && s in snaps && s.parent == k.snap && s.index == k.counter
    requires p.before == k.snap && p.after == s && p.parents == Optional(k.last) + k.extra && next == k.counter + 1
    ensures Sound(snaps, log, id, first, k.(snap := Some(s), pending := Some(p), extra := [], counter := next))
  {
    if first {
      OwnBarrier(log, id, k.last, Waiting(k.pending), k.counter, s);
    }
    AnchoredBarrier(snaps, log, k.snap, k.last, k.pending, k.extra, k.counter, s, p.ts);
  }

  lemma SoundRest(snaps: set<Snap>, log: seq<Action>, id: Agent, first: bool, k: Core, s: Snap, c: Action)
    requires Sound(snaps, log, id, first, k)
    ensures c in log ==> Sound(snaps, log, id, first, k.(extra := k.extra + [c]))
    ensures Sound(snaps, log, id, first, k.(pending := None))
    ensures s in snaps && s.index < k.counter && Descending(s) ==> Sound(snaps, log, id, first, k.(snap := Some(s)))
  {
  }

  // ---------------------------------------------------------------- when messages are taken up

  ghost predicate Within(log: seq<Action>, rounds: seq<nat>) {
    forall i :: 0 <= i < |rounds| ==> rounds[i] <= |log|
  }

  /** In round `i` the agent had written what it had told in the rounds before, and nothing else. */
  ghost predicate TimelyAt(log: seq<Action>, id: Agent, p: Phase, b: Bounds, inbox: seq<Message>, rounds: seq<nat>,
                           i: nat)
    requires Within(log, rounds) && i < |rounds|
  {
    Story(log[..rounds[i]], id) == Over(p, b, inbox, log, rounds[..i]).phase.story
  }

  /** No round is taken before the log had reached `from`, nor before what the agent wrote in earlier rounds. */
  ghost predicate Timely(log: seq<Action>, id: Agent, p: Phase, b: Bounds, inbox: seq<Message>, rounds: seq<nat>,
                         from: nat)
    requires Within(log, rounds)
  {
    forall i :: 0 <= i < |rounds| ==> from <= rounds[i] && TimelyAt(log, id, p, b, inbox, rounds, i)
  }

  lemma TimelyMore(log: seq<Action>, more: seq<Action>, id: Agent, p: Phase, b: Bounds, inbox: seq<Message>,
                   rounds: seq<nat>, from: nat)
    requires Within(log, rounds) && log <= more && Timely(log, id, p, b, inbox, rounds, from)
    ensures Within(more, rounds) && Timely(more, id, p, b, inbox, rounds, from)
  {
    forall i | 0 <= i < |rounds|
      ensures TimelyAt(more, id, p, b, inbox, rounds, i)
    {
      assert TimelyAt(log, id, p, b, inbox, rounds, i);
      assert more[..rounds[i]] == log[..rounds[i]];
      OverMore(p, b, inbox, log, more, rounds[..i]);
    }
  }

  lemma TimelyNext(log: seq<Action>, id: Agent, p: Phase, b: Bounds, inbox: seq<Message>, rounds: seq<nat>, from: nat,
                   known: nat)
    requires Within(log, rounds) && Timely(log, id, p, b, inbox, rounds, from) && from <= known <= |log|
    requires Story(log[..known], id) == Over(p, b, inbox, log, rounds).phase.story
    ensures Within(log, rounds + [known]) && Timely(log, id, p, b, inbox, rounds + [known], from)
  {
    var more := rounds + [known];
    forall i | 0 <= i < |more|
      ensures from <= more[i] && TimelyAt(log, id, p, b, inbox, more, i)
    {
      if i < |rounds| {
        assert TimelyAt(log, id, p, b, inbox, rounds, i) && more[..i] == rounds[..i];
      } else {
        assert more[..i] == rounds;
      }
    }
  }
}
