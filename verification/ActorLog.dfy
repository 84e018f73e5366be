/**
 What one agent has written into the shared log: which entry is its last, which snapshots it has
 committed, and the action counts of its session boundaries.
 */
module ActorLog {
  import opened Ledgers
  import opened ActorDisk
  import opened ActorPhase

  function Sum(s: seq<nat>): nat {
    if s == [] then 0 else Sum(s[..|s| - 1]) + s[|s| - 1]
  }

  function Optional(a: Option<Action>): seq<Action> {
    if a.Some? then [a.value] else []
  }

  // ---------------------------------------------------------------- session boundaries

  function CountOf(a: Action, id: Agent): seq<nat> {
    if a.agent == id && a.payload.Boundary? then [a.payload.count] else []
  }

  /** The action counts in the boundary entries of agent `id`, in log order. */
  function BoundaryCounts(log: seq<Action>, id: Agent): seq<nat> {
    if log == [] then [] else BoundaryCounts(log[..|log| - 1], id) + CountOf(log[|log| - 1], id)
  }

  lemma BoundaryCountsAppend(log: seq<Action>, id: Agent, a: Action)
    ensures BoundaryCounts(log + [a], id) == BoundaryCounts(log, id) + CountOf(a, id)
    ensures Sum(BoundaryCounts(log + [a], id))
         == Sum(BoundaryCounts(log, id)) + if a.agent == id && a.payload.Boundary? then a.payload.count else 0
  {
    assert (log + [a])[..|log|] == log;
    var counts := BoundaryCounts(log, id);
    if CountOf(a, id) == [] {
      assert counts + CountOf(a, id) == counts;
    } else {
      assert (counts + CountOf(a, id))[..|counts|] == counts;
    }
  }

  lemma {:induction false} NoBoundaryCounts(log: seq<Action>, id: Agent)
    requires forall a :: a in log ==> a.agent != id
    ensures BoundaryCounts(log, id) == []
  {
    if log != [] {
      NoBoundaryCounts(log[..|log| - 1], id);
    }
  }

  // ---------------------------------------------------------------- what the agent has told the log

  /** An entry without the number of capabilities a rollback has revoked. */
  function Told(p: Payload): Payload {
    if p.SchedulerRollback? then p.(revoked := 0) else p
  }

  /** What the entries of agent `id` say. */
  function Story(log: seq<Action>, id: Agent): Tale {
    if log == [] then Silence
    else
      var a, before := log[|log| - 1], Story(log[..|log| - 1], id);
      if a.agent == id then Say(before, Told(a.payload)) else before
  }

  lemma StoryAppend(log: seq<Action>, id: Agent, a: Action)
    requires a.agent == id
    ensures Story(log + [a], id) == Say(Story(log, id), Told(a.payload))
  {
    assert (log + [a])[..|log|] == log;
  }

  lemma {:induction false} NoStory(log: seq<Action>, id: Agent)
    requires forall a :: a in log ==> a.agent != id
    ensures Story(log, id) == Silence
  {
    if log != [] {
      NoStory(log[..|log| - 1], id);
    }
  }

  lemma {:induction false} StoryForeign(log: seq<Action>, more: seq<Action>, id: Agent)
    requires Foreign(log, more, id)
    ensures Story(more, id) == Story(log, id)
    decreases |more|
  {
    if |log| < |more| {
      StoryForeign(log, more[..|more| - 1], id);
    } else {
      assert more == log;
    }
  }

  // ---------------------------------------------------------------- the chain of snapshots

  /** The numbers of a snapshot and its ancestors. */
  function Chain(s: Option<Snap>): seq<nat> {
    if s.None? then [] else [s.value.index] + Chain(s.value.parent)
  }

  lemma {:induction false} ChainHas(s: Snap, n: nat)
    ensures OnChain(s, n) <==> n in Chain(Some(s))
    decreases s
  {
    if s.index == n {
      assert Ancestor(s, s);
    } else if s.parent.Some? {
      ChainHas(s.parent.value, n);
      if a :| Ancestor(s.parent.value, a) && a.index == n {
        assert Ancestor(s, a);
      }
      if a :| Ancestor(s, a) && a.index == n {
        assert Ancestor(s.parent.value, a);
      }
    }
  }

  lemma {:induction false} ChainBack(s: Snap, a: Snap)
    requires Descending(s) && Ancestor(s, a)
    ensures Chain(Some(a)) == Back(Chain(Some(s)), a.index)
    ensures |Chain(Some(s))| == |Chain(Some(a))| + Steps(s, a)
    decreases s
  {
    if s != a {
      ChainBack(s.parent.value, a);
      AncestorOlder(s.parent.value, a);
      assert Chain(Some(s))[1..] == Chain(s.parent);
    }
  }

  // ---------------------------------------------------------------- barriers that are logged

  /** The entry of barrier `n`, with the given parents. */
  ghost predicate IsCommit(a: Action, id: Agent, n: nat, parents: seq<Action>) {
    a.agent == id && (a.payload.Output? || a.payload.Flush?) && a.after.Some? && a.after.value.index == n
    && a.parents == parents
  }

  ghost predicate CommitIn(log: seq<Action>, id: Agent, n: nat, parents: seq<Action>) {
    exists a {:trigger IsCommit(a, id, n, parents)} :: a in log && IsCommit(a, id, n, parents)
  }

  /** Every barrier in `commits` has an entry with these parents. */
  ghost predicate CommitsLogged(log: seq<Action>, id: Agent, commits: map<nat, seq<Action>>) {
    forall n :: n in commits ==> CommitIn(log, id, n, commits[n])
  }

  lemma CommitsMore(log: seq<Action>, more: seq<Action>, id: Agent, commits: map<nat, seq<Action>>)
    requires CommitsLogged(log, id, commits) && log <= more
    ensures CommitsLogged(more, id, commits)
  {
    forall n | n in commits
      ensures CommitIn(more, id, n, commits[n])
    {
      assert CommitIn(log, id, n, commits[n]);
      var a :| a in log && IsCommit(a, id, n, commits[n]);
      assert a in more && IsCommit(a, id, n, commits[n]);
    }
  }

  // ---------------------------------------------------------------- the last entry

  /** Entry `j` is one of agent `id` and comes after entry `i`, which is `prev`. */
  ghost predicate Follows(log: seq<Action>, id: Agent, prev: Action, i: nat, j: nat) {
    i < j < |log| && log[i] == prev && log[j].agent == id
  }

  /** Every entry of agent `id` after `prev` is one of `later`; without `prev`, every entry at all. */
  ghost predicate Since(log: seq<Action>, id: Agent, prev: Option<Action>, later: set<Action>) {
    if prev.None? then forall a :: a in log && a.agent == id ==> a in later
    else forall i: nat, j: nat :: Follows(log, id, prev.value, i, j) ==> log[j] in later
  }

  /** No entry of agent `id` comes after `last`; without one there is none at all. */
  ghost predicate LastOf(log: seq<Action>, id: Agent, last: Option<Action>) {
    Since(log, id, last, {}) && (last.Some? ==> last.value.agent == id)
  }

  /** A new entry chained to `prev` cannot be in the log already. */
  lemma NewSince(log: seq<Action>, id: Agent, prev: Option<Action>, later: set<Action>, a: Action)
    requires ParentsOk(log) && Since(log, id, prev, later) && a.agent == id && a.parents == Optional(prev)
             && a !in later
    ensures a !in log
  {
    if j :| 0 <= j < |log| && log[j] == a && prev.Some? {
      assert prev.value in a.parents;
      assert prev.value in log[..j];
      var i :| 0 <= i < j && log[i] == prev.value;
      assert Follows(log, id, prev.value, i, j) <==> log[j] == a;
    }
  }

  lemma SinceAppend(log: seq<Action>, id: Agent, prev: Option<Action>, later: set<Action>, a: Action)
    requires Since(log, id, prev, later) && a !in log && (prev.Some? ==> prev.value in log)
    ensures Since(log + [a], id, prev, later + {a})
  {
    forall i: nat, j: nat | prev.Some? && Follows(log + [a], id, prev.value, i, j)
      ensures (log + [a])[j] in later + {a}
    {
      assert j < |log| ==> Follows(log, id, prev.value, i, j);
    }
  }

  lemma LastAppend(log: seq<Action>, id: Agent, a: Action)
    requires a !in log && a.agent == id
    ensures LastOf(log + [a], id, Some(a))
  {
  }

  // ---------------------------------------------------------------- what other agents write

  lemma SinceForeign(log: seq<Action>, more: seq<Action>, id: Agent, prev: Option<Action>, later: set<Action>)
    requires Foreign(log, more, id) && Since(log, id, prev, later) && (prev.Some? ==> prev.value.agent == id)
    ensures Since(more, id, prev, later)
  {
    forall i: nat, j: nat | prev.Some? && Follows(more, id, prev.value, i, j)
      ensures more[j] in later
    {
      assert Follows(log, id, prev.value, i, j);
    }
    forall a | a in more && a.agent == id
      ensures a in log
    {
      var j :| 0 <= j < |more| && more[j] == a;
      assert j < |log|;
    }
  }

  lemma {:induction false} BoundaryForeign(log: seq<Action>, more: seq<Action>, id: Agent)
    requires Foreign(log, more, id)
    ensures BoundaryCounts(more, id) == BoundaryCounts(log, id)
    decreases |more|
  {
    if |log| < |more| {
      BoundaryForeign(log, more[..|more| - 1], id);
    } else {
      assert more == log;
    }
  }

  lemma OwnForeign(log: seq<Action>, more: seq<Action>, id: Agent, last: Option<Action>, waiting: Option<Snap>,
                   counter: nat)
    requires Foreign(log, more, id) && OwnEntries(log, id, last, waiting, counter)
    ensures OwnEntries(more, id, last, waiting, counter)
  {
    SinceForeign(log, more, id, last, {});
    forall a | a in more && a.agent == id
      ensures a in log
    {
      var j :| 0 <= j < |more| && more[j] == a;
      assert j < |log|;
    }
  }

  // ---------------------------------------------------------------- commits

  /** The entry takes the agent from the parent of snapshot `s` to `s`. */
  predicate Commits(a: Action, s: Snap) {
    a.after == Some(s) && a.before == s.parent
  }

  /**
   For an agent that starts on a log without entries of its own: its last entry, its snapshot
   numbers, and that the barrier waiting to be logged is not logged yet.
   */
  ghost predicate OwnEntries(log: seq<Action>, id: Agent, last: Option<Action>, waiting: Option<Snap>, counter: nat) {
    && LastOf(log, id, last)
    && (forall a :: a in log && a.agent == id && a.after.Some? ==> a.after.value.index < counter)
    && (waiting.Some? ==> forall a :: a in log && a.agent == id ==> !Commits(a, waiting.value))
  }

  lemma OwnAppend(log: seq<Action>, id: Agent, last: Option<Action>, waiting: Option<Snap>, counter: nat, a: Action)
    requires OwnEntries(log, id, last, waiting, counter) && a.agent == id && a !in log
    requires a.after.Some? ==> a.after.value.index < counter
    ensures waiting.Some? && !Commits(a, waiting.value) ==> OwnEntries(log + [a], id, Some(a), waiting, counter)
    ensures OwnEntries(log + [a], id, Some(a), None, counter)
  {
    LastAppend(log, id, a);
  }

  lemma CommitIsNew(log: seq<Action>, id: Agent, last: Option<Action>, s: Snap, counter: nat, a: Action)
    requires OwnEntries(log, id, last, Some(s), counter) && a.agent == id && Commits(a, s)
    ensures a !in log
  {
  }

  /** A snapshot under the next number has not been committed. */
  lemma OwnBarrier(log: seq<Action>, id: Agent, last: Option<Action>, waiting: Option<Snap>, counter: nat, s: Snap)
    requires OwnEntries(log, id, last, waiting, counter) && s.index == counter
    ensures OwnEntries(log, id, last, Some(s), counter + 1)
  {
  }
}
