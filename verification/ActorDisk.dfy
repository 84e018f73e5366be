/**
 What an agent leaves on disk: content-addressed blocks and snapshots, and the causal log.
 Identifiers are modelled by the content they are the hash of, so equal ids mean equal content.
 */
module ActorDisk {
  import opened Ledgers

  type Agent = nat

  datatype Block = Block(agent: Agent, index: nat)

  datatype Snap = Snap(block: Block, parent: Option<Snap>, index: nat, ts: nat)

  datatype Lifecycle = Spawned | Active | Suspended | Checkpointed | AwaitingValidation | WaitingInference | Terminated

  datatype Payload =
    | LifecycleEvent(state: Lifecycle, at: nat)
    | Crash(cause: nat)
    | Verdict(verdict: nat)
    | Boundary(session: nat, count: nat)
    | Output(kind: nat, data: seq<nat>)
    | Flush
    | SelfRollback(depth: nat, target: nat)
    | SchedulerRollback(distance: nat, target: nat, revoked: nat)
    | ValidationRequest(risk: nat)
    | Denial(data: seq<nat>)
    | InferRequest
    | InferResult(outcome: nat)

  /** A log entry; no snapshot stands for the zero hash. */
  datatype Action = Action(agent: Agent, ts: nat, parents: seq<Action>, before: Option<Snap>, after: Option<Snap>,
                           payload: Payload)

  /** One write to the store or the log. */
  datatype Write = PutBlock(block: Block) | PutSnapshot(snap: Snap) | Append(action: Action)

  datatype State = State(blocks: set<Block>, snaps: set<Snap>, log: seq<Action>)

  predicate Present(snaps: set<Snap>, s: Option<Snap>) {
    s.Some? ==> s.value in snaps
  }

  /** Every snapshot has its block and its parent, hence all its ancestors. */
  ghost predicate SnapsOk(blocks: set<Block>, snaps: set<Snap>) {
    forall s :: s in snaps ==> s.block in blocks && Present(snaps, s.parent)
  }

  /** Both hashes of every entry are zero or a stored snapshot. */
  ghost predicate HashesOk(snaps: set<Snap>, log: seq<Action>) {
    forall i :: 0 <= i < |log| ==> Present(snaps, log[i].before) && Present(snaps, log[i].after)
  }

  /** Every parent of an entry comes before it: the log is a DAG. */
  ghost predicate ParentsOk(log: seq<Action>) {
    forall i, p :: 0 <= i < |log| && p in log[i].parents ==> p in log[..i]
  }

  /** `more` is `log` with entries of agents other than `id` added. */
  ghost predicate Foreign(log: seq<Action>, more: seq<Action>, id: Agent) {
    log <= more && forall k :: |log| <= k < |more| ==> more[k].agent != id
  }

  ghost predicate Integral(d: State) {
    SnapsOk(d.blocks, d.snaps) && HashesOk(d.snaps, d.log) && ParentsOk(d.log)
  }

  /** `a` is `s` or one of its ancestors. */
  ghost predicate Ancestor(s: Snap, a: Snap) {
    s == a || (s.parent.Some? && Ancestor(s.parent.value, a))
  }

  lemma {:induction false} AncestorsStored(blocks: set<Block>, snaps: set<Snap>, s: Snap, a: Snap)
    requires SnapsOk(blocks, snaps) && s in snaps && Ancestor(s, a)
    ensures a in snaps && a.block in blocks
    decreases s
  {
    if s != a {
      AncestorsStored(blocks, snaps, s.parent.value, a);
    }
  }

  lemma ParentsAppend(log: seq<Action>, a: Action)
    requires ParentsOk(log) && forall p :: p in a.parents ==> p in log
    ensures ParentsOk(log + [a])
  {
    forall i, p | 0 <= i < |log + [a]| && p in (log + [a])[i].parents
      ensures p in (log + [a])[..i]
    {
      assert (log + [a])[..i] == if i < |log| then log[..i] else log;
    }
  }

  /** `a` is `b` or was caused by it, directly or not. */
  ghost predicate Behind(a: Action, b: Action)
    decreases a
  {
    a == b || exists p :: p in a.parents && Behind(p, b)
  }

  lemma {:induction false} BehindLogged(log: seq<Action>, a: Action, b: Action)
    requires ParentsOk(log) && a in log && Behind(a, b)
    ensures b in log
    decreases a
  {
    if a != b {
      var p :| p in a.parents && Behind(p, b);
      var i :| 0 <= i < |log| && log[i] == a;
      assert p in log[..i];
      BehindLogged(log, p, b);
    }
  }

  /** The store and the log all agents share. */
  class Disk {
    var blocks: set<Block>
    var snaps: set<Snap>
    var log: seq<Action>
    /** What the other agents write between two steps of one agent, batch by batch: an input. */
    var outside: seq<seq<Write>>
    /** The state after every single write: what a crash could leave behind. */
    ghost var trace: seq<State>

    ghost function Now(): State
      reads this
    {
      State(blocks, snaps, log)
    }

    ghost predicate Valid()
      reads this
    {
      && Integral(Now())
      && (forall k :: 0 <= k < |trace| ==> Integral(trace[k]))
    }

    /** Only additions: nothing on disk is lost or reordered. */
    twostate predicate Extends()
      reads this
    {
      old(blocks) <= blocks && old(snaps) <= snaps && old(log) <= log && old(trace) <= trace
    }

    constructor (outside: seq<seq<Write>>)
      ensures Valid() && Now() == State({}, {}, []) && trace == [] && this.outside == outside
    {
      blocks, snaps, log, trace := {}, {}, [], [];
      this.outside := outside;
    }

    /** The next batch of writes of the agents other than `id`. */
    method Meanwhile(id: Agent)
      requires Valid()
      modifies this
      ensures Valid() && Extends() && Foreign(old(log), log, id)
    {
      if outside != [] {
        var batch := outside[0];
        outside := outside[1..];
        for i := 0 to |batch|
          invariant Valid() && Extends() && Foreign(old(log), log, id)
        {
          Other(batch[i], id);
        }
      }
    }

    /** Another agent writes what it may: the blocks, snapshots and entries it refers to are there. */
    method Other(w: Write, id: Agent)
      requires Valid()
      modifies this`blocks, this`snaps, this`log, this`trace
      ensures Valid() && Extends() && Foreign(old(log), log, id)
    {
      match w
      case PutBlock(b) => PutBlock(b);
      case PutSnapshot(s) =>
        if s.block in blocks && Present(snaps, s.parent) {
          PutSnapshot(s);
        }
      case Append(a) =>
        var logged := forall p :: p in a.parents ==> p in log;
        if a.agent != id && logged && Present(snaps, a.before) && Present(snaps, a.after) {
          Append(a);
        }
    }

    method PutBlock(b: Block)
      requires Valid()
      modifies this`blocks, this`trace
      ensures Valid() && Extends() && blocks == old(blocks) + {b} && snaps == old(snaps) && log == old(log)
      ensures trace == old(trace) + [Now()]
    {
      blocks := blocks + {b};
      trace := trace + [Now()];
    }

    method PutSnapshot(s: Snap)
      requires Valid() && s.block in blocks && Present(snaps, s.parent)
      modifies this`snaps, this`trace
      ensures Valid() && Extends() && blocks == old(blocks) && snaps == old(snaps) + {s} && log == old(log)
      ensures trace == old(trace) + [Now()]
    {
      snaps := snaps + {s};
      trace := trace + [Now()];
    }

    /** Appending an entry that is there already changes nothing. */
    method Append(a: Action)
      requires Valid() && Present(snaps, a.before) && Present(snaps, a.after) && forall p :: p in a.parents ==> p in log
      modifies this`log, this`trace
      ensures Valid() && Extends() && blocks == old(blocks) && snaps == old(snaps)
      ensures log == if a in old(log) then old(log) else old(log) + [a]
      ensures trace == old(trace) + [Now()] && a in log
    {
      if a !in log {
        ParentsAppend(log, a);
        log := log + [a];
      }
      trace := trace + [Now()];
    }

    /** `rollback_path`: the chain from `tip` back to the snapshot with sequence number `target`. */
    method RollbackPath(tip: Snap, target: nat) returns (r: Option<seq<Snap>>)
      requires Valid() && tip in snaps
      ensures r.Some? ==> r.value != [] && r.value[0] == tip && r.value[|r.value| - 1].index == target
                          && forall s :: s in r.value ==> Ancestor(tip, s)
      ensures r.Some? ==> forall i :: 0 < i < |r.value| ==> r.value[i - 1].parent == Some(r.value[i])
      ensures Descending(tip) ==> (r.Some? <==> OnChain(tip, target))
      ensures Descending(tip) && r.Some? ==> |r.value| - 1 == Steps(tip, r.value[|r.value| - 1])
    {
      var path := [];
      var current := tip;
      while true
        invariant current in snaps && Ancestor(tip, current)
        invariant forall s :: s in path ==> Ancestor(tip, s)
        invariant path == [] ==> current == tip
        invariant path != [] ==> path[0] == tip && path[|path| - 1].parent == Some(current)
        invariant forall i :: 0 < i < |path| ==> path[i - 1].parent == Some(path[i])
        invariant forall a :: Ancestor(tip, a) && a.index == target ==> Ancestor(current, a)
        invariant Descending(tip) ==> Descending(current) && |path| == Steps(tip, current)
        decreases current
      {
        path := path + [current];
        if current.index == target {
          return Some(path);
        }
        if current.index < target {
          if Descending(tip) {
            NoneLarger(current, target);
          }
          return None;
        }
        if current.parent.None? {
          return None;
        }
        AncestorStep(tip, current);
        current := current.parent.value;
      }
    }
  }

  /** Some snapshot on the chain from `s` has the number. */
  ghost predicate OnChain(s: Snap, number: nat) {
    exists a :: Ancestor(s, a) && a.index == number
  }

  /** Sequence numbers fall along the chain. */
  ghost predicate Descending(s: Snap) {
    s.parent.Some? ==> s.parent.value.index < s.index && Descending(s.parent.value)
  }

  lemma {:induction false} NoneLarger(s: Snap, target: nat)
    requires Descending(s) && s.index < target
    ensures forall a :: Ancestor(s, a) ==> a.index < target
    decreases s
  {
    if s.parent.Some? {
      NoneLarger(s.parent.value, target);
    }
  }

  lemma {:induction false} AncestorOlder(s: Snap, a: Snap)
    requires Ancestor(s, a) && Descending(s)
    ensures a.index <= s.index && Descending(a)
    decreases s
  {
    if s != a {
      AncestorOlder(s.parent.value, a);
    }
  }

  /** How far `a` is back from `s`. */
  ghost function Steps(s: Snap, a: Snap): nat
    requires Ancestor(s, a)
  {
    if s == a then 0 else 1 + Steps(s.parent.value, a)
  }

  lemma {:induction false} AncestorStep(s: Snap, a: Snap)
    requires Ancestor(s, a) && a.parent.Some?
    ensures Ancestor(s, a.parent.value)
    ensures Descending(s) ==> Steps(s, a.parent.value) == Steps(s, a) + 1
    decreases s
  {
    if s != a {
      if Descending(s) {
        AncestorOlder(s, a);
      }
      AncestorStep(s.parent.value, a);
    } else {
      assert Ancestor(a.parent.value, a.parent.value);
    }
  }
}
