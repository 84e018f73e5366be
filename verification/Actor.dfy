/**
 One actor instance: the host functions a guest may call in any order, the processing of one
 message, and the loop over the inbox.  Clock readings (in microseconds) and guest choices are
 inputs; log and store writes succeed.
 */
module Actor {
  import opened Ledgers
  import opened ActorDisk
  import opened ActorLog
  import opened ActorPhase
  import opened ActorScript
  import opened ActorCore
  import Capabilities
  import opened CauseHandles

  const MAX_EXTRA_CAUSES: nat := 16

  lemma RollBackStep(p: Phase, depth: int, target: nat, now: nat)
    requires target == p.counter - 1 - depth && CanRollBack(p, depth)
    ensures Step(p, Call(RollBack(depth), now))
         == Tell(p.(chain := Back(p.chain, target)), SelfRollback(depth, target))
  {
  }

  lemma RollBackRefused(p: Phase, depth: int, now: nat)
    requires !CanRollBack(p, depth)
    ensures Step(p, Call(RollBack(depth), now)) == p
  {
  }

  /** An entry that leaves the snapshot alone. */
  function Entry(id: Agent, prev: Option<Action>, snap: Option<Snap>, now: nat, payload: Payload): Action {
    Action(id, now / 1000, Optional(prev), snap, snap, payload)
  }

  /** The last entry while an inference is under way. */
  ghost function Wait(id: Agent, last: Option<Action>, snap: Option<Snap>, now: nat, counter: nat,
                      state: Lifecycle): Option<Action>
  {
    if state == Terminated then last else Some(Entry(id, last, snap, now, LifecycleEvent(WaitingInference, counter)))
  }

  /** Request and result are logged, and for a new agent the result does not descend from the request. */
  ghost predicate Inferred(log: seq<Action>, request: Action, result: Action, first: bool) {
    request in log && result in log && (first ==> !Behind(result, request))
  }

  lemma InferredMore(log: seq<Action>, more: seq<Action>, request: Action, result: Action, first: bool)
    requires Inferred(log, request, result, first) && log <= more
    ensures Inferred(more, request, result, first)
  {
  }

  class Instance {
    const disk: Disk
    const id: Agent
    const bounds: Bounds
    /** The log had no entry of this agent when the instance was made. */
    ghost const first: bool
    var counter: nat
    var lastSnapshot: Option<Snap>
    var lastAction: Option<Action>
    var lifecycle: Lifecycle
    var terminationRequested: bool
    var pending: Option<Pending>
    var extraCauses: seq<Action>
    var hostError: bool
    var sessionId: nat
    var sessionStart: nat
    var sessionStartedAt: nat
    /** Set when the loop over the inbox has returned. */
    var stopped: bool
    /** What the agent has told the log. */
    ghost var story: Tale
    /** The barriers that have an entry, and the parents of that entry. */
    ghost var commits: map<nat, seq<Action>>

    ghost function Kernel(): Core
      reads this
    {
      Core(lastSnapshot, lastAction, pending, extraCauses, counter, sessionStart, story, commits)
    }

    ghost predicate Valid()
      reads this, disk
    {
      && disk.Valid()
      && Sound(disk.snaps, disk.log, id, first, Kernel())
      && (lifecycle == Terminated ==> terminationRequested || stopped)
      && (terminationRequested ==> lifecycle == Terminated)
    }

    /** The actor without its disk. */
    ghost function Stage(): Phase
      reads this
    {
      Phase(lifecycle, terminationRequested, sessionStartedAt, counter, Number(pending), commits.Keys, hostError,
            Chain(lastSnapshot), sessionStart, sessionId, stopped, story)
    }

    /** What every operation keeps: the disk only grows, the counter too, and Terminated is final. */
    twostate predicate Forward()
      reads this, disk
    {
      && disk.Extends()
      && old(counter) <= counter
      && old(sessionStart) <= sessionStart
      && (old(lifecycle) == Terminated ==> lifecycle == Terminated)
      && (old(terminationRequested) ==> terminationRequested)
    }

    constructor (disk: Disk, id: Agent, bounds: Bounds)
      requires disk.Valid()
      ensures Valid() && !stopped && this.disk == disk && this.id == id && this.bounds == bounds && sessionStart == 0
      ensures lastSnapshot == None && lastAction == None && pending == None && extraCauses == []
      ensures Stage() == Phase(Spawned, false, 0, 0, None, {}, false, [], 0, 1, false, Silence)
      ensures first <==> forall a :: a in disk.log ==> a.agent != id
    {
      this.disk, this.id, this.bounds := disk, id, bounds;
      first := forall a :: a in disk.log ==> a.agent != id;
      counter, lastSnapshot, lastAction, lifecycle, terminationRequested := 0, None, None, Spawned, false;
      pending, extraCauses, hostError := None, [], false;
      sessionId, sessionStart, sessionStartedAt, stopped := 1, 0, 0, false;
      story, commits := Silence, map[];
      if forall a :: a in disk.log ==> a.agent != id {
        NoBoundaryCounts(disk.log, id);
        NoStory(disk.log, id);
      }
    }

    /** The other agents take their turn: this can happen before any step and any single write. */
    method Meanwhile()
      requires Valid()
      modifies disk
      ensures Valid() && disk.Extends() && Foreign(old(disk.log), disk.log, id)
    {
      ghost var snaps, log := disk.snaps, disk.log;
      disk.Meanwhile(id);
      SoundForeign(snaps, disk.snaps, log, disk.log, id, first, Kernel());
    }

    /** Appends an entry chained to `prev`, after which the agent has written only the entries `later`. */
    method Enter(a: Action, ghost prev: Option<Action>, ghost later: set<Action>)
      requires Valid() && a.agent == id && a.parents == Optional(prev) && a !in later && !a.payload.Boundary?
      requires prev.Some? ==> prev.value in disk.log && prev.value.agent == id
      requires Present(disk.snaps, a.before) && Present(disk.snaps, a.after)
      requires a.after.Some? ==> a.after.value.index < counter
      requires pending.Some? ==> !Commits(a, pending.value.after)
      requires first ==> Since(disk.log, id, prev, later)
      modifies disk, this`lastAction, this`story
      ensures Valid() && disk.Extends() && lastAction == Some(a) && a in disk.log
      ensures story == Say(old(story), Told(a.payload))
      ensures first ==> a !in old(disk.log) && Since(disk.log, id, old(lastAction), {a})
    {
      ghost var before := disk.log;
      Meanwhile();
      ghost var log, k := disk.log, Kernel();
      if first {
        SinceForeign(before, log, id, prev, later);
        NewSince(log, id, prev, later, a);
        SinceAppend(log, id, lastAction, {}, a);
      }
      disk.Append(a);
      SoundEnter(disk.snaps, log, disk.log, id, first, k, a);
      lastAction, story := Some(a), Say(story, Told(a.payload));
    }

    /** An entry after the last action that leaves the snapshot alone. */
    method Record(payload: Payload, now: nat)
      requires Valid() && !payload.Boundary?
      modifies disk, this`lastAction, this`story
      ensures Valid() && Forward() && lastAction.Some? && lastAction.value in disk.log
      ensures lastAction.value == Entry(id, old(lastAction), lastSnapshot, now, payload)
      ensures Stage() == Tell(old(Stage()), Told(payload))
      ensures first ==> Since(disk.log, id, old(lastAction), Written(old(lastAction), lastAction))
    {
      RecordAfter(payload, now, lastAction, {});
    }

    /** The same for an entry whose parent need not be the last action. */
    method RecordAfter(payload: Payload, now: nat, prev: Option<Action>, ghost later: set<Action>)
      requires Valid() && !payload.Boundary? && (prev.Some? ==> prev.value in disk.log && prev.value.agent == id)
      requires (forall x :: x in later ==> x.payload != payload) && (first ==> Since(disk.log, id, prev, later))
      modifies disk, this`lastAction, this`story
      ensures Valid() && Forward() && lastAction.Some? && lastAction.value in disk.log
      ensures lastAction.value == Entry(id, prev, lastSnapshot, now, payload)
      ensures Stage() == Tell(old(Stage()), Told(payload))
      ensures first ==> lastAction.value !in old(disk.log) && Since(disk.log, id, old(lastAction), {lastAction.value})
    {
      Enter(Entry(id, prev, lastSnapshot, now, payload), prev, later);
    }

    /** `log_lifecycle_event`: nothing leads out of Terminated. */
    method LogLifecycle(state: Lifecycle, now: nat)
      requires Valid() && (state == Terminated ==> stopped)
      modifies disk, this`lastAction, this`story, this`lifecycle
      ensures Valid() && Forward() && Stage() == Enters(old(Stage()), state)
      ensures lifecycle == if old(lifecycle) == Terminated then Terminated else state
      ensures first ==> Since(disk.log, id, old(lastAction), Written(old(lastAction), lastAction))
      ensures if old(lifecycle) == Terminated && state != Terminated
              then disk.log == old(disk.log) && lastAction == old(lastAction)
              else lastAction == Some(Entry(id, old(lastAction), lastSnapshot, now, LifecycleEvent(state, counter)))
    {
      if lifecycle == Terminated && state != Terminated {
        return;
      }
      Record(LifecycleEvent(state, counter), now);
      lifecycle := state;
    }

    /** `log_agent_crash`: the loop returns after it. */
    method LogCrash(cause: nat, now: nat)
      requires Valid() && !stopped
      modifies disk, this`lastAction, this`story, this`lifecycle, this`stopped
      ensures Valid() && Forward() && Stage() == Crashed(old(Stage()), cause) && lifecycle == Terminated && stopped
      ensures lastAction == Some(Entry(id, old(lastAction), lastSnapshot, now, Crash(cause)))
    {
      Record(Crash(cause), now);
      stopped := true;
      lifecycle := Terminated;
    }

    method RecordVerdict(verdict: nat, now: nat)
      requires Valid()
      modifies disk, this`lastAction, this`story, this`lifecycle
      ensures Valid() && Forward() && Stage() == Verdicted(old(Stage()), verdict)
      ensures old(lifecycle) == Terminated ==> disk.log == old(disk.log)
      ensures old(lifecycle) != Terminated ==>
                && lastAction.Some? && |lastAction.value.parents| == 1
                && lastAction.value.parents[0].payload == Verdict(verdict)
    {
      if lifecycle == Terminated {
        return;
      }
      Record(Verdict(verdict), now);
      LogLifecycle(Active, now);
    }

    /** The boundary entry carries exactly what the sum of all of them was short of. */
    method CloseSession(now: nat)
      requires Valid()
      modifies disk, this`lastAction, this`story, this`sessionId, this`sessionStart, this`sessionStartedAt
      ensures Valid() && Forward() && sessionStart == counter && sessionId == old(sessionId) + 1
      ensures Stage() == Tell(old(Stage()).(sessionId := sessionId, session := counter, started := 0),
                              Boundary(old(sessionId), counter - old(sessionStart)))
      ensures lastAction == Some(Entry(id, old(lastAction), lastSnapshot, now,
                                       Boundary(old(sessionId), counter - old(sessionStart))))
    {
      Meanwhile();
      LogAndReset(now);
    }

    method LogAndReset(now: nat)
      requires Valid()
      modifies disk, this`lastAction, this`story, this`sessionId, this`sessionStart, this`sessionStartedAt
      ensures Valid() && Forward() && sessionStart == counter && sessionId == old(sessionId) + 1
      ensures sessionStartedAt == 0 && story == Say(old(story), Boundary(old(sessionId), counter - old(sessionStart)))
      ensures lastAction == Some(Entry(id, old(lastAction), lastSnapshot, now,
                                       Boundary(old(sessionId), counter - old(sessionStart))))
    {
      AppendBoundary(Entry(id, lastAction, lastSnapshot, now, Boundary(sessionId, counter - sessionStart)));
      sessionId, sessionStartedAt := sessionId + 1, 0;
    }

    method AppendBoundary(a: Action)
      requires Valid() && a.agent == id && a.parents == Optional(lastAction) && a.before == a.after == lastSnapshot
      requires a.payload.Boundary? && a.payload.count == counter - sessionStart
      modifies disk, this`lastAction, this`story, this`sessionStart
      ensures Valid() && disk.Extends() && lastAction == Some(a) && story == Say(old(story), a.payload)
      ensures sessionStart == counter
    {
      ghost var log, k := disk.log, Kernel();
      disk.Append(a);
      SoundBoundary(disk.snaps, log, disk.log, id, first, k, a);
      lastAction, story, sessionStart := Some(a), Say(story, a.payload), counter;
    }

    /** `log_session_boundary` */
    method LogBoundary(now: nat)
      requires Valid()
      modifies disk, this`lastAction, this`story, this`lifecycle, this`sessionId, this`sessionStart,
               this`sessionStartedAt
      ensures Valid() && Forward() && Stage() == Closed(old(Stage()))
      ensures Boundary(old(sessionId), counter - old(sessionStart)) in Payloads(disk.log)
    {
      CloseSession(now);
      ghost var a := lastAction.value;
      LogLifecycle(Checkpointed, now);
      assert a in disk.log;
    }

    // -------------------------------------------------------------- host functions

    /** Block, then snapshot. */
    method Store(now: nat) returns (s: Snap)
      requires Valid()
      modifies disk
      ensures Valid() && disk.Extends() && Foreign(old(disk.log), disk.log, id) && s in disk.snaps
      ensures s == Snap(Block(id, counter), lastSnapshot, counter, now)
    {
      Meanwhile();
      var b := Block(id, counter);
      disk.PutBlock(b);
      Meanwhile();
      s := Snap(b, lastSnapshot, counter, now);
      disk.PutSnapshot(s);
    }

    /** `commit_barrier`: block, then snapshot, then the pending log entry in memory only. */
    method HostCommitBarrier(now: nat)
      requires Valid()
      modifies disk, this`lastSnapshot, this`counter, this`sessionStartedAt, this`extraCauses, this`pending
      ensures Valid() && Forward() && Foreign(old(disk.log), disk.log, id)
      ensures Stage() == Step(old(Stage()), Call(CommitBarrier, now))
      ensures if terminationRequested
              then disk.Now() == old(disk.Now()) && disk.trace == old(disk.trace) && lastSnapshot == old(lastSnapshot)
                   && pending == old(pending) && extraCauses == old(extraCauses)
              else lastSnapshot == Some(Snap(Block(id, old(counter)), old(lastSnapshot), old(counter), now))
                   && pending == Some(Pending(old(lastSnapshot), lastSnapshot.value,
                                              Optional(lastAction) + old(extraCauses), now / 1000))
                   && extraCauses == []
    {
      if terminationRequested {
        return;
      }
      var s := Store(now);
      Hold(s, now);
    }

    /** The snapshot becomes the last one, and its entry waits in memory. */
    method Hold(s: Snap, now: nat)
      requires Valid() && s in disk.snaps && s.parent == lastSnapshot && s.index == counter
      modifies this`lastSnapshot, this`counter, this`sessionStartedAt, this`extraCauses, this`pending
      ensures Valid() && lastSnapshot == Some(s) && counter == old(counter) + 1 && extraCauses == []
      ensures sessionStartedAt == if old(sessionStartedAt) == 0 then now / 1000 else old(sessionStartedAt)
      ensures pending == Some(Pending(old(lastSnapshot), s, Optional(lastAction) + old(extraCauses), now / 1000))
      ensures Chain(lastSnapshot) == [old(counter)] + Chain(old(lastSnapshot))
    {
      var p := Pending(lastSnapshot, s, Optional(lastAction) + extraCauses, now / 1000);
      ghost var k := Kernel();
      pending, extraCauses, lastSnapshot, counter := Some(p), [], Some(s), counter + 1;
      SoundBarrier(disk.snaps, disk.log, id, first, k, s, p, counter);
      if sessionStartedAt == 0 {
        sessionStartedAt := now / 1000;
      }
    }

    /** `agent_add_cause`: only actions that are in the log, its own or covered by a handle. */
    method HostAddCause(inBounds: bool, action: Action, handle: bool) returns (r: int)
      requires Valid()
      modifies this`extraCauses
      ensures Valid() && Stage() == old(Stage())
      ensures r == (if terminationRequested then -3
                    else if |old(extraCauses)| >= MAX_EXTRA_CAUSES then -2
                    else if !inBounds then -1
                    else if action !in disk.log || !(action.agent == id || handle) then -3
                    else 0)
      ensures extraCauses == if r == 0 then old(extraCauses) + [action] else old(extraCauses)
    {
      if terminationRequested {
        return -3;
      }
      if |extraCauses| >= MAX_EXTRA_CAUSES {
        return -2;
      }
      if !inBounds {
        return -1;
      }
      if action !in disk.log || !(action.agent == id || handle) {
        return -3;
      }
      SoundRest(disk.snaps, disk.log, id, first, Kernel(), Snap(Block(id, 0), None, 0, 0), action);
      extraCauses := extraCauses + [action];
      return 0;
    }

    method HostCheckpoint(now: nat)
      requires Valid()
      modifies disk, this`lastAction, this`story, this`lifecycle
      ensures Valid() && Forward() && Stage() == Step(old(Stage()), Call(Checkpoint, now))
      ensures terminationRequested ==> disk.log == old(disk.log) && lastAction == old(lastAction)
    {
      if !terminationRequested {
        LogLifecycle(Checkpointed, now);
      }
    }

    method HostTerminate(now: nat)
      requires Valid()
      modifies disk, this`lastAction, this`story, this`lifecycle, this`terminationRequested
      ensures Valid() && Forward() && Stage() == Step(old(Stage()), Call(Terminate, now))
      ensures lastAction.Some? && lastAction.value.payload == LifecycleEvent(Terminated, counter)
    {
      Record(LifecycleEvent(Terminated, counter), now);
      terminationRequested := true;
      lifecycle := Terminated;
    }

    method HostRequestValidation(risk: int, now: nat)
      requires Valid() && (stopped ==> terminationRequested)
      modifies disk, this`lastAction, this`story, this`lifecycle
      ensures Valid() && Forward() && Stage() == Step(old(Stage()), Call(RequestValidation(risk), now))
      ensures if !terminationRequested && 0 <= risk <= 2
              then lastAction.Some? && lastAction.value.payload == ValidationRequest(risk)
              else disk.log == old(disk.log) && lastAction == old(lastAction)
    {
      if terminationRequested || risk < 0 || risk > 2 {
        return;
      }
      Record(ValidationRequest(risk), now);
      lifecycle := AwaitingValidation;
    }

    /** The entry of a rollback names both ends; the counter stays. */
    method RollTo(tip: Snap, target: Snap, payload: Payload, now: nat)
      requires Valid() && lastSnapshot == Some(tip) && Ancestor(tip, target) && !payload.Boundary?
      modifies disk, this`lastAction, this`story, this`lastSnapshot
      ensures Valid() && Forward() && lastSnapshot == Some(target)
      ensures lastAction == Some(Action(id, now / 1000, Optional(old(lastAction)), Some(tip), Some(target), payload))
      ensures Stage() == Tell(old(Stage()).(chain := Back(Chain(Some(tip)), target.index)), Told(payload))
    {
      AncestorsStored(disk.blocks, disk.snaps, tip, target);
      AncestorOlder(tip, target);
      ChainBack(tip, target);
      EnterRollback(tip, target, payload, now);
      PointTo(target);
    }

    method EnterRollback(tip: Snap, target: Snap, payload: Payload, now: nat)
      requires Valid() && tip in disk.snaps && target in disk.snaps && target.index < counter && !payload.Boundary?
      requires Ancestor(tip, target) && Descending(tip)
      modifies disk, this`lastAction, this`story
      ensures Valid() && disk.Extends() && story == Say(old(story), Told(payload))
      ensures lastAction == Some(Action(id, now / 1000, Optional(old(lastAction)), Some(tip), Some(target), payload))
    {
      var a := Action(id, now / 1000, Optional(lastAction), Some(tip), Some(target), payload);
      if pending.Some? && Commits(a, pending.value.after) {
        AncestorOlder(tip, target);
      }
      Enter(a, lastAction, {});
    }

    method PointTo(target: Snap)
      requires Valid() && target in disk.snaps && target.index < counter && Descending(target) && lastAction.Some?
      modifies this`lastSnapshot
      ensures Valid() && lastSnapshot == Some(target)
    {
      SoundRest(disk.snaps, disk.log, id, first, Kernel(), target, lastAction.value);
      lastSnapshot := Some(target);
    }

    /** `agent_self_rollback`: succeeds exactly when the chain holds the wanted number. */
    method HostSelfRollback(depth: int, now: nat) returns (r: int)
      requires Valid()
      modifies disk, this`lastAction, this`story, this`lastSnapshot
      ensures Valid() && Forward() && Stage() == Step(old(Stage()), Call(RollBack(depth), now))
      ensures r >= 0 <==> !terminationRequested && 1 <= depth <= MAX_SELF_ROLLBACK_DEPTH && old(lastSnapshot).Some?
                          && counter >= 1 + depth && OnChain(old(lastSnapshot).value, counter - 1 - depth)
      ensures r >= 0 ==> lastSnapshot.Some? && lastSnapshot.value.index == r == counter - 1 - depth
                         && Ancestor(old(lastSnapshot).value, lastSnapshot.value)
                         && lastAction.Some? && lastAction.value.payload == SelfRollback(depth, r)
      ensures r < 0 ==> lastSnapshot == old(lastSnapshot) && disk.log == old(disk.log)
    {
      ghost var p := Stage();
      if terminationRequested || depth < 1 || depth > MAX_SELF_ROLLBACK_DEPTH {
        RollBackRefused(p, depth, now);
        return -1;
      }
      if lastSnapshot.None? {
        RollBackRefused(p, depth, now);
        return -2;
      }
      if counter < 1 + depth {
        RollBackRefused(p, depth, now);
        return -3;
      }
      r := RollBackTo(lastSnapshot.value, depth, counter - 1 - depth, now);
    }

    method RollBackTo(tip: Snap, depth: nat, target: nat, now: nat) returns (r: int)
      requires Valid() && lastSnapshot == Some(tip) && !terminationRequested && 1 <= depth <= MAX_SELF_ROLLBACK_DEPTH
      requires target == counter - 1 - depth
      modifies disk, this`lastAction, this`story, this`lastSnapshot
      ensures Valid() && Forward() && Stage() == Step(old(Stage()), Call(RollBack(depth), now))
      ensures if OnChain(tip, target)
              then r == target && lastSnapshot.Some? && lastSnapshot.value.index == target
                   && Ancestor(tip, lastSnapshot.value)
                   && lastAction.Some? && lastAction.value.payload == SelfRollback(depth, target)
              else r < 0 && lastSnapshot == Some(tip) && disk.log == old(disk.log)
    {
      ghost var p := Stage();
      var path := disk.RollbackPath(tip, target);
      ChainHas(tip, target);
      if path.None? {
        RollBackRefused(p, depth, now);
        return -4;
      }
      var found := path.value[|path.value| - 1];
      assert found in path.value;
      RollBackStep(p, depth, target, now);
      RollTo(tip, found, SelfRollback(depth, target), now);
      return target;
    }

    /** `emit`: the pending commit becomes a log entry. */
    method HostEmit(kind: nat, data: seq<nat>, inBounds: bool)
      requires Valid()
      modifies disk, this`lastAction, this`story, this`pending, this`commits, this`hostError
      ensures Valid() && Forward() && Stage() == Step(old(Stage()), Call(Emit(kind, data, inBounds), 0))
      ensures terminationRequested || old(hostError) ==>
                && disk.log == old(disk.log) && pending == old(pending)
                && lastAction == old(lastAction) && hostError == old(hostError)
      ensures pending == old(pending) || pending.None?
      ensures commits == old(commits) || (old(pending).Some? && commits == Logged(old(commits), old(pending).value))
      ensures !terminationRequested && !old(hostError) ==>
                pending.None? && hostError == (old(pending).None? || !inBounds)
      ensures !terminationRequested && !old(hostError) && !hostError && old(pending).Some? ==>
                var p := old(pending).value;
                lastAction == Some(Action(id, p.ts, p.parents, p.before, Some(p.after), Output(kind, data)))
    {
      if terminationRequested || hostError {
        return;
      }
      if pending.None? {
        hostError := true;
        return;
      }
      if !inBounds {
        Forget();
        hostError := true;
        return;
      }
      LogPending(Output(kind, data));
    }

    /** The barrier is taken out without being logged. */
    method Forget()
      requires Valid() && pending.Some?
      modifies this`pending
      ensures Valid() && pending.None?
    {
      ghost var a := Action(id, 0, [], None, None, Flush);
      SoundRest(disk.snaps, disk.log, id, first, Kernel(), pending.value.after, a);
      pending := None;
    }

    method LogPending(payload: Payload)
      requires Valid() && pending.Some? && (payload.Output? || payload.Flush?)
      modifies disk, this`lastAction, this`story, this`pending, this`commits
      ensures Valid() && Forward() && Stage() == Tell(Committed(old(Stage())), payload)
      ensures var p := old(pending).value;
              && lastAction == Some(Action(id, p.ts, p.parents, p.before, Some(p.after), payload))
              && commits == Logged(old(commits), p) && pending.None?
    {
      Meanwhile();
      LogNow(payload);
    }

    method LogNow(payload: Payload)
      requires Valid() && pending.Some? && (payload.Output? || payload.Flush?)
      modifies disk, this`lastAction, this`story, this`pending, this`commits
      ensures Valid() && disk.Extends() && story == Say(old(story), payload)
      ensures var p := old(pending).value;
              && lastAction == Some(Action(id, p.ts, p.parents, p.before, Some(p.after), payload))
              && commits == Logged(old(commits), p) && pending.None?
              && commits.Keys == old(commits).Keys + {p.after.index}
    {
      var p := pending.value;
      var a := Action(id, p.ts, p.parents, p.before, Some(p.after), payload);
      ghost var log, k := disk.log, Kernel();
      disk.Append(a);
      SoundCommit(disk.snaps, log, disk.log, id, first, k, p, a);
      lastAction, pending := Some(a), None;
      story, commits := Say(story, payload), Logged(commits, p);
    }

    /**
     `agent_infer`: four entries.  The request gets the parent the wait has, so that the result
     does not descend from it; and nothing asks whether the agent has terminated.
     */
    method HostInfer(inBounds: bool, outcome: nat, now: nat, later: nat)
      requires Valid()
      modifies disk, this`lastAction, this`story, this`lifecycle
      ensures Valid() && Forward() && Stage() == Step(old(Stage()), Call(Infer(inBounds, outcome, later), now))
      ensures !inBounds ==> disk.log == old(disk.log) && lastAction == old(lastAction)
      ensures inBounds ==>
                var wait := Wait(id, old(lastAction), lastSnapshot, now, counter, lifecycle);
                var result := Entry(id, wait, lastSnapshot, later, InferResult(outcome));
                && Inferred(disk.log, Entry(id, old(lastAction), lastSnapshot, now, InferRequest), result, first)
                && lastAction == Some(if lifecycle == Terminated then result
                                      else Entry(id, Some(result), lastSnapshot, later,
                                                 LifecycleEvent(Active, counter)))
    {
      if inBounds {
        InferNow(outcome, now, later);
      }
    }

    method InferNow(outcome: nat, now: nat, later: nat)
      requires Valid()
      modifies disk, this`lastAction, this`story, this`lifecycle
      ensures Valid() && Forward()
      ensures Stage() == Enters(Tell(Tell(Enters(old(Stage()), WaitingInference), InferRequest), InferResult(outcome)),
                                Active)
      ensures var wait := Wait(id, old(lastAction), lastSnapshot, now, counter, lifecycle);
              var result := Entry(id, wait, lastSnapshot, later, InferResult(outcome));
              && Inferred(disk.log, Entry(id, old(lastAction), lastSnapshot, now, InferRequest), result, first)
              && lastAction == Some(if lifecycle == Terminated then result
                                    else Entry(id, Some(result), lastSnapshot, later, LifecycleEvent(Active, counter)))
    {
      ghost var request := Entry(id, lastAction, lastSnapshot, now, InferRequest);
      WaitAndInfer(outcome, now, later);
      ghost var log, result := disk.log, lastAction.value;
      LogLifecycle(Active, later);
      InferredMore(log, disk.log, request, result, first);
    }

    method WaitAndInfer(outcome: nat, now: nat, later: nat)
      requires Valid()
      modifies disk, this`lastAction, this`story, this`lifecycle
      ensures Valid() && Forward()
      ensures Stage() == Tell(Tell(Enters(old(Stage()), WaitingInference), InferRequest), InferResult(outcome))
      ensures var wait := Wait(id, old(lastAction), lastSnapshot, now, counter, lifecycle);
              var result := Entry(id, wait, lastSnapshot, later, InferResult(outcome));
              && Inferred(disk.log, Entry(id, old(lastAction), lastSnapshot, now, InferRequest), result, first)
              && lastAction == Some(result)
    {
      var before := lastAction;
      LogLifecycle(WaitingInference, now);
      InferAndAnswer(before, outcome, now, later);
    }

    /** The entries of request and result, once the wait has been logged after `before`. */
    method InferAndAnswer(before: Option<Action>, outcome: nat, now: nat, later: nat)
      requires Valid() && (before.Some? ==> before.value in disk.log && before.value.agent == id)
      requires lastAction == before || (lastAction.Some? && lastAction.value.payload.LifecycleEvent?)
      requires first ==> Since(disk.log, id, before, Written(before, lastAction))
      modifies disk, this`lastAction, this`story
      ensures Valid() && Forward() && Stage() == Tell(Tell(old(Stage()), InferRequest), InferResult(outcome))
      ensures lastAction == Some(Entry(id, old(lastAction), lastSnapshot, later, InferResult(outcome)))
      ensures Inferred(disk.log, Entry(id, before, lastSnapshot, now, InferRequest), lastAction.value, first)
    {
      var wait := lastAction;
      ghost var log := disk.log;
      RecordAfter(InferRequest, now, before, Written(before, wait));
      ghost var request := lastAction.value;
      RecordAfter(InferResult(outcome), later, wait, {request});
      if first {
        NotBehind(log, wait, lastAction.value, request);
      }
    }

    /** One host call; a cause that came in before barrier `n` goes where it should. */
    method Host(call: Call, ghost c: Option<Action>, ghost n: nat)
      requires Valid() && !stopped
      requires c.Some? ==> Carried(extraCauses, pending, commits, counter, c.value, n)
      modifies this, disk
      ensures Valid() && Forward() && Stage() == Step(old(Stage()), call)
      ensures c.Some? ==> Carried(extraCauses, pending, commits, counter, c.value, n)
    {
      if call.what.CommitBarrier? {
        BarrierWith(call.now, c, n);
      } else if call.what.AddCause? {
        var _ := HostAddCause(call.what.inBounds, call.what.action, call.what.handle);
      } else if call.what.Emit? {
        EmitWith(call.what.kind, call.what.data, call.what.inBounds, c, n);
      } else {
        HostOther(call);
      }
    }

    method BarrierWith(now: nat, ghost c: Option<Action>, ghost n: nat)
      requires Valid() && (c.Some? ==> Carried(extraCauses, pending, commits, counter, c.value, n))
      modifies disk, this`lastSnapshot, this`counter, this`sessionStartedAt, this`extraCauses, this`pending
      ensures Valid() && Forward() && Stage() == Step(old(Stage()), Call(CommitBarrier, now))
      ensures c.Some? ==> Carried(extraCauses, pending, commits, counter, c.value, n)
    {
      ghost var extra, waiting, number := extraCauses, pending, counter;
      HostCommitBarrier(now);
      if c.Some? && !terminationRequested {
        CarriedBarrier(extra, waiting, commits, number, c.value, n, pending.value, counter);
      }
    }

    method EmitWith(kind: nat, data: seq<nat>, inBounds: bool, ghost c: Option<Action>, ghost n: nat)
      requires Valid() && (c.Some? ==> Carried(extraCauses, pending, commits, counter, c.value, n))
      modifies disk, this`lastAction, this`story, this`pending, this`commits, this`hostError
      ensures Valid() && Forward() && Stage() == Step(old(Stage()), Call(Emit(kind, data, inBounds), 0))
      ensures c.Some? ==> Carried(extraCauses, pending, commits, counter, c.value, n)
    {
      ghost var waiting, logged := pending, commits;
      HostEmit(kind, data, inBounds);
      if c.Some? {
        CarriedLogged(extraCauses, waiting, logged, counter, c.value, n);
      }
    }

    /** The calls that have to do with neither barriers nor causes. */
    method HostOther(call: Call)
      requires Valid() && !stopped && !call.what.CommitBarrier? && !call.what.AddCause? && !call.what.Emit?
      modifies disk, this`lastAction, this`story, this`lifecycle, this`terminationRequested, this`lastSnapshot
      ensures Valid() && Forward() && Stage() == Step(old(Stage()), call)
    {
      match call.what
      case Checkpoint => HostCheckpoint(call.now);
      case Terminate => HostTerminate(call.now);
      case RollBack(depth) => var _ := HostSelfRollback(depth, call.now);
      case RequestValidation(risk) => HostRequestValidation(risk, call.now);
      case Deny(data) => Record(Denial(data), call.now);
      case Infer(inBounds, outcome, later) => HostInfer(inBounds, outcome, call.now, later);
    }

    // -------------------------------------------------------------- one message

    method RunCalls(calls: seq<Call>, ghost c: Option<Action>, ghost n: nat)
      requires Valid() && !stopped
      requires c.Some? ==> Carried(extraCauses, pending, commits, counter, c.value, n)
      modifies this, disk
      ensures Valid() && Forward() && Stage() == AfterCalls(old(Stage()), calls) && !stopped
      ensures c.Some? ==> Carried(extraCauses, pending, commits, counter, c.value, n)
    {
      ghost var p := Stage();
      for i := 0 to |calls|
        invariant Valid() && Forward() && !stopped && Stage() == AfterCalls(p, calls[..i])
        invariant c.Some? ==> Carried(extraCauses, pending, commits, counter, c.value, n)
      {
        AfterNext(p, calls, i);
        StopsLast(p, calls[..i + 1]);
        Meanwhile();
        Host(calls[i], c, n);
      }
      assert calls[..|calls|] == calls;
    }

    /** A barrier without an emit is logged without payload. */
    method FlushPending()
      requires Valid()
      modifies disk, this`lastAction, this`story, this`pending, this`commits
      ensures Valid() && Forward() && pending.None?
      ensures old(pending).Some? ==> lastAction.Some? && lastAction.value.payload == Flush
      ensures commits == if old(pending).Some? then Logged(old(commits), old(pending).value) else old(commits)
      ensures Stage() == if old(pending).Some? then Tell(Committed(old(Stage())), Flush) else old(Stage())
    {
      if pending.Some? {
        LogPending(Flush);
      }
    }

    /** The bounds on actions and duration; a duration of zero means no bound. */
    method CheckSession(now: nat) returns (boundary: bool)
      requires Valid()
      modifies disk, this`lastAction, this`story, this`lifecycle, this`sessionId, this`sessionStart,
               this`sessionStartedAt
      ensures Valid() && Forward()
      ensures boundary <==>
                || counter - old(sessionStart) >= bounds.maxActions
                || (bounds.maxDuration > 0 && old(sessionStartedAt) > 0
                    && now / 1000 - old(sessionStartedAt) >= bounds.maxDuration)
      ensures boundary == Exceeded(old(Stage()), bounds, now)
      ensures Stage() == if boundary then Closed(old(Stage())) else old(Stage())
      ensures bounds.maxActions > 0 ==> counter - sessionStart < bounds.maxActions
    {
      var elapsed := if sessionStartedAt > 0 && now / 1000 >= sessionStartedAt then now / 1000 - sessionStartedAt
                     else 0;
      boundary := || counter - sessionStart >= bounds.maxActions
                  || (bounds.maxDuration > 0 && elapsed >= bounds.maxDuration);
      if boundary {
        LogBoundary(now);
      }
    }

    /** `process_one`: the guest's calls, the flush of a barrier without emit, the session bounds. */
    method ProcessOne(calls: seq<Call>, exit: Exit, done: nat, ghost c: Option<Action>, ghost n: nat) returns (ok: bool)
      requires Valid() && !stopped
      requires c.Some? ==> Carried(extraCauses, pending, commits, counter, c.value, n)
      modifies this, disk
      ensures Valid() && Forward() && !stopped && Stage() == Processed(old(Stage()), calls, exit, bounds, done)
      ensures ok <==> Succeeds(old(Stage()), calls, exit)
      ensures ok ==> pending.None? && !hostError
      ensures ok && bounds.maxActions > 0 ==> counter - sessionStart < bounds.maxActions
      ensures c.Some? ==> Carried(extraCauses, pending, commits, counter, c.value, n)
    {
      RunCalls(calls, c, n);
      if exit != Returned {
        return false;
      }
      if hostError {
        hostError := false;
        return false;
      }
      SettledBelow(Stage(), bounds, done);
      Settle(done, c, n);
      return true;
    }

    /** The end of a successful `process_one`. */
    method Settle(done: nat, ghost c: Option<Action>, ghost n: nat)
      requires Valid()
      requires c.Some? ==> Carried(extraCauses, pending, commits, counter, c.value, n)
      modifies disk, this`lastAction, this`story, this`pending, this`commits, this`lifecycle, this`sessionId,
               this`sessionStart, this`sessionStartedAt
      ensures Valid() && Forward() && pending.None? && Stage() == Settled(old(Stage()), bounds, done)
      ensures c.Some? ==> Carried(extraCauses, pending, commits, counter, c.value, n)
    {
      FlushPending();
      var _ := CheckSession(done);
    }

    // -------------------------------------------------------------- the inbox

    /** The cause of the message is taken along before the guest runs. */
    method Deliver(calls: seq<Call>, exit: Exit, cause: Option<Action>, now: nat, done: nat) returns (ok: bool)
      requires Valid() && !stopped && (cause.Some? ==> cause.value in disk.log)
      modifies this, disk
      ensures Valid() && Forward() && Stage() == Delivered(old(Stage()), calls, exit, bounds, done)
      ensures (ok <==> !stopped) && (ok <==> Succeeds(Enters(old(Stage()), Active), calls, exit))
      ensures !stopped && bounds.maxActions > 0 ==> counter - sessionStart < bounds.maxActions
      ensures stopped ==> lastAction.Some? && lastAction.value.payload == Crash(CauseOf(exit))
      ensures cause.Some? ==> Carried(extraCauses, pending, commits, counter, cause.value, old(counter))
    {
      ok := Attempt(calls, exit, cause, now, done);
      CrashUnless(ok, exit, done);
    }

    method Attempt(calls: seq<Call>, exit: Exit, cause: Option<Action>, now: nat, done: nat) returns (ok: bool)
      requires Valid() && !stopped && (cause.Some? ==> cause.value in disk.log)
      modifies this, disk
      ensures Valid() && Forward() && !stopped
      ensures Stage() == Processed(Enters(old(Stage()), Active), calls, exit, bounds, done)
      ensures ok <==> Succeeds(Enters(old(Stage()), Active), calls, exit)
      ensures ok && bounds.maxActions > 0 ==> counter - sessionStart < bounds.maxActions
      ensures cause.Some? ==> Carried(extraCauses, pending, commits, counter, cause.value, old(counter))
    {
      TakeUp(cause, now);
      ok := ProcessOne(calls, exit, done, cause, counter);
    }

    method CrashUnless(ok: bool, exit: Exit, now: nat)
      requires Valid() && !stopped
      modifies disk, this`lastAction, this`story, this`lifecycle, this`stopped
      ensures Valid() && Forward() && (ok <==> !stopped)
      ensures Stage() == if ok then old(Stage()) else Crashed(old(Stage()), CauseOf(exit))
      ensures stopped ==> lastAction.Some? && lastAction.value.payload == Crash(CauseOf(exit))
    {
      if !ok {
        LogCrash(CauseOf(exit), now);
      }
    }

    method TakeUp(cause: Option<Action>, now: nat)
      requires Valid() && !stopped && (cause.Some? ==> cause.value in disk.log)
      modifies disk, this`lastAction, this`story, this`lifecycle, this`extraCauses
      ensures Valid() && Forward() && Stage() == Enters(old(Stage()), Active)
      ensures cause.Some? ==> Carried(extraCauses, pending, commits, counter, cause.value, counter)
    {
      LogLifecycle(Active, now);
      if cause.Some? {
        SoundRest(disk.snaps, disk.log, id, first, Kernel(), Snap(Block(id, 0), None, 0, 0), cause.value);
        extraCauses := extraCauses + [cause.value];
      }
    }

    /** A rollback that has found its snapshot: capabilities first, then the entry, then Active. */
    method TakeBack(tip: Snap, found: Snap, distance: nat, now: nat, caps: Capabilities.CapabilityStore,
                    handles: CauseHandleRegistry)
      requires Valid() && lastSnapshot == Some(tip) && Ancestor(tip, found) && caps.Valid()
      modifies disk, this`lastAction, this`story, this`lastSnapshot, this`lifecycle, caps`caps, caps`children, handles
      ensures Valid() && Forward() && caps.Valid() && lastSnapshot == Some(found)
      ensures lifecycle == if old(lifecycle) == Terminated then Terminated else Active
      ensures Stage() == Enters(Tell(old(Stage()).(chain := Back(Chain(Some(tip)), found.index)),
                                     SchedulerRollback(Byte(distance), found.index, 0)), Active)
      ensures handles.stores == AllBefore(old(handles.stores), id, found.ts / 1000)
      ensures Capabilities.Survivors(caps.caps, old(caps.caps), caps.forest,
                                     Capabilities.Victims(old(caps.caps), id, found.ts / 1000))
      ensures SchedulerRollback(Byte(distance), found.index, Byte(|old(caps.caps)| - |caps.caps|)) in Payloads(disk.log)
    {
      var revoked := caps.RevokeOwnedAfter(id, found.ts / 1000);
      handles.RevokeIssued(id, found.ts / 1000);
      RollAndRevive(tip, found, SchedulerRollback(Byte(distance), found.index, Byte(revoked)), now);
    }

    method RollAndRevive(tip: Snap, target: Snap, payload: Payload, now: nat)
      requires Valid() && lastSnapshot == Some(tip) && Ancestor(tip, target) && !payload.Boundary?
      modifies disk, this`lastAction, this`story, this`lastSnapshot, this`lifecycle
      ensures Valid() && Forward() && lastSnapshot == Some(target) && payload in Payloads(disk.log)
      ensures lifecycle == if old(lifecycle) == Terminated then Terminated else Active
      ensures Stage() == Enters(Tell(old(Stage()).(chain := Back(Chain(Some(tip)), target.index)), Told(payload)),
                                Active)
    {
      RollTo(tip, target, payload, now);
      ghost var a := lastAction.value;
      LogLifecycle(Active, now);
      assert a in disk.log && a.payload in Payloads(disk.log);
    }

    /**
     A supervisor's rollback: ignored out of range, fatal when the chain has no such number, else
     it also takes back what the agent was given and what it gave out after the snapshot.
     */
    method HandleRollback(target: nat, now: nat, caps: Capabilities.CapabilityStore, handles: CauseHandleRegistry)
      requires Valid() && !stopped && caps.Valid()
      modifies this, disk, caps`caps, caps`children, handles
      ensures Valid() && Forward() && caps.Valid() && Stage() == RolledBack(old(Stage()), target)
      ensures stopped <==> old(lastSnapshot).Some? && target < counter && !OnChain(old(lastSnapshot).value, target)
      ensures stopped ==> lastAction.Some? && lastAction.value.payload == Crash(STORE_BROKEN)
                          && lastSnapshot == old(lastSnapshot)
      ensures old(lastSnapshot).None? || target >= counter ==> disk.log == old(disk.log)
      ensures stopped || old(lastSnapshot).None? || target >= counter ==>
                caps.caps == old(caps.caps) && handles.stores == old(handles.stores)
      ensures !stopped && old(lastSnapshot).Some? && target < counter ==>
                && lastSnapshot.Some? && lastSnapshot.value.index == target
                && Ancestor(old(lastSnapshot).value, lastSnapshot.value)
                && handles.stores == AllBefore(old(handles.stores), id, lastSnapshot.value.ts / 1000)
                && Capabilities.Survivors(caps.caps, old(caps.caps), caps.forest,
                                          Capabilities.Victims(old(caps.caps), id, lastSnapshot.value.ts / 1000))
                && SchedulerRollback(Byte(Steps(old(lastSnapshot).value, lastSnapshot.value)), target,
                                     Byte(|old(caps.caps)| - |caps.caps|)) in Payloads(disk.log)
                && lifecycle == if old(lifecycle) == Terminated then Terminated else Active
      ensures counter == old(counter) && terminationRequested == old(terminationRequested)
    {
      if lastSnapshot.None? || target >= counter {
        return;
      }
      FollowChain(lastSnapshot.value, target, now, caps, handles);
    }

    method FollowChain(tip: Snap, target: nat, now: nat, caps: Capabilities.CapabilityStore,
                       handles: CauseHandleRegistry)
      requires Valid() && !stopped && caps.Valid() && lastSnapshot == Some(tip) && target < counter
      modifies disk, this`lastAction, this`story, this`lastSnapshot, this`lifecycle, this`stopped
      modifies caps`caps, caps`children, handles
      ensures Valid() && Forward() && caps.Valid() && Stage() == RolledBack(old(Stage()), target)
      ensures stopped <==> !OnChain(tip, target)
      ensures stopped ==> && lastAction.Some? && lastAction.value.payload == Crash(STORE_BROKEN)
                          && lastSnapshot == Some(tip)
                          && caps.caps == old(caps.caps) && handles.stores == old(handles.stores)
      ensures !stopped ==>
                && lastSnapshot.Some? && lastSnapshot.value.index == target && Ancestor(tip, lastSnapshot.value)
                && handles.stores == AllBefore(old(handles.stores), id, lastSnapshot.value.ts / 1000)
                && Capabilities.Survivors(caps.caps, old(caps.caps), caps.forest,
                                          Capabilities.Victims(old(caps.caps), id, lastSnapshot.value.ts / 1000))
                && SchedulerRollback(Byte(Steps(tip, lastSnapshot.value)), target,
                                     Byte(|old(caps.caps)| - |caps.caps|)) in Payloads(disk.log)
                && lifecycle == if old(lifecycle) == Terminated then Terminated else Active
    {
      var path := disk.RollbackPath(tip, target);
      ChainHas(tip, target);
      if path.None? {
        LogCrash(STORE_BROKEN, now);
        return;
      }
      var found := path.value[|path.value| - 1];
      assert found in path.value;
      ChainBack(tip, found);
      RollsBack(Stage(), target, |path.value| - 1);
      TakeBack(tip, found, |path.value| - 1, now, caps, handles);
    }

    /** The inner loop of `run_loop` while a verdict is awaited; `left` is what stays in the inbox. */
    method AwaitVerdict(inbox: seq<Message>) returns (left: seq<Message>)
      requires Valid() && !stopped
      modifies disk, this`lastAction, this`story, this`lifecycle, this`stopped
      ensures Valid() && Forward() && Progress(Stage(), left) == Await(old(Stage()), inbox)
      ensures var k := FirstDecisive(inbox);
              && left == (if k == |inbox| then [] else if inbox[k].Rollback? then inbox[k..] else inbox[k + 1..])
              && (stopped <==> k == |inbox| || inbox[k].Suspend?)
              && (stopped ==> lifecycle == old(lifecycle) && disk.log == old(disk.log) && story == old(story))
              && (!stopped && old(lifecycle) != Terminated ==>
                    && lifecycle == Active
                    && story == Say(Say(old(story), Verdict(if inbox[k].ValidationResponse? then inbox[k].verdict
                                                            else if inbox[k].Timeout? then TIMEOUT else CANCELLED)),
                                    LifecycleEvent(Active, counter)))
    {
      ghost var p := Stage();
      left := inbox;
      ghost var skipped := 0;
      while left != [] && !Decisive(left[0])
        invariant Valid() && Forward() && Stage() == p && disk.log == old(disk.log)
        invariant skipped <= |inbox| && left == inbox[skipped..]
                  && FirstDecisive(inbox) == skipped + FirstDecisive(left)
        decreases |left|
      {
        left := left[1..];
        skipped := skipped + 1;
      }
      if left == [] {
        stopped := true;
        return;
      }
      assert left[0] == inbox[skipped] && left[1..] == inbox[skipped + 1..] && FirstDecisive(inbox) == skipped;
      left := Decide(left);
    }

    /** The message that ends the wait. */
    method Decide(inbox: seq<Message>) returns (left: seq<Message>)
      requires Valid() && !stopped && inbox != [] && Decisive(inbox[0])
      modifies disk, this`lastAction, this`story, this`lifecycle, this`stopped
      ensures Valid() && Forward()
      ensures inbox[0].Suspend? ==> Stage() == old(Stage()).(stopped := true) && disk.log == old(disk.log)
      ensures !inbox[0].Suspend? ==>
                Stage() == Verdicted(old(Stage()), if inbox[0].ValidationResponse? then inbox[0].verdict
                                                   else if inbox[0].Timeout? then TIMEOUT else CANCELLED)
      ensures left == if inbox[0].Rollback? then inbox else inbox[1..]
    {
      left := inbox[1..];
      if inbox[0].ValidationResponse? {
        RecordVerdict(inbox[0].verdict, inbox[0].now);
      } else if inbox[0].Timeout? {
        RecordVerdict(TIMEOUT, inbox[0].now);
      } else if inbox[0].Rollback? {
        // the rollback is kept for the outer loop
        RecordVerdict(CANCELLED, inbox[0].now);
        left := inbox;
      } else {
        stopped := true;
      }
    }

    /** `execute` sends a caused message only if it has read the cause in the log. */
    predicate Refused(m: Message)
      reads disk
    {
      Unknown(m, disk.log)
    }

    /**
     `run_loop` on any messages, with any clock, while any other agents write to the same store
     and log.  The actor ends in the phase the reference `ActorScript.Over` computes from the
     messages and what was in the log when each was taken up, and all messages have been gone
     through unless it has stopped.  At the end, and after every single write on the way, the
     disk is integral; if the agent was new to the log, its entries tell exactly its story, and
     the action counts of its boundary entries sum to the start of the current session.
     */
    method RunLoop(inbox: seq<Message>, started: nat, ended: nat, caps: Capabilities.CapabilityStore,
                   handles: CauseHandleRegistry)
      returns (ghost rounds: seq<nat>)
      requires Valid() && !stopped && caps.Valid()
      modifies this, disk, caps`caps, caps`children, handles
      ensures Valid() && Forward() && stopped && caps.Valid() && Within(disk.log, rounds)
      ensures var r := Over(Enters(old(Stage()), Spawned), bounds, inbox, disk.log, rounds);
              Stage() == Finished(r.phase) && (r.left == [] || r.phase.stopped)
      ensures first ==> Timely(disk.log, id, Enters(old(Stage()), Spawned), bounds, inbox, rounds, |old(disk.log)|)
      ensures forall k :: 0 <= k < |disk.trace| ==> Integral(disk.trace[k])
      ensures first ==> Story(disk.log, id) == Stage().story && Sum(BoundaryCounts(disk.log, id)) == Stage().session
      ensures forall t, g :: t in handles.stores && g in handles.stores[t] ==> handles.stores[t][g].issuer != id
    {
      LogLifecycle(Spawned, started);
      ghost var p, from := Stage(), |old(disk.log)|;
      var left := inbox;
      rounds := [];
      while left != [] && !stopped
        invariant Valid() && Forward() && caps.Valid() && Within(disk.log, rounds) && from <= |disk.log|
        invariant Over(p, bounds, inbox, disk.log, rounds) == Progress(Stage(), left)
        invariant first ==> Timely(disk.log, id, p, bounds, inbox, rounds, from)
        decreases |left|
      {
        left, rounds := NextRound(left, caps, handles, p, inbox, rounds, from);
      }
      Conclude(ended, handles, p, inbox, rounds, from);
    }

    /** A round, with the account of the rounds so far. */
    method NextRound(inbox: seq<Message>, caps: Capabilities.CapabilityStore, handles: CauseHandleRegistry,
                     ghost p: Phase, ghost all: seq<Message>, ghost rounds: seq<nat>, ghost from: nat)
      returns (left: seq<Message>, ghost more: seq<nat>)
      requires Valid() && !stopped && inbox != [] && caps.Valid() && Within(disk.log, rounds) && from <= |disk.log|
      requires Over(p, bounds, all, disk.log, rounds) == Progress(Stage(), inbox)
      requires first ==> Timely(disk.log, id, p, bounds, all, rounds, from)
      modifies this, disk, caps`caps, caps`children, handles
      ensures Valid() && Forward() && caps.Valid() && |left| < |inbox| && Within(disk.log, more)
      ensures Over(p, bounds, all, disk.log, more) == Progress(Stage(), left)
      ensures first ==> Timely(disk.log, id, p, bounds, all, more, from)
    {
      ghost var log, known := disk.log, 0;
      var refused;
      left, refused, known := Round(inbox, caps, handles);
      more := rounds + [known];
      OverMore(p, bounds, all, log, disk.log, rounds);
      OverNext(p, bounds, all, disk.log, rounds, known);
      if first {
        TimelyMore(log, disk.log, id, p, bounds, all, rounds, from);
        TimelyNext(disk.log, id, p, bounds, all, rounds, from, known);
      }
    }

    /** The loop has returned, and with it what the agent has issued goes. */
    method Conclude(ended: nat, handles: CauseHandleRegistry, ghost p: Phase, ghost inbox: seq<Message>,
                    ghost rounds: seq<nat>, ghost from: nat)
      requires Valid() && Within(disk.log, rounds)
      requires first ==> Timely(disk.log, id, p, bounds, inbox, rounds, from)
      modifies disk, this`lastAction, this`story, this`lifecycle, this`stopped, handles
      ensures Valid() && Forward() && Stage() == Finished(old(Stage())) && stopped && Within(disk.log, rounds)
      ensures Over(p, bounds, inbox, disk.log, rounds) == old(Over(p, bounds, inbox, disk.log, rounds))
      ensures first ==> Timely(disk.log, id, p, bounds, inbox, rounds, from)
      ensures forall t, g :: t in handles.stores && g in handles.stores[t] ==> handles.stores[t][g].issuer != id
    {
      ghost var log := disk.log;
      Finish(ended);
      OverMore(p, bounds, inbox, log, disk.log, rounds);
      if first {
        TimelyMore(log, disk.log, id, p, bounds, inbox, rounds, from);
      }
      handles.RevokeIssued(id, -1);
    }

    /** The others go on, then the next message that is let through is handled. */
    method Round(inbox: seq<Message>, caps: Capabilities.CapabilityStore, handles: CauseHandleRegistry)
      returns (left: seq<Message>, refused: bool, ghost known: nat)
      requires Valid() && !stopped && inbox != [] && caps.Valid()
      modifies this, disk, caps`caps, caps`children, handles
      ensures Valid() && Forward() && caps.Valid() && |left| < |inbox| && |old(disk.log)| <= known <= |disk.log|
      ensures first ==> Story(disk.log[..known], id) == old(story)
      ensures Progress(Stage(), left)
           == ActorScript.Round(Progress(old(Stage()), inbox), bounds, disk.log[..known])
      ensures refused == Refused(inbox[0])
      ensures refused ==> left == inbox[1..] && Foreign(old(disk.log), disk.log, id) && Stage() == old(Stage())
    {
      Meanwhile();
      ghost var log := disk.log;
      known := |log|;
      refused := Refused(inbox[0]);
      if refused {
        left := inbox[1..];
      } else {
        var waited;
        left, waited := HandleMessage(inbox, caps, handles);
      }
      assert disk.log[..known] == log;
    }

    method Finish(now: nat)
      requires Valid()
      modifies disk, this`lastAction, this`story, this`lifecycle, this`stopped
      ensures Valid() && Forward() && stopped && Stage() == Finished(old(Stage()))
    {
      if !stopped {
        stopped := true;
        if lifecycle != Suspended && lifecycle != Terminated {
          LogLifecycle(Terminated, now);
        }
      }
    }

    /**
     One round of `run_loop`; an agent that asked to terminate stops after a data message.  A
     verdict is awaited after data messages only, and then exactly as `ActorPhase` says.
     */
    method HandleMessage(inbox: seq<Message>, caps: Capabilities.CapabilityStore, handles: CauseHandleRegistry)
      returns (left: seq<Message>, waited: bool)
      requires Valid() && !stopped && inbox != [] && !Refused(inbox[0]) && caps.Valid()
      modifies this, disk, caps`caps, caps`children, handles
      ensures Valid() && Forward() && caps.Valid() && |left| < |inbox| && (!waited ==> left == inbox[1..])
      ensures Progress(Stage(), left) == Handled(old(Stage()), bounds, inbox)
      ensures waited <==> inbox[0].Data? && Awaited(old(Stage()), inbox[0].calls, inbox[0].exit, bounds, inbox[0].done)
      ensures inbox[0].ValidationResponse? || inbox[0].Timeout? ==>
                disk.log == old(disk.log) && Stage() == old(Stage())
      ensures inbox[0].Suspend? || inbox[0].Evict? ==>
                stopped && lifecycle == if old(lifecycle) == Terminated then Terminated else Suspended
      ensures inbox[0].TakeCheckpoint? ==>
                !stopped && lifecycle == if old(lifecycle) == Terminated then Terminated else Checkpointed
      ensures !inbox[0].Rollback? ==> caps.caps == old(caps.caps) && handles.stores == old(handles.stores)
      ensures inbox[0].Data? && inbox[0].cause.Some? ==>
                Carried(extraCauses, pending, commits, counter, inbox[0].cause.value, old(counter))
    {
      left, waited := inbox[1..], false;
      if inbox[0].Data? {
        left, waited := HandleData(inbox[0].calls, inbox[0].exit, inbox[0].cause, left, inbox[0].now, inbox[0].done);
      } else {
        HandleOther(inbox[0], caps, handles);
        OtherHandled(old(Stage()), bounds, inbox);
      }
    }

    method HandleOther(m: Message, caps: Capabilities.CapabilityStore, handles: CauseHandleRegistry)
      requires Valid() && !stopped && !m.Data? && caps.Valid()
      modifies this, disk, caps`caps, caps`children, handles
      ensures Valid() && Forward() && caps.Valid() && Stage() == AfterOther(old(Stage()), bounds, m)
      ensures m.ValidationResponse? || m.Timeout? ==> disk.log == old(disk.log) && Stage() == old(Stage())
      ensures m.Suspend? || m.Evict? ==>
                stopped && lifecycle == if old(lifecycle) == Terminated then Terminated else Suspended
      ensures m.TakeCheckpoint? ==>
                !stopped && lifecycle == if old(lifecycle) == Terminated then Terminated else Checkpointed
      ensures !m.Rollback? ==> caps.caps == old(caps.caps) && handles.stores == old(handles.stores)
    {
      match m
      case SessionResume(calls, exit, now, done) => var _ := Deliver(calls, exit, None, now, done);
      case Suspend(now) => Leave(now);
      case TakeCheckpoint(now) => LogLifecycle(Checkpointed, now);
      case Evict(now) => Leave(now);
      case Rollback(target, now) => HandleRollback(target, now, caps, handles);
      case _ =>
    }

    /**
     A data message, and the wait for the verdict its guest has asked for.  If the guest made a
     barrier that got its entry, the cause of the message is a parent of the entry of the first;
     if it made none, the cause waits for the next.
     */
    method HandleData(calls: seq<Call>, exit: Exit, cause: Option<Action>, inbox: seq<Message>, now: nat, done: nat)
      returns (left: seq<Message>, waited: bool)
      requires Valid() && !stopped && (cause.Some? ==> cause.value in disk.log)
      modifies this, disk
      ensures Valid() && Forward() && |left| <= |inbox| && (!waited ==> left == inbox)
      ensures Progress(Stage(), left) == AfterData(old(Stage()), calls, exit, bounds, done, inbox)
      ensures waited <==> Awaited(old(Stage()), calls, exit, bounds, done)
      ensures cause.Some? ==> Carried(extraCauses, pending, commits, counter, cause.value, old(counter))
      ensures cause.Some? && counter > old(counter) && old(counter) in Stage().logged ==>
                Caused(disk.log, id, cause.value, old(counter))
    {
      ghost var n := counter;
      left, waited := DeliverAndWait(calls, exit, cause, inbox, now, done);
      if cause.Some? && n in commits {
        CarriedIsCaused(disk.log, id, extraCauses, pending, commits, counter, cause.value, n);
      }
    }

    method DeliverAndWait(calls: seq<Call>, exit: Exit, cause: Option<Action>, inbox: seq<Message>, now: nat,
                          done: nat)
      returns (left: seq<Message>, waited: bool)
      requires Valid() && !stopped && (cause.Some? ==> cause.value in disk.log)
      modifies this, disk
      ensures Valid() && Forward() && |left| <= |inbox| && (!waited ==> left == inbox)
      ensures Progress(Stage(), left) == AfterData(old(Stage()), calls, exit, bounds, done, inbox)
      ensures waited <==> Awaited(old(Stage()), calls, exit, bounds, done)
      ensures cause.Some? ==> Carried(extraCauses, pending, commits, counter, cause.value, old(counter))
    {
      ghost var p := Stage();
      var ok := Deliver(calls, exit, cause, now, done);
      waited := ok && lifecycle == AwaitingValidation;
      DataThenWait(p, calls, exit, bounds, done, inbox, Stage(), waited);
      left := WaitOrGoOn(inbox, waited);
    }

    method WaitOrGoOn(inbox: seq<Message>, waited: bool) returns (left: seq<Message>)
      requires Valid() && (waited ==> !stopped)
      modifies disk, this`lastAction, this`story, this`lifecycle, this`stopped
      ensures Valid() && Forward() && |left| <= |inbox| && (!waited ==> left == inbox)
      ensures Progress(Stage(), left)
           == StoppedIfDead(if waited then Await(old(Stage()), inbox) else Progress(old(Stage()), inbox))
    {
      left := inbox;
      if waited {
        left := AwaitVerdict(inbox);
      }
      if lifecycle == Terminated {
        stopped := true;
      }
    }

    method Leave(now: nat)
      requires Valid() && !stopped
      modifies disk, this`lastAction, this`story, this`lifecycle, this`stopped
      ensures Valid() && Forward() && Stage() == Left(old(Stage()))
      ensures stopped && lifecycle == if old(lifecycle) == Terminated then Terminated else Suspended
    {
      LogLifecycle(Suspended, now);
      stopped := true;
    }
  }

  function Payloads(log: seq<Action>): set<Payload> {
    set a | a in log :: a.payload
  }

  // ---------------------------------------------------------------- the rollback that ends an actor

  lemma ShortChain(s: Snap, root: Snap, target: nat)
    requires s.parent == Some(root) && root.parent == None && s.index != target && root.index != target
    ensures !OnChain(s, target)
  {
    forall a | Ancestor(s, a)
      ensures a.index != target
    {
      assert a == s || Ancestor(root, a);
    }
  }

  /** The first of three snapshots is on the chain of the third. */
  lemma RootOnChain(s: Snap, root: Snap)
    requires s.parent.Some? && s.parent.value.parent == Some(root)
    ensures OnChain(s, root.index)
  {
    assert Ancestor(s.parent.value, root);
    assert Ancestor(s, root);
  }

  /** On a falling chain of three, only the first has its number. */
  lemma OnlyRoot(s: Snap, root: Snap, found: Snap)
    requires Descending(s) && s.parent.Some? && s.parent.value.parent == Some(root) && root.parent == None
    requires Ancestor(s, found) && found.index == root.index
    ensures found == root
  {
    assert found == s || Ancestor(s.parent.value, found);
    assert found == s || found == s.parent.value || Ancestor(root, found);
  }

  method Barrier(a: Instance, now: nat)
    requires a.Valid() && !a.terminationRequested
    modifies a.disk, a`lastSnapshot, a`counter, a`sessionStartedAt, a`extraCauses, a`pending
    ensures a.Valid() && a.counter == old(a.counter) + 1
    ensures a.lastSnapshot == Some(Snap(Block(a.id, old(a.counter)), old(a.lastSnapshot), old(a.counter), now))
  {
    a.HostCommitBarrier(now);
  }

  /** A new agent on an empty disk commits three snapshots; `root` is the first. */
  method ThreeBarriers(outside: seq<seq<Write>>) returns (a: Instance, ghost root: Snap)
    ensures fresh(a) && fresh(a.disk) && a.Valid() && !a.stopped && !a.terminationRequested && a.counter == 3
    ensures a.lastSnapshot.Some? && a.lastSnapshot.value.parent.Some?
    ensures a.lastSnapshot.value.parent.value.parent == Some(root) && root.index == 0 && root.parent == None
  {
    var disk := new Disk(outside);
    a := new Instance(disk, 7, Bounds(100, 0));
    Barrier(a, 1000);
    root := a.lastSnapshot.value;
    Barrier(a, 2000);
    Barrier(a, 3000);
  }

  /** Its supervisor rolls it back to the first snapshot, and it commits one more. */
  method BackToFirst(a: Instance, ghost root: Snap, caps: Capabilities.CapabilityStore, handles: CauseHandleRegistry)
    requires a.Valid() && !a.stopped && !a.terminationRequested && a.counter == 3 && caps.Valid()
    requires a.lastSnapshot.Some? && a.lastSnapshot.value.parent.Some?
    requires a.lastSnapshot.value.parent.value.parent == Some(root) && root.index == 0 && root.parent == None
    modifies a, a.disk, caps`caps, caps`children, handles
    ensures a.Valid() && !a.stopped && !a.terminationRequested && a.counter == 4 && caps.Valid()
    ensures a.lastSnapshot.Some? && a.lastSnapshot.value.index == 3 && a.lastSnapshot.value.parent == Some(root)
  {
    RootOnChain(a.lastSnapshot.value, root);
    ghost var third := a.lastSnapshot.value;
    a.HandleRollback(0, 4000, caps, handles);
    OnlyRoot(third, root, a.lastSnapshot.value);
    Barrier(a, 5000);
  }

  /**
   A supervisor rolls an agent back to its first snapshot and, after one more action, to its
   second: the number is below the counter, the store is intact, and the actor is ended as if
   the store were broken.
   */
  method RollbackToLostNumber(outside: seq<seq<Write>>, caps: Capabilities.CapabilityStore,
                              handles: CauseHandleRegistry)
    returns (a: Instance)
    requires caps.Valid()
    modifies caps`caps, caps`children, handles
    ensures fresh(a) && a.Valid() && a.stopped && 1 < a.counter
    ensures a.lastAction.Some? && a.lastAction.value.payload == Crash(STORE_BROKEN)
    ensures a.lastSnapshot.Some? && Integral(a.disk.Now()) && Descending(a.lastSnapshot.value)
  {
    ghost var root;
    a, root := ThreeBarriers(outside);
    BackToFirst(a, root, caps, handles);
    ShortChain(a.lastSnapshot.value, root, 1);
    a.HandleRollback(1, 6000, caps, handles);
  }

  // ---------------------------------------------------------------- the request nobody waits for

  /**
   A new agent asks for validation while it resumes a session: it is left waiting for the
   verdict, nobody waits with it, and the answer is ignored.
   */
  method ResumedRequestIsLost(outside: seq<seq<Write>>, caps: Capabilities.CapabilityStore,
                              handles: CauseHandleRegistry)
    returns (a: Instance, ghost asked: seq<Action>)
    requires caps.Valid()
    modifies caps`caps, caps`children, handles
    ensures fresh(a) && a.Valid() && !a.stopped && a.lifecycle == AwaitingValidation
    ensures Standing([Call(RequestValidation(0), 1000)], 0) && a.disk.log == asked
  {
    var disk := new Disk(outside);
    a := new Instance(disk, 7, Bounds(100, 0));
    var calls := [Call(RequestValidation(0), 1000)];
    var response := ValidationResponse(0, 3000);
    ResumeAsks(a.Stage(), response);
    var left, waited := a.HandleMessage([SessionResume(calls, Returned, 1000, 2000), response], caps, handles);
    asked := a.disk.log;
    left, waited := a.HandleMessage([response], caps, handles);
  }

  // ---------------------------------------------------------------- the inference after the end

  method DeadAgent(outside: seq<seq<Write>>) returns (a: Instance)
    ensures fresh(a) && fresh(a.disk) && a.Valid() && !a.stopped && a.lifecycle == Terminated && a.lastSnapshot == None
    ensures a.lastAction.Some? && a.lastAction.value.payload == LifecycleEvent(Terminated, 0)
  {
    var disk := new Disk(outside);
    a := new Instance(disk, 7, Bounds(100, 0));
    a.HostTerminate(1000);
  }

  /** A new agent terminates itself and infers: the log gets two more entries of the dead agent. */
  method InferAfterTermination(outside: seq<seq<Write>>) returns (a: Instance, ghost death: Action)
    ensures fresh(a) && a.Valid() && a.lifecycle == Terminated && death.payload == LifecycleEvent(Terminated, 0)
    ensures a.lastAction.Some? && a.lastAction.value.payload == InferResult(0) && a.lastAction.value.parents == [death]
    ensures Entry(a.id, Some(death), None, 2000, InferRequest) in a.disk.log
  {
    a := DeadAgent(outside);
    death := a.lastAction.value;
    a.HostInfer(true, 0, 2000, 3000);
  }
}
