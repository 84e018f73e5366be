/**
 What a guest's host calls do to its actor: a function of the calls and their clock readings,
 with everything the agent writes into the log, but without disk, hashes and other agents.
 */
module ActorPhase {
  import opened Ledgers
  import opened ActorDisk

  const MAX_SELF_ROLLBACK_DEPTH: int := 3

  /** What a guest can do through the host functions. */
  datatype HostFunction =
    | CommitBarrier
    | AddCause(inBounds: bool, action: Action, handle: bool)
    | Checkpoint
    | Terminate
    | RollBack(depth: int)
    | RequestValidation(risk: int)
    | Emit(kind: nat, data: seq<nat>, inBounds: bool)
    | Deny(data: seq<nat>)
    | Infer(inBounds: bool, outcome: nat, later: nat)

  /** A host call and the clock reading it takes; an inference takes another one when it is answered. */
  datatype Call = Call(what: HostFunction, now: nat)

  /** How the guest's function ends. */
  datatype Exit = Returned | Trapped | Interrupted

  /** How long and how many actions a session may last. */
  datatype Bounds = Bounds(maxActions: nat, maxDuration: nat)

  /** What an agent has told the log, the last entry outermost. */
  datatype Tale = Silence | Say(before: Tale, payload: Payload)

  /**
   An actor without its disk.  `pending` is the number of the barrier that waits for its entry,
   `logged` the numbers of those that have one, `chain` the numbers on the way from the last
   snapshot back to the first, `started` and `session` time and counter at the start of the
   session, and `story` what the agent has told the log, in order.
   */
  datatype Phase = Phase(state: Lifecycle, ending: bool, started: nat, counter: nat, pending: Option<nat>,
                         logged: set<nat>, error: bool, chain: seq<nat>, session: nat, sessionId: nat, stopped: bool,
                         story: Tale)

  function Tell(p: Phase, payload: Payload): Phase {
    p.(story := Say(p.story, payload))
  }

  /** `log_lifecycle_event`: nothing leads out of Terminated. */
  function Enters(p: Phase, state: Lifecycle): Phase {
    if p.state == Terminated && state != Terminated then p
    else Tell(p.(state := state), LifecycleEvent(state, p.counter))
  }

  /** The chain from the snapshot with the given number on. */
  function Back(chain: seq<nat>, target: nat): seq<nat> {
    if chain == [] || chain[0] == target then chain else Back(chain[1..], target)
  }

  /** A self-rollback counts back from the last number given out. */
  predicate CanRollBack(p: Phase, depth: int) {
    && !p.ending && 1 <= depth <= MAX_SELF_ROLLBACK_DEPTH && p.chain != []
    && p.counter >= 1 + depth && p.counter - 1 - depth in p.chain
  }

  function Step(p: Phase, c: Call): Phase {
    match c.what
    case CommitBarrier =>
      if p.ending then p
      else p.(started := if p.started == 0 then c.now / 1000 else p.started, counter := p.counter + 1,
              pending := Some(p.counter), chain := [p.counter] + p.chain)
    case AddCause(_, _, _) => p
    case Checkpoint => if p.ending then p else Enters(p, Checkpointed)
    case Terminate => Enters(p.(ending := true), Terminated)
    case RollBack(depth) =>
      if !CanRollBack(p, depth) then p
      else
        var target := p.counter - 1 - depth;
        Tell(p.(chain := Back(p.chain, target)), SelfRollback(depth, target))
    case RequestValidation(risk) =>
      if p.ending || risk < 0 || risk > 2 then p
      else Tell(p.(state := AwaitingValidation), ValidationRequest(risk))
    case Emit(kind, data, inBounds) =>
      if p.ending || p.error then p
      else if p.pending.None? then p.(error := true)
      else if !inBounds then p.(pending := None, error := true)
      else Tell(Committed(p), Output(kind, data))
    case Deny(data) => Tell(p, Denial(data))
    case Infer(inBounds, outcome, _) =>
      if !inBounds then p
      else Enters(Tell(Tell(Enters(p, WaitingInference), InferRequest), InferResult(outcome)), Active)
  }

  /** The waiting barrier gets its entry. */
  function Committed(p: Phase): Phase
    requires p.pending.Some?
  {
    p.(pending := None, logged := p.logged + {p.pending.value})
  }

  function AfterCalls(p: Phase, calls: seq<Call>): Phase {
    if calls == [] then p else Step(AfterCalls(p, calls[..|calls| - 1]), calls[|calls| - 1])
  }

  lemma AfterNext(p: Phase, calls: seq<Call>, i: nat)
    requires i < |calls|
    ensures AfterCalls(p, calls[..i + 1]) == Step(AfterCalls(p, calls[..i]), calls[i])
  {
    assert calls[..i + 1][..i] == calls[..i];
  }

  /** The session has reached its bound on actions, or its bound on duration if there is one. */
  function Exceeded(p: Phase, b: Bounds, now: nat): bool {
    var elapsed := if p.started > 0 && now / 1000 >= p.started then now / 1000 - p.started else 0;
    p.counter - p.session >= b.maxActions || (b.maxDuration > 0 && elapsed >= b.maxDuration)
  }

  /** `log_session_boundary` */
  function Closed(p: Phase): Phase {
    var count: nat := if p.counter >= p.session then p.counter - p.session else 0;
    Enters(Tell(p.(sessionId := p.sessionId + 1, session := p.counter, started := 0), Boundary(p.sessionId, count)),
           Checkpointed)
  }

  /** The end of a successful `process_one`: a barrier without an emit is logged without payload. */
  function Settled(p: Phase, b: Bounds, done: nat): Phase {
    var q := if p.pending.Some? then Tell(Committed(p), Flush) else p;
    if Exceeded(q, b, done) then Closed(q) else q
  }

  lemma SettledBelow(p: Phase, b: Bounds, done: nat)
    ensures b.maxActions > 0 ==> Settled(p, b, done).counter - Settled(p, b, done).session < b.maxActions
  {
  }

  /** `process_one` succeeds: the guest returns and no host function has failed. */
  predicate Succeeds(p: Phase, calls: seq<Call>, exit: Exit) {
    exit.Returned? && !AfterCalls(p, calls).error
  }

  /** `process_one` */
  function Processed(p: Phase, calls: seq<Call>, exit: Exit, b: Bounds, done: nat): Phase {
    var q := AfterCalls(p, calls);
    if !exit.Returned? then q else if q.error then q.(error := false) else Settled(q, b, done)
  }

  // ---------------------------------------------------------------- when a request is still standing

  predicate IsRequest(c: Call) {
    c.what.RequestValidation? && 0 <= c.what.risk <= 2
  }

  /** The state a call leaves behind, if it is one that changes it. */
  function Sets(c: Call): Option<Lifecycle> {
    if c.what.Checkpoint? then Some(Checkpointed)
    else if c.what.Infer? && c.what.inBounds then Some(Active)
    else if IsRequest(c) then Some(AwaitingValidation)
    else None
  }

  lemma StepEnds(p: Phase, c: Call)
    ensures Step(p, c).ending <==> p.ending || c.what.Terminate?
    ensures (p.state == Terminated ==> p.ending) ==> (Step(p, c).state == Terminated ==> Step(p, c).ending)
    ensures (p.ending ==> p.state == Terminated) ==> (Step(p, c).ending ==> Step(p, c).state == Terminated)
  {
  }

  lemma StepCounts(p: Phase, c: Call)
    ensures Step(p, c).counter == p.counter + if c.what.CommitBarrier? && !p.ending then 1 else 0
  {
  }

  lemma {:induction false} EndingAfter(p: Phase, calls: seq<Call>)
    ensures AfterCalls(p, calls).ending <==> p.ending || exists j :: 0 <= j < |calls| && calls[j].what.Terminate?
    ensures (p.state == Terminated ==> p.ending) ==>
              (AfterCalls(p, calls).state == Terminated ==> AfterCalls(p, calls).ending)
    ensures (p.ending ==> p.state == Terminated) ==>
              (AfterCalls(p, calls).ending ==> AfterCalls(p, calls).state == Terminated)
  {
    if calls != [] {
      var front := calls[..|calls| - 1];
      EndingAfter(p, front);
      StepEnds(AfterCalls(p, front), calls[|calls| - 1]);
      if j :| 0 <= j < |calls| && calls[j].what.Terminate? {
        assert j < |front| ==> front[j].what.Terminate?;
      }
    }
  }

  /** Call `i` is the last one that sets the state. */
  ghost predicate LastSets(calls: seq<Call>, i: nat) {
    i < |calls| && Sets(calls[i]).Some? && forall j :: i < j < |calls| ==> Sets(calls[j]).None?
  }

  ghost predicate NoneSets(calls: seq<Call>) {
    forall j :: 0 <= j < |calls| ==> Sets(calls[j]).None?
  }

  /** Short of termination, the last call that sets the state decides it. */
  lemma {:induction false} StateDecided(p: Phase, calls: seq<Call>)
    requires !p.ending && p.state != Terminated && forall j :: 0 <= j < |calls| ==> !calls[j].what.Terminate?
    ensures NoneSets(calls) ==> AfterCalls(p, calls).state == p.state
    ensures forall i: nat :: LastSets(calls, i) ==> Some(AfterCalls(p, calls).state) == Sets(calls[i])
    ensures AfterCalls(p, calls).state != Terminated && !AfterCalls(p, calls).ending
  {
    if calls != [] {
      var n := |calls| - 1;
      var front, c := calls[..n], calls[n];
      StateDecided(p, front);
      StepState(AfterCalls(p, front), c);
      FrontSets(calls, n, front);
    }
  }

  lemma FrontSets(calls: seq<Call>, n: nat, front: seq<Call>)
    requires |calls| == n + 1 && front == calls[..n]
    ensures NoneSets(calls) <==> NoneSets(front) && Sets(calls[n]).None?
    ensures forall i: nat :: LastSets(calls, i) <==>
              if i == n then Sets(calls[n]).Some? else LastSets(front, i) && Sets(calls[n]).None?
  {
  }

  lemma StepState(p: Phase, c: Call)
    requires !p.ending && p.state != Terminated && !c.what.Terminate?
    ensures Step(p, c).state == (if Sets(c).Some? then Sets(c).value else p.state) && !Step(p, c).ending
  {
  }

  /** A request with no termination anywhere, and no checkpoint or inference after it. */
  ghost predicate Standing(calls: seq<Call>, i: nat) {
    && i < |calls| && IsRequest(calls[i])
    && (forall j :: 0 <= j < |calls| ==> !calls[j].what.Terminate?)
    && (forall j :: i < j < |calls| ==> !calls[j].what.Checkpoint? && !(calls[j].what.Infer? && calls[j].what.inBounds))
  }

  /** Exactly when the guest leaves its request standing. */
  lemma RequestStands(p: Phase, calls: seq<Call>)
    requires p.state != AwaitingValidation && (p.state == Terminated <==> p.ending)
    ensures AfterCalls(p, calls).state == AwaitingValidation <==> !p.ending && exists i :: Standing(calls, i)
  {
    EndingAfter(p, calls);
    if !AfterCalls(p, calls).ending {
      StateDecided(p, calls);
      if i: nat :| Standing(calls, i) {
        var k := LastSetting(calls, i);
        assert IsRequest(calls[k]);
      }
      if AfterCalls(p, calls).state == AwaitingValidation {
        assert !NoneSets(calls);
        var i :| 0 <= i < |calls| && Sets(calls[i]).Some?;
        var k := LastSetting(calls, i);
        assert Standing(calls, k);
      }
    }
  }

  lemma LastSetting(calls: seq<Call>, i: nat) returns (k: nat)
    requires i < |calls| && Sets(calls[i]).Some?
    ensures i <= k && LastSets(calls, k)
  {
    k := i;
    var j := i + 1;
    while j < |calls|
      invariant i <= k < j <= |calls| && Sets(calls[k]).Some? && forall m :: k < m < j ==> Sets(calls[m]).None?
    {
      if Sets(calls[j]).Some? {
        k := j;
      }
      j := j + 1;
    }
  }

  /** A data message in phase `p` is followed by the wait for a verdict. */
  predicate Awaited(p: Phase, calls: seq<Call>, exit: Exit, b: Bounds, done: nat) {
    && Succeeds(Enters(p, Active), calls, exit)
    && Processed(Enters(p, Active), calls, exit, b, done).state == AwaitingValidation
  }

  /**
   After a data message the verdict is awaited exactly when the actor is not ending, the message
   does not fail, the guest leaves its request standing, and no session boundary falls on it.
   */
  lemma VerdictAwaited(p: Phase, calls: seq<Call>, exit: Exit, b: Bounds, done: nat)
    requires p.state == Terminated <==> p.ending
    ensures Awaited(p, calls, exit, b, done)
            <==> && !p.ending && Succeeds(Enters(p, Active), calls, exit) && (exists i :: Standing(calls, i))
                 && !Exceeded(AfterCalls(Enters(p, Active), calls), b, done)
  {
    RequestStands(Enters(p, Active), calls);
  }

  /** A request can be lost to the guest's own checkpoint or inference, and to the end of its session. */
  lemma RequestsAreLost(now: nat)
    ensures var p := Phase(Active, false, 0, 0, None, {}, false, [], 0, 1, false, Silence);
            var request, barrier := Call(RequestValidation(0), now), Call(CommitBarrier, now);
            && Processed(p, [request, Call(Checkpoint, now)], Returned, Bounds(10, 0), now).state == Checkpointed
            && Processed(p, [request, Call(Infer(true, 0, now), now)], Returned, Bounds(10, 0), now).state == Active
            && Processed(p, [barrier, request], Returned, Bounds(1, 0), now).state == Checkpointed
  {
    var p := Phase(Active, false, 0, 0, None, {}, false, [], 0, 1, false, Silence);
    LostToState(p, Call(Checkpoint, now), now);
    LostToState(p, Call(Infer(true, 0, now), now), now);
    LostToBoundary(p, now);
  }

  lemma LostToState(p: Phase, c: Call, now: nat)
    requires p.state == Active && !p.ending && !p.error && p.pending.None? && p.session == p.counter
    requires c.what.Checkpoint? || (c.what.Infer? && c.what.inBounds)
    ensures Some(Processed(p, [Call(RequestValidation(0), now), c], Returned, Bounds(10, 0), now).state) == Sets(c)
  {
    var request := Call(RequestValidation(0), now);
    TwoCalls(p, request, c);
    var asked := Step(p, request);
    assert asked == p.(state := AwaitingValidation, story := Say(p.story, ValidationRequest(0)));
    StepState(asked, c);
  }

  lemma LostToBoundary(p: Phase, now: nat)
    requires p.state == Active && !p.ending && !p.error && p.pending.None? && p.session == p.counter
    ensures Processed(p, [Call(CommitBarrier, now), Call(RequestValidation(0), now)], Returned, Bounds(1, 0), now).state
         == Checkpointed
  {
    var request, barrier := Call(RequestValidation(0), now), Call(CommitBarrier, now);
    TwoCalls(p, barrier, request);
    assert Step(p, barrier).counter == p.counter + 1;
  }

  lemma TwoCalls(p: Phase, a: Call, b: Call)
    ensures AfterCalls(p, [a, b]) == Step(Step(p, a), b)
  {
    assert [a, b][..1] == [a];
    assert AfterCalls(p, [a]) == Step(p, a);
  }

  // ---------------------------------------------------------------- barriers and emits

  /** Barriers made before the guest terminates. */
  function Barriers(calls: seq<Call>): nat {
    if calls == [] then 0
    else
      var n := |calls| - 1;
      Barriers(calls[..n]) + (if calls[n].what.CommitBarrier? && !Ends(calls[..n]) then 1 else 0)
  }

  predicate Ends(calls: seq<Call>) {
    exists c :: c in calls && c.what.Terminate?
  }

  /** The counter counts the barriers, the chain starts with the last one. */
  lemma {:induction false} CounterCounts(p: Phase, calls: seq<Call>)
    ensures AfterCalls(p, calls).counter == p.counter + if p.ending then 0 else Barriers(calls)
  {
    if calls != [] {
      var n := |calls| - 1;
      CounterCounts(p, calls[..n]);
      EndingAfter(p, calls[..n]);
      StepCounts(AfterCalls(p, calls[..n]), calls[n]);
      assert Ends(calls[..n]) <==> exists j :: 0 <= j < n && calls[..n][j].what.Terminate?;
    }
  }

  /** The entry of a barrier, with or without an emit. */
  predicate OfBarrier(a: Payload) {
    a.Output? || a.Flush?
  }

  /** The entries of barriers, in order. */
  function Outputs(story: Tale): seq<Payload> {
    match story
    case Silence => []
    case Say(before, payload) => if OfBarrier(payload) then Outputs(before) + [payload] else Outputs(before)
  }

  function Emits(calls: seq<Call>): seq<Payload> {
    if calls == [] then []
    else
      var c := calls[|calls| - 1].what;
      Emits(calls[..|calls| - 1]) + if c.Emit? then [Output(c.kind, c.data)] else []
  }

  /** A barrier at `i` that no emit up to `j` has used. */
  ghost predicate Backs(calls: seq<Call>, i: nat, j: nat) {
    i < j <= |calls| && calls[i].what.CommitBarrier? && forall k :: i < k < j ==> !calls[k].what.Emit?
  }

  ghost predicate Backed(calls: seq<Call>, j: nat) {
    exists i :: Backs(calls, i, j)
  }

  /** Every emit is in bounds and has a barrier of its own before it, and the guest goes on to the end. */
  ghost predicate Orderly(calls: seq<Call>) {
    && !Ends(calls)
    && forall j :: 0 <= j < |calls| && calls[j].what.Emit? ==> calls[j].what.inBounds && Backed(calls, j)
  }

  lemma BackedFront(calls: seq<Call>, j: nat)
    requires j < |calls|
    ensures Backed(calls[..|calls| - 1], j) <==> Backed(calls, j)
  {
    var front := calls[..|calls| - 1];
    forall i: nat
      ensures Backs(front, i, j) <==> Backs(calls, i, j)
    {
    }
  }

  lemma BackedLast(calls: seq<Call>)
    requires calls != []
    ensures var n := |calls| - 1;
            Backed(calls, |calls|) <==> calls[n].what.CommitBarrier? || (!calls[n].what.Emit? && Backed(calls, n))
  {
    var n := |calls| - 1;
    if calls[n].what.CommitBarrier? {
      assert Backs(calls, n, |calls|);
    }
    forall i: nat | i < n
      ensures Backs(calls, i, |calls|) <==> !calls[n].what.Emit? && Backs(calls, i, n)
    {
    }
  }

  /** Of an orderly guest every emit is in the log, in order, and a barrier is left exactly if it was not used. */
  lemma {:induction false} EmitsAreLogged(p: Phase, calls: seq<Call>)
    requires Orderly(calls) && !p.ending && !p.error && p.pending.None?
    ensures var q := AfterCalls(p, calls);
            && Outputs(q.story) == Outputs(p.story) + Emits(calls)
            && !q.error && !q.ending && (q.pending.Some? <==> Backed(calls, |calls|))
  {
    if calls == [] {
      assert Outputs(p.story) + [] == Outputs(p.story);
    } else {
      var n := |calls| - 1;
      var front := calls[..n];
      OrderlyFront(calls);
      EmitsAreLogged(p, front);
      BackedLast(calls);
      BackedFront(calls, n);
      EmitStep(AfterCalls(p, front), calls[n]);
      assert calls[n] in calls;
    }
  }

  lemma OrderlyFront(calls: seq<Call>)
    requires calls != [] && Orderly(calls)
    ensures Orderly(calls[..|calls| - 1])
  {
    var front := calls[..|calls| - 1];
    forall j | 0 <= j < |front| && front[j].what.Emit?
      ensures front[j].what.inBounds && Backed(front, j)
    {
      BackedFront(calls, j);
    }
    assert forall c :: c in front ==> c in calls;
  }

  lemma TellOutputs(p: Phase, a: Payload)
    ensures Outputs(Tell(p, a).story) == if OfBarrier(a) then Outputs(p.story) + [a] else Outputs(p.story)
  {
  }

  lemma EnterOutputs(p: Phase, state: Lifecycle)
    ensures Outputs(Enters(p, state).story) == Outputs(p.story)
  {
  }

  lemma InferOutputs(p: Phase, outcome: nat)
    ensures var q := Enters(Tell(Tell(Enters(p, WaitingInference), InferRequest), InferResult(outcome)), Active);
            Outputs(q.story) == Outputs(p.story)
  {
    var a := Enters(p, WaitingInference);
    var b := Tell(a, InferRequest);
    var c := Tell(b, InferResult(outcome));
    EnterOutputs(p, WaitingInference);
    TellOutputs(a, InferRequest);
    TellOutputs(b, InferResult(outcome));
    EnterOutputs(c, Active);
  }

  lemma LifecycleOutputs(p: Phase, c: Call)
    requires c.what.Checkpoint? || c.what.Terminate? || c.what.Infer?
    ensures Outputs(Step(p, c).story) == Outputs(p.story)
  {
    if c.what.Checkpoint? {
      EnterOutputs(p, Checkpointed);
    } else if c.what.Terminate? {
      EnterOutputs(p.(ending := true), Terminated);
    } else {
      InferOutputs(p, c.what.outcome);
    }
  }

  lemma TellingOutputs(p: Phase, c: Call)
    requires c.what.RollBack? || c.what.RequestValidation? || c.what.Deny?
    ensures Outputs(Step(p, c).story) == Outputs(p.story)
  {
    if c.what.RollBack? {
      var target := p.counter - 1 - c.what.depth;
      if CanRollBack(p, c.what.depth) {
        TellOutputs(p.(chain := Back(p.chain, target)), SelfRollback(c.what.depth, target));
      }
    } else if c.what.Deny? {
      TellOutputs(p, Denial(c.what.data));
    } else if !p.ending && 0 <= c.what.risk <= 2 {
      TellOutputs(p.(state := AwaitingValidation), ValidationRequest(c.what.risk));
    }
  }

  /** Only an emit that finds its barrier tells an output. */
  lemma StepOutputs(p: Phase, c: Call)
    requires !c.what.Emit? || p.ending || p.error || p.pending.None? || !c.what.inBounds
    ensures Outputs(Step(p, c).story) == Outputs(p.story)
  {
    if c.what.Checkpoint? || c.what.Terminate? || c.what.Infer? {
      LifecycleOutputs(p, c);
    } else if c.what.RollBack? || c.what.RequestValidation? || c.what.Deny? {
      TellingOutputs(p, c);
    }
  }

  lemma EmitStep(p: Phase, c: Call)
    requires !p.ending && !p.error && !c.what.Terminate? && (c.what.Emit? ==> p.pending.Some? && c.what.inBounds)
    ensures var q := Step(p, c);
            && Outputs(q.story)
            == (if c.what.Emit? then Outputs(p.story) + [Output(c.what.kind, c.what.data)] else Outputs(p.story))
            && !q.error && !q.ending
            && (q.pending.Some? <==> c.what.CommitBarrier? || (!c.what.Emit? && p.pending.Some?))
  {
    if c.what.Emit? {
      TellOutputs(Committed(p), Output(c.what.kind, c.what.data));
    } else {
      StepOutputs(p, c);
    }
  }

  // ---------------------------------------------------------------- when the guest's message succeeds

  lemma StepError(p: Phase, c: Call)
    ensures Step(p, c).error <==>
              p.error || (c.what.Emit? && !p.ending && (p.pending.None? || !c.what.inBounds))
  {
  }

  lemma OrderlyNext(calls: seq<Call>, n: nat, front: seq<Call>)
    requires |calls| == n + 1 && front == calls[..n] && !Ends(calls)
    ensures !Ends(front)
    ensures Orderly(calls) <==> Orderly(front) && (calls[n].what.Emit? ==> calls[n].what.inBounds && Backed(front, n))
  {
    assert forall c :: c in front ==> c in calls;
    forall j | 0 <= j < |calls|
      ensures Backed(front, j) <==> Backed(calls, j)
    {
      BackedFront(calls, j);
    }
    assert forall j :: 0 <= j < n ==> front[j] == calls[j];
  }

  /** A guest that goes on to the end fails exactly by an emit out of bounds or without a barrier of its own. */
  lemma {:induction false} FailsByEmit(p: Phase, calls: seq<Call>)
    requires !Ends(calls) && !p.ending && !p.error && p.pending.None?
    ensures AfterCalls(p, calls).error <==> !Orderly(calls)
  {
    if calls != [] {
      var n := |calls| - 1;
      var front := calls[..n];
      OrderlyNext(calls, n, front);
      FailsByEmit(p, front);
      StepError(AfterCalls(p, front), calls[n]);
      if Orderly(front) {
        EmitsAreLogged(p, front);
      }
    }
  }

  /** After the guest has terminated nothing can fail. */
  lemma {:induction false} EndedQuiet(p: Phase, calls: seq<Call>, n: nat)
    requires n < |calls| && calls[n].what.Terminate?
    ensures AfterCalls(p, calls).error == AfterCalls(p, calls[..n]).error
    decreases |calls|
  {
    var last := |calls| - 1;
    var front := calls[..last];
    StepError(AfterCalls(p, front), calls[last]);
    if n < last {
      EndedQuiet(p, front, n);
      assert front[..n] == calls[..n];
      EndingAfter(p, front);
      assert front[n].what.Terminate?;
    }
  }

  /** A message succeeds exactly if the guest returns and is orderly until it terminates. */
  lemma SucceedsIffOrderly(p: Phase, calls: seq<Call>, exit: Exit, n: nat)
    requires !p.ending && !p.error && p.pending.None?
    requires n <= |calls| && !Ends(calls[..n]) && (n < |calls| ==> calls[n].what.Terminate?)
    ensures Succeeds(p, calls, exit) <==> exit.Returned? && Orderly(calls[..n])
  {
    FailsByEmit(p, calls[..n]);
    if n < |calls| {
      EndedQuiet(p, calls, n);
    } else {
      assert calls[..n] == calls;
    }
  }

  // ---------------------------------------------------------------- what calls leave in the log

  /** What each call other than barriers and emits tells the log, if anything. */
  lemma CallsTell(p: Phase, c: Call)
    ensures c.what.CommitBarrier? || c.what.AddCause? ==> Step(p, c).story == p.story
    ensures c.what.Deny? ==> Step(p, c).story == Say(p.story, Denial(c.what.data))
    ensures c.what.Terminate? ==> Step(p, c).story == Say(p.story, LifecycleEvent(Terminated, p.counter))
    ensures c.what.Checkpoint? && !p.ending && p.state != Terminated ==>
              Step(p, c).story == Say(p.story, LifecycleEvent(Checkpointed, p.counter))
    ensures IsRequest(c) && !p.ending ==> Step(p, c).story == Say(p.story, ValidationRequest(c.what.risk))
    ensures c.what.Infer? && c.what.inBounds && p.state != Terminated ==>
              Step(p, c).story == Say(Say(Say(Say(p.story, LifecycleEvent(WaitingInference, p.counter)), InferRequest),
                                          InferResult(c.what.outcome)), LifecycleEvent(Active, p.counter))
    ensures c.what.Infer? && c.what.inBounds && p.state == Terminated ==>
              Step(p, c).story == Say(Say(p.story, InferRequest), InferResult(c.what.outcome))
    ensures c.what.RollBack? && CanRollBack(p, c.what.depth) ==>
              Step(p, c).story == Say(p.story, SelfRollback(c.what.depth, p.counter - 1 - c.what.depth))
  {
  }

  // ---------------------------------------------------------------- the first barrier

  /** The first barrier is at `i`, and `m` is the next barrier or emit after it, or the end. */
  ghost predicate FirstBarrier(calls: seq<Call>, i: nat, m: nat) {
    && i < m <= |calls| && calls[i].what.CommitBarrier?
    && (forall k :: 0 <= k < i ==> !calls[k].what.CommitBarrier?)
    && (forall k :: i < k < m ==> !calls[k].what.CommitBarrier? && !calls[k].what.Emit?)
    && (m < |calls| ==> calls[m].what.CommitBarrier? || calls[m].what.Emit?)
  }

  /** What the calls other than barriers and emits leave alone. */
  lemma StepKeeps(p: Phase, c: Call)
    ensures !c.what.CommitBarrier? && !c.what.Emit? ==>
              Step(p, c).pending == p.pending && Step(p, c).logged == p.logged
    ensures p.logged <= Step(p, c).logged && p.counter <= Step(p, c).counter
    ensures forall n :: n in Step(p, c).logged ==> n in p.logged || p.pending == Some(n)
    ensures Step(p, c).pending.Some? ==> Step(p, c).pending == p.pending || Step(p, c).pending.value == p.counter
  {
  }

  lemma {:induction false} NoBarrierYet(p: Phase, calls: seq<Call>)
    requires Orderly(calls) && !p.ending && !p.error && p.pending.None?
    requires forall k :: 0 <= k < |calls| ==> !calls[k].what.CommitBarrier?
    ensures AfterCalls(p, calls).logged == p.logged && AfterCalls(p, calls).counter == p.counter
    ensures AfterCalls(p, calls).pending.None?
  {
    if calls != [] {
      var n := |calls| - 1;
      OrderlyFront(calls);
      NoBarrierYet(p, calls[..n]);
      assert !Backed(calls, n);
      StepKeeps(AfterCalls(p, calls[..n]), calls[n]);
      StepCounts(AfterCalls(p, calls[..n]), calls[n]);
    }
  }

  /** The first barrier waits until the next emit, which logs it, or the next barrier, which replaces it. */
  lemma {:induction false} FirstBarrierWaits(p: Phase, calls: seq<Call>, i: nat, m: nat)
    requires Orderly(calls) && !p.ending && !p.error && p.pending.None? && p.counter !in p.logged
    requires FirstBarrier(calls, i, m)
    ensures var q := AfterCalls(p, calls);
            && q.counter > p.counter
            && (q.pending == Some(p.counter) <==> m == |calls|)
            && (p.counter in q.logged <==> m < |calls| && calls[m].what.Emit?)
    decreases |calls|
  {
    var n := |calls| - 1;
    var front := calls[..n];
    OrderlyFront(calls);
    EmitsAreLogged(p, front);
    StepKeeps(AfterCalls(p, front), calls[n]);
    if i == n {
      NoBarrierYet(p, front);
    } else {
      var rest := if m <= n then m else n;
      assert FirstBarrier(front, i, rest);
      FirstBarrierWaits(p, front, i, rest);
    }
  }

  /** So the first barrier of an orderly guest gets its entry exactly if no other barrier comes before the next emit. */
  lemma FirstBarrierLogged(p: Phase, calls: seq<Call>, b: Bounds, done: nat, i: nat, m: nat)
    requires Orderly(calls) && !p.ending && !p.error && p.pending.None? && p.counter !in p.logged
    requires FirstBarrier(calls, i, m)
    ensures Succeeds(p, calls, Returned)
    ensures p.counter in Processed(p, calls, Returned, b, done).logged <==> m == |calls| || calls[m].what.Emit?
  {
    FirstBarrierWaits(p, calls, i, m);
    EmitsAreLogged(p, calls);
  }
}
