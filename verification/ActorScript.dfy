/**
 `run_loop` as a function: what becomes of an actor that is handed a sequence of messages, in
 terms of phases alone.
 */
module ActorScript {
  import opened Ledgers
  import opened ActorDisk
  import opened ActorPhase

  const PROCESS_FAILED: nat := 1
  const STORE_BROKEN: nat := 2
  const WATCHDOG: nat := 3

  const TIMEOUT: nat := 2
  const CANCELLED: nat := 3

  /** A message, the clock when it is taken up, and for guest messages the clock when the guest is done. */
  datatype Message =
    | Data(cause: Option<Action>, calls: seq<Call>, exit: Exit, now: nat, done: nat)
    | Suspend(now: nat)
    | TakeCheckpoint(now: nat)
    | Evict(now: nat)
    | Rollback(target: nat, now: nat)
    | ValidationResponse(verdict: nat, now: nat)
    | Timeout(now: nat)
    | SessionResume(calls: seq<Call>, exit: Exit, now: nat, done: nat)

  /** Ends the wait for a verdict. */
  predicate Decisive(m: Message) {
    m.ValidationResponse? || m.Timeout? || m.Rollback? || m.Suspend?
  }

  /** Where the wait for a verdict ends: other messages are dropped, a closed inbox ends it too. */
  function FirstDecisive(inbox: seq<Message>): (k: nat)
    ensures k <= |inbox|
    ensures forall i :: 0 <= i < k ==> !Decisive(inbox[i])
    ensures k < |inbox| ==> Decisive(inbox[k])
  {
    if inbox == [] then 0
    else if Decisive(inbox[0]) then 0
    else 1 + FirstDecisive(inbox[1..])
  }

  // ---------------------------------------------------------------- one message

  function Crashed(p: Phase, cause: nat): Phase {
    Tell(p, Crash(cause)).(state := Terminated, stopped := true)
  }

  function CauseOf(exit: Exit): nat {
    if exit.Interrupted? then WATCHDOG else PROCESS_FAILED
  }

  /** A message for the guest: Active, then `process_one`, and the end of the actor if that fails. */
  function Delivered(p: Phase, calls: seq<Call>, exit: Exit, b: Bounds, done: nat): Phase {
    var q := Processed(Enters(p, Active), calls, exit, b, done);
    if Succeeds(Enters(p, Active), calls, exit) then q else Crashed(q, CauseOf(exit))
  }

  function Verdicted(p: Phase, verdict: nat): Phase {
    if p.state == Terminated then p else Enters(Tell(p, Verdict(verdict)), Active)
  }

  /** The actor after some messages, and the messages that are left. */
  datatype Progress = Progress(phase: Phase, left: seq<Message>)

  /** The wait for a verdict. */
  function Await(p: Phase, inbox: seq<Message>): Progress {
    var k := FirstDecisive(inbox);
    if k == |inbox| then Progress(p.(stopped := true), [])
    else
      match inbox[k]
      case ValidationResponse(verdict, _) => Progress(Verdicted(p, verdict), inbox[k + 1..])
      case Timeout(_) => Progress(Verdicted(p, TIMEOUT), inbox[k + 1..])
      case Rollback(_, _) => Progress(Verdicted(p, CANCELLED), inbox[k..])
      case _ => Progress(p.(stopped := true), inbox[k + 1..])
  }

  /** A data message; an agent that asked to terminate stops after it. */
  function AfterData(p: Phase, calls: seq<Call>, exit: Exit, b: Bounds, done: nat, rest: seq<Message>): Progress {
    var q := Delivered(p, calls, exit, b, done);
    StoppedIfDead(if Awaited(p, calls, exit, b, done) then Await(q, rest) else Progress(q, rest))
  }

  function StoppedIfDead(r: Progress): Progress {
    if r.phase.state == Terminated then r.(phase := r.phase.(stopped := true)) else r
  }

  lemma DataThenWait(p: Phase, calls: seq<Call>, exit: Exit, b: Bounds, done: nat, rest: seq<Message>, q: Phase,
                     waited: bool)
    requires q == Delivered(p, calls, exit, b, done)
    requires waited <==> Succeeds(Enters(p, Active), calls, exit) && q.state == AwaitingValidation
    ensures waited <==> Awaited(p, calls, exit, b, done)
    ensures AfterData(p, calls, exit, b, done, rest)
         == StoppedIfDead(if waited then Await(q, rest) else Progress(q, rest))
  {
  }

  /** `min(255)` into one byte */
  function Byte(n: int): nat {
    if n < 0 then 0 else if n > 255 then 255 else n
  }

  /** A supervisor's rollback; how many capabilities went with it is not told here. */
  function RolledBack(p: Phase, target: nat): Phase {
    if p.chain == [] || target >= p.counter then p
    else if target !in p.chain then Crashed(p, STORE_BROKEN)
    else
      var back := Back(p.chain, target);
      Enters(Tell(p.(chain := back), SchedulerRollback(Byte(|p.chain| - |back|), target, 0)), Active)
  }

  lemma RollsBack(p: Phase, target: nat, distance: nat)
    requires target < p.counter && target in p.chain && distance == |p.chain| - |Back(p.chain, target)|
    ensures RolledBack(p, target) == Enters(Tell(p.(chain := Back(p.chain, target)),
                                                 SchedulerRollback(Byte(distance), target, 0)), Active)
  {
  }

  function Left(p: Phase): Phase {
    Enters(p, Suspended).(stopped := true)
  }

  /** Any other message. */
  function AfterOther(p: Phase, b: Bounds, m: Message): Phase
    requires !m.Data?
  {
    match m
    case SessionResume(calls, exit, _, done) => Delivered(p, calls, exit, b, done)
    case Suspend(_) => Left(p)
    case TakeCheckpoint(_) => Enters(p, Checkpointed)
    case Evict(_) => Left(p)
    case Rollback(target, _) => RolledBack(p, target)
    case _ => p
  }

  function Handled(p: Phase, b: Bounds, inbox: seq<Message>): Progress
    requires inbox != []
  {
    var m, rest := inbox[0], inbox[1..];
    if m.Data? then AfterData(p, m.calls, m.exit, b, m.done, rest) else Progress(AfterOther(p, b, m), rest)
  }

  lemma OtherHandled(p: Phase, b: Bounds, inbox: seq<Message>)
    requires inbox != [] && !inbox[0].Data?
    ensures Handled(p, b, inbox) == Progress(AfterOther(p, b, inbox[0]), inbox[1..])
  {
  }

  // ---------------------------------------------------------------- the loop

  /** The cause of a message is not in the log. */
  predicate Unknown(m: Message, log: seq<Action>) {
    m.Data? && m.cause.Some? && m.cause.value !in log
  }

  /** One round: a message whose cause is unknown by then has been refused. */
  function Round(r: Progress, b: Bounds, known: seq<Action>): Progress {
    if r.left == [] || r.phase.stopped then r
    else if Unknown(r.left[0], known) then Progress(r.phase, r.left[1..])
    else Handled(r.phase, b, r.left)
  }

  /** So many rounds; `rounds[i]` is how much of the log there was in round `i`. */
  function Over(p: Phase, b: Bounds, inbox: seq<Message>, log: seq<Action>, rounds: seq<nat>): Progress
    requires forall i :: 0 <= i < |rounds| ==> rounds[i] <= |log|
  {
    if rounds == [] then Progress(p, inbox)
    else
      var n := |rounds| - 1;
      Round(Over(p, b, inbox, log, rounds[..n]), b, log[..rounds[n]])
  }

  /** The loop returns: a closed inbox ends an actor that is neither suspended nor terminated. */
  function Finished(p: Phase): Phase {
    if p.stopped then p
    else
      var q := p.(stopped := true);
      if q.state == Suspended || q.state == Terminated then q else Enters(q, Terminated)
  }

  lemma {:induction false} OverMore(p: Phase, b: Bounds, inbox: seq<Message>, log: seq<Action>, more: seq<Action>,
                                    rounds: seq<nat>)
    requires log <= more && forall i :: 0 <= i < |rounds| ==> rounds[i] <= |log|
    ensures Over(p, b, inbox, more, rounds) == Over(p, b, inbox, log, rounds)
    decreases |rounds|
  {
    if rounds != [] {
      var n := |rounds| - 1;
      OverMore(p, b, inbox, log, more, rounds[..n]);
      assert more[..rounds[n]] == log[..rounds[n]];
    }
  }

  lemma OverNext(p: Phase, b: Bounds, inbox: seq<Message>, log: seq<Action>, rounds: seq<nat>, m: nat)
    requires m <= |log| && forall i :: 0 <= i < |rounds| ==> rounds[i] <= |log|
    ensures Over(p, b, inbox, log, rounds + [m]) == Round(Over(p, b, inbox, log, rounds), b, log[..m])
  {
    assert (rounds + [m])[..|rounds|] == rounds;
  }

  /** A request made while a session resumes stands, and the response that follows is passed over. */
  lemma ResumeAsks(p: Phase, response: Message)
    requires p == Phase(Spawned, false, 0, 0, None, {}, false, [], 0, 1, false, Silence) && response.ValidationResponse?
    ensures var resume := SessionResume([Call(RequestValidation(0), 1000)], Returned, 1000, 2000);
            var q := Handled(p, Bounds(100, 0), [resume, response]);
            && q.phase.state == AwaitingValidation && !q.phase.stopped && q.left == [response]
            && Handled(q.phase, Bounds(100, 0), [response]) == Progress(q.phase, [])
  {
    var calls, start := [Call(RequestValidation(0), 1000)], Enters(p, Active);
    assert calls[..0] == [];
    assert AfterCalls(start, calls) == Step(start, calls[0]);
    assert AfterCalls(start, calls) == Tell(start.(state := AwaitingValidation), ValidationRequest(0));
  }

  /**
   After a data message for an orderly guest that makes a barrier, the first barrier has an entry
   exactly if no other barrier comes before the next emit.
   */
  lemma FirstBarrierOfMessage(p: Phase, calls: seq<Call>, b: Bounds, done: nat, rest: seq<Message>, i: nat, m: nat)
    requires Orderly(calls) && !p.ending && !p.error && p.pending.None? && p.counter !in p.logged
    requires FirstBarrier(calls, i, m)
    ensures p.counter in AfterData(p, calls, Returned, b, done, rest).phase.logged
            <==> m == |calls| || calls[m].what.Emit?
  {
    FirstBarrierLogged(Enters(p, Active), calls, b, done, i, m);
    DataLogs(p, calls, b, done, rest);
  }

  lemma DataLogs(p: Phase, calls: seq<Call>, b: Bounds, done: nat, rest: seq<Message>)
    requires Succeeds(Enters(p, Active), calls, Returned)
    ensures AfterData(p, calls, Returned, b, done, rest).phase.logged
         == Processed(Enters(p, Active), calls, Returned, b, done).logged
  {
    AwaitLogs(Processed(Enters(p, Active), calls, Returned, b, done), rest);
  }

  lemma AwaitLogs(p: Phase, inbox: seq<Message>)
    ensures Await(p, inbox).phase.logged == p.logged
  {
  }

  // ---------------------------------------------------------------- no message is passed over

  /** What is left is the end of the inbox, `taken` messages shorter at least, unless the run is over. */
  ghost predicate Shorter(inbox: seq<Message>, r: Progress, taken: nat) {
    && |r.left| <= |inbox| && r.left == inbox[|inbox| - |r.left|..]
    && (r.left == [] || r.phase.stopped || |r.left| + taken <= |inbox|)
  }

  lemma ShorterNext(inbox: seq<Message>, r: Progress, q: Progress, taken: nat, next: nat)
    requires Shorter(inbox, r, taken) && next == taken + 1 && Takes(r, q)
    ensures Shorter(inbox, q, next)
  {
    Suffixes(inbox, r.left, q.left);
  }

  /** From `r` to `q` messages are taken from the front, at least one if any can be. */
  ghost predicate Takes(r: Progress, q: Progress) {
    && |q.left| <= |r.left| && q.left == r.left[|r.left| - |q.left|..]
    && (if r.left != [] && !r.phase.stopped then |q.left| < |r.left| else q == r)
  }

  /** Messages are taken from the front, at least one per round. */
  lemma {:induction false} TakenFromFront(p: Phase, b: Bounds, inbox: seq<Message>, log: seq<Action>, rounds: seq<nat>)
    requires forall i :: 0 <= i < |rounds| ==> rounds[i] <= |log|
    ensures Shorter(inbox, Over(p, b, inbox, log, rounds), |rounds|)
    decreases |rounds|
  {
    if rounds == [] {
      assert inbox[0..] == inbox;
    } else {
      var n := |rounds| - 1;
      TakenFromFront(p, b, inbox, log, rounds[..n]);
      var r := Over(p, b, inbox, log, rounds[..n]);
      RoundTakes(r, b, log[..rounds[n]]);
      ShorterNext(inbox, r, Round(r, b, log[..rounds[n]]), n, |rounds|);
    }
  }

  lemma Suffixes(inbox: seq<Message>, a: seq<Message>, b: seq<Message>)
    requires |b| <= |a| <= |inbox| && a == inbox[|inbox| - |a|..] && b == a[|a| - |b|..]
    ensures b == inbox[|inbox| - |b|..]
  {
  }

  lemma RoundTakes(r: Progress, b: Bounds, known: seq<Action>)
    ensures Takes(r, Round(r, b, known))
  {
    if r.left != [] && !r.phase.stopped && !Unknown(r.left[0], known) && r.left[0].Data? {
      var m := r.left[0];
      DataTakes(r.phase, m.calls, m.exit, b, m.done, r.left[1..]);
    }
  }

  lemma DataTakes(p: Phase, calls: seq<Call>, exit: Exit, b: Bounds, done: nat, rest: seq<Message>)
    ensures var left := AfterData(p, calls, exit, b, done, rest).left;
            |left| <= |rest| && left == rest[|rest| - |left|..]
  {
    var q := Delivered(p, calls, exit, b, done);
    var k := FirstDecisive(rest);
    assert rest[0..] == rest;
  }

  /**
   What becomes of the next messages in a round: the first is refused if its cause is unknown,
   else it is handled; others go only if a verdict is awaited, up to the decisive one, and a
   rollback stays.
   */
  lemma MessageFates(r: Progress, b: Bounds, known: seq<Action>)
    requires r.left != [] && !r.phase.stopped
    ensures var q, m, rest := Round(r, b, known), r.left[0], r.left[1..];
            if Unknown(m, known) then q == Progress(r.phase, rest)
            else if m.Data? && Awaited(r.phase, m.calls, m.exit, b, m.done) then
              var k := FirstDecisive(rest);
              q.left == if k == |rest| then [] else if rest[k].Rollback? then rest[k..] else rest[k + 1..]
            else q.left == rest && q == Handled(r.phase, b, r.left)
  {
  }

  /** When the loop has returned, the actor is terminated or suspended, or was stopped by a message. */
  lemma FinishedState(p: Phase)
    ensures Finished(p).stopped
    ensures Finished(p).state == if p.stopped || p.state == Suspended then p.state else Terminated
    ensures Finished(p).story == if p.stopped || p.state == Suspended || p.state == Terminated then p.story
                                 else Say(p.story, LifecycleEvent(Terminated, p.counter))
    ensures p.stopped ==> Finished(p) == p
  {
  }

  /** A message that calls nothing: the agent is Active again, and nothing else has changed. */
  lemma QuietMessage(p: Phase, b: Bounds, done: nat)
    requires p.state != Terminated && !p.error && p.pending.None? && !Exceeded(p, b, done)
    ensures Delivered(p, [], Returned, b, done)
         == p.(state := Active, story := Say(p.story, LifecycleEvent(Active, p.counter)))
  {
  }

  /** A message that fails ends the actor, and the last entry says why. */
  lemma FailedMessage(p: Phase, calls: seq<Call>, exit: Exit, b: Bounds, done: nat)
    requires !Succeeds(Enters(p, Active), calls, exit)
    ensures var q := Delivered(p, calls, exit, b, done);
            && q.state == Terminated && q.stopped
            && q.story == Say(AfterCalls(Enters(p, Active), calls).story,
                              Crash(if exit.Interrupted? then WATCHDOG else PROCESS_FAILED))
  {
  }

  /** A message for an orderly guest that neither asks nor fails, and whose cause is in the log. */
  ghost predicate Plain(m: Message, known: seq<Action>) {
    && m.Data? && m.exit.Returned? && !Unknown(m, known) && Orderly(m.calls)
    && forall i :: 0 <= i < |m.calls| ==> !IsRequest(m.calls[i])
  }

  function AllBarriers(inbox: seq<Message>): nat
    requires forall m :: m in inbox ==> m.Data?
  {
    if inbox == [] then 0
    else AllBarriers(inbox[..|inbox| - 1]) + Barriers(inbox[|inbox| - 1].calls)
  }

  /** The entries an orderly guest's barriers get: those of its emits, and one for a barrier left at the end. */
  ghost function Entries(calls: seq<Call>): seq<Payload> {
    Emits(calls) + if Backed(calls, |calls|) then [Flush] else []
  }

  ghost function AllEntries(inbox: seq<Message>): seq<Payload>
    requires forall m :: m in inbox ==> m.Data?
  {
    if inbox == [] then []
    else AllEntries(inbox[..|inbox| - 1]) + Entries(inbox[|inbox| - 1].calls)
  }

  /** Ready for the next message: nothing is left over from the last one. */
  predicate Idle(p: Phase) {
    !p.ending && p.state != Terminated && !p.error && p.pending.None? && !p.stopped
  }

  lemma SettledOutputs(p: Phase, b: Bounds, done: nat)
    requires !p.ending && !p.error && p.state != Terminated && !p.stopped
    ensures var q := Settled(p, b, done);
            && Outputs(q.story) == Outputs(p.story) + (if p.pending.Some? then [Flush] else [])
            && q.counter == p.counter && Idle(q)
            && (q.state == p.state || q.state == Checkpointed)
  {
    var q := if p.pending.Some? then Tell(Committed(p), Flush) else p;
    if p.pending.Some? {
      TellOutputs(Committed(p), Flush);
    } else {
      assert Outputs(p.story) + [] == Outputs(p.story);
    }
    ClosedOutputs(q);
  }

  lemma ClosedOutputs(p: Phase)
    ensures Outputs(Closed(p).story) == Outputs(p.story)
  {
    var count: nat := if p.counter >= p.session then p.counter - p.session else 0;
    var q := p.(sessionId := p.sessionId + 1, session := p.counter, started := 0);
    var r := Tell(q, Boundary(p.sessionId, count));
    assert Closed(p) == Enters(r, Checkpointed);
    TellOutputs(q, Boundary(p.sessionId, count));
    EnterOutputs(r, Checkpointed);
  }

  lemma StopsLast(p: Phase, calls: seq<Call>)
    ensures AfterCalls(p, calls).stopped == p.stopped
  {
  }

  /** Such a message moves the counter by its barriers and leaves their entries in the log, and nobody waits. */
  lemma PlainMessage(p: Phase, b: Bounds, inbox: seq<Message>, known: seq<Action>)
    requires inbox != [] && Idle(p) && Plain(inbox[0], known)
    ensures var r := Round(Progress(p, inbox), b, known);
            && r.left == inbox[1..] && Idle(r.phase) && r.phase.counter == p.counter + Barriers(inbox[0].calls)
            && Outputs(r.phase.story) == Outputs(p.story) + Entries(inbox[0].calls)
  {
    var m, q := inbox[0], Enters(p, Active);
    EnterOutputs(p, Active);
    EmitsAreLogged(q, m.calls);
    CounterCounts(q, m.calls);
    StopsLast(q, m.calls);
    assert forall j :: 0 <= j < |m.calls| ==> m.calls[j] in m.calls;
    StateDecided(q, m.calls);
    NeverAsked(q, m.calls);
    SettledOutputs(AfterCalls(q, m.calls), b, m.done);
  }

  lemma NeverAsked(p: Phase, calls: seq<Call>)
    requires !p.ending && p.state != Terminated && p.state != AwaitingValidation && !Ends(calls)
    requires forall i :: 0 <= i < |calls| ==> !IsRequest(calls[i])
    ensures AfterCalls(p, calls).state != AwaitingValidation
  {
    assert forall j :: 0 <= j < |calls| ==> calls[j] in calls;
    StateDecided(p, calls);
    if !NoneSets(calls) {
      var i :| 0 <= i < |calls| && Sets(calls[i]).Some?;
      var k := LastSetting(calls, i);
    }
  }

  /** The first `n` messages have been handled, each with all its barriers and their entries. */
  ghost predicate AllHandled(p: Phase, inbox: seq<Message>, n: nat, r: Progress) {
    && n <= |inbox| && (forall m :: m in inbox[..n] ==> m.Data?)
    && r.left == inbox[n..] && Idle(r.phase) && r.phase.counter == p.counter + AllBarriers(inbox[..n])
    && Outputs(r.phase.story) == Outputs(p.story) + AllEntries(inbox[..n])
  }

  lemma HandledNext(p: Phase, b: Bounds, inbox: seq<Message>, n: nat, next: nat, r: Progress, known: seq<Action>)
    requires AllHandled(p, inbox, n, r) && n < |inbox| && next == n + 1 && Plain(inbox[n], known)
    ensures AllHandled(p, inbox, next, Round(r, b, known))
  {
    assert r.left[0] == inbox[n] && r.left[1..] == inbox[next..];
    PlainMessage(r.phase, b, r.left, known);
    SumsNext(inbox, n, next);
    assert r == Progress(r.phase, r.left);
  }

  lemma SumsNext(inbox: seq<Message>, n: nat, next: nat)
    requires n < |inbox| && next == n + 1 && inbox[n].Data? && forall m :: m in inbox[..n] ==> m.Data?
    ensures forall m :: m in inbox[..next] ==> m.Data?
    ensures AllBarriers(inbox[..next]) == AllBarriers(inbox[..n]) + Barriers(inbox[n].calls)
    ensures AllEntries(inbox[..next]) == AllEntries(inbox[..n]) + Entries(inbox[n].calls)
  {
    var front, all := inbox[..n], inbox[..next];
    assert all == front + [inbox[n]];
    assert all[..|all| - 1] == front && all[|all| - 1] == inbox[n];
  }

  /** A run over such messages handles every one of them, in order. */
  lemma {:induction false} EveryMessageCounts(p: Phase, b: Bounds, inbox: seq<Message>, log: seq<Action>,
                                              rounds: seq<nat>)
    requires |rounds| <= |inbox| && (forall i :: 0 <= i < |rounds| ==> rounds[i] <= |log|) && Idle(p)
    requires forall i :: 0 <= i < |rounds| ==> Plain(inbox[i], log[..rounds[i]])
    ensures AllHandled(p, inbox, |rounds|, Over(p, b, inbox, log, rounds))
    decreases |rounds|
  {
    if rounds == [] {
      assert inbox[0..] == inbox && inbox[..0] == [];
      assert Outputs(p.story) + [] == Outputs(p.story);
    } else {
      var n := |rounds| - 1;
      EveryMessageCounts(p, b, inbox, log, rounds[..n]);
      HandledNext(p, b, inbox, n, |rounds|, Over(p, b, inbox, log, rounds[..n]), log[..rounds[n]]);
    }
  }
}
