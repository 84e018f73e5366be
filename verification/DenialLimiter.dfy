/**
 The rate limiter in front of CapabilityDenied log entries.
 */
module DenialLimiter {

  const RATE_LIMIT: nat := 100
  const WINDOW_MS: nat := 1000
  const MAX_RESOURCES: nat := 32

  /** What becomes of one denial: its own entry, an aggregate entry, or no entry at all. */
  datatype Outcome = Individual | Aggregate | Silent

  /** The resources denied since the window was opened at `start`, and what became of each. */
  datatype Window = Window(start: nat, resources: seq<string>, outcomes: seq<Outcome>)

  function Logged(s: seq<Outcome>): nat {
    if s == [] then 0 else Logged(s[..|s| - 1]) + if s[|s| - 1].Silent? then 0 else 1
  }

  ghost predicate HasAggregate(s: seq<Outcome>) {
    exists i :: 0 <= i < |s| && s[i].Aggregate?
  }

  /** The log of one window is bounded, and says so when it leaves out a denial. */
  ghost predicate WindowOk(w: Window) {
    && Logged(w.outcomes) <= RATE_LIMIT + MAX_RESOURCES + 1
    && Explained(w.resources, w.outcomes)
    && ((exists i :: 0 <= i < |w.outcomes| && !w.outcomes[i].Individual?) ==> HasAggregate(w.outcomes))
  }

  ghost predicate Spaced(ws: seq<Window>) {
    forall i :: 0 <= i < |ws| - 1 ==> ws[i].start + WINDOW_MS <= ws[i + 1].start
  }

  lemma LoggedNext(s: seq<Outcome>, o: Outcome)
    ensures Logged(s + [o]) == Logged(s) + if o.Silent? then 0 else 1
  {
    assert (s + [o])[..|s|] == s;
  }

  lemma AggregateNext(s: seq<Outcome>, o: Outcome)
    ensures HasAggregate(s + [o]) <==> HasAggregate(s) || o.Aggregate?
  {
    if HasAggregate(s) {
      var i :| 0 <= i < |s| && s[i].Aggregate?;
      assert (s + [o])[i].Aggregate?;
    }
    if o.Aggregate? {
      assert (s + [o])[|s|].Aggregate?;
    }
  }

  lemma SpacedSame(closed: seq<Window>, v: Window, w: Window)
    requires Spaced(closed + [v]) && v.start == w.start
    ensures Spaced(closed + [w])
  {
    var a, b := closed + [v], closed + [w];
    assert forall i :: 0 <= i < |b| ==> a[i].start == b[i].start;
  }

  function Min(a: nat, b: nat): nat {
    if a < b then a else b
  }

  /** How the counters of the open window account for what it logged. */
  ghost predicate Tallied(outcomes: seq<Outcome>, count: nat, distinct: nat, aggregate: bool, overflow: bool,
                          extra: nat)
  {
    && count == |outcomes|
    && (aggregate <==> count > RATE_LIMIT)
    && distinct <= MAX_RESOURCES
    && (if count > 0 then extra < distinct else extra == 0)
    && (overflow ==> count > RATE_LIMIT)
    && Logged(outcomes) == Min(count, RATE_LIMIT) + (if aggregate then 1 else 0) + extra + (if overflow then 1 else 0)
    && (HasAggregate(outcomes) <==> aggregate)
    && (forall i :: 0 <= i < |outcomes| && i < RATE_LIMIT ==> outcomes[i].Individual?)
  }

  lemma TalliedNext(outcomes: seq<Outcome>, count: nat, distinct: nat, aggregate: bool, overflow: bool, extra: nat,
                    o: Outcome, now: nat, aggregateNow: bool, overflowNow: bool, extraNow: nat)
    requires Tallied(outcomes, count, distinct, aggregate, overflow, extra) && distinct <= now <= MAX_RESOURCES
             && now > 0
    requires aggregateNow <==> aggregate || count + 1 > RATE_LIMIT
    requires extraNow <= extra + now - distinct
    requires count == 0 || extraNow == extra || now > distinct
    requires overflowNow ==> count + 1 > RATE_LIMIT
    requires o.Aggregate? <==> aggregateNow != aggregate || overflowNow != overflow
    requires o.Individual? && count + 1 > RATE_LIMIT <==> extraNow != extra
    requires count + 1 <= RATE_LIMIT ==> o.Individual?
    requires (overflow ==> overflowNow) && !(aggregateNow != aggregate && overflowNow != overflow)
             && extra <= extraNow <= extra + 1
    ensures Tallied(outcomes + [o], count + 1, now, aggregateNow, overflowNow, extraNow)
  {
    LoggedNext(outcomes, o);
    AggregateNext(outcomes, o);
  }

  // ---------------------------------------------------------------- which denial gets which entry

  /** The first distinct resources of a window, up to the limit. */
  function Seen(rs: seq<string>): (seen: set<string>)
    ensures |seen| <= MAX_RESOURCES
  {
    if rs == [] then {}
    else
      var before, r := Seen(rs[..|rs| - 1]), rs[|rs| - 1];
      if r !in before && |before| < MAX_RESOURCES then before + {r} else before
  }

  /** Up to the limit nothing is overlooked. */
  lemma {:induction false} SeenAll(rs: seq<string>)
    ensures Seen(rs) <= (set r | r in rs)
    ensures |Seen(rs)| < MAX_RESOURCES ==> Seen(rs) == set r | r in rs
  {
    if rs != [] {
      var front := rs[..|rs| - 1];
      SeenAll(front);
      assert rs == front + [rs[|rs| - 1]];
      assert Seen(rs) == Seen(front) || |Seen(rs)| == |Seen(front)| + 1;
    }
  }

  /** Denial `i` is over the rate and its resource cannot be recorded any more. */
  predicate Overflows(rs: seq<string>, i: nat)
    requires i < |rs|
  {
    i > RATE_LIMIT && rs[i] !in Seen(rs[..i]) && |Seen(rs[..i])| >= MAX_RESOURCES
  }

  /**
   A hundred entries, then one aggregate; after it a resource seen for the first time still gets
   its entry, and once that is no longer possible there is one more aggregate.
   */
  function Expected(rs: seq<string>, i: nat): Outcome
    requires i < |rs|
  {
    if i < RATE_LIMIT then Individual
    else if i == RATE_LIMIT then Aggregate
    else if rs[i] !in Seen(rs[..i]) && |Seen(rs[..i])| < MAX_RESOURCES then Individual
    else if Overflows(rs, i) && forall j :: 0 <= j < i ==> !Overflows(rs, j) then Aggregate
    else Silent
  }

  ghost predicate Explained(rs: seq<string>, outcomes: seq<Outcome>) {
    |rs| == |outcomes| && forall i :: 0 <= i < |rs| ==> outcomes[i] == Expected(rs, i)
  }

  ghost predicate Overflown(rs: seq<string>) {
    exists i :: 0 <= i < |rs| && Overflows(rs, i)
  }

  lemma SameBefore(rs: seq<string>, r: string, i: nat)
    requires i < |rs|
    ensures Overflows(rs + [r], i) == Overflows(rs, i) && Expected(rs + [r], i) == Expected(rs, i)
  {
    forall j | 0 <= j <= i
      ensures (rs + [r])[..j] == rs[..j] && (rs + [r])[j] == rs[j]
    {
    }
    forall j | 0 <= j <= i
      ensures Overflows(rs + [r], j) == Overflows(rs, j)
    {
      assert (rs + [r])[..j] == rs[..j];
    }
  }

  lemma OverflownNext(rs: seq<string>, r: string)
    ensures Overflows(rs + [r], |rs|) <==> |rs| > RATE_LIMIT && r !in Seen(rs) && |Seen(rs)| >= MAX_RESOURCES
    ensures Overflown(rs + [r]) <==> Overflown(rs) || Overflows(rs + [r], |rs|)
    ensures Overflown(rs) <==> exists j :: 0 <= j < |rs| && Overflows(rs + [r], j)
  {
    assert (rs + [r])[..|rs|] == rs;
    forall i | 0 <= i < |rs|
      ensures Overflows(rs + [r], i) == Overflows(rs, i)
    {
      SameBefore(rs, r, i);
    }
    if i :| 0 <= i < |rs| && Overflows(rs, i) {
      assert Overflows(rs + [r], i);
    }
  }

  /** What the last denial of a window gets, from what was seen before it. */
  lemma LastExpected(rs: seq<string>, r: string)
    ensures Expected(rs + [r], |rs|)
         == if |rs| < RATE_LIMIT then Individual
            else if |rs| == RATE_LIMIT then Aggregate
            else if r !in Seen(rs) && |Seen(rs)| < MAX_RESOURCES then Individual
            else if r !in Seen(rs) && !Overflown(rs) then Aggregate else Silent
  {
    assert (rs + [r])[..|rs|] == rs;
    OverflownNext(rs, r);
  }

  lemma ExplainedNext(rs: seq<string>, outcomes: seq<Outcome>, r: string, o: Outcome)
    requires Explained(rs, outcomes) && o == Expected(rs + [r], |rs|)
    ensures Explained(rs + [r], outcomes + [o])
  {
    forall i | 0 <= i < |rs|
      ensures Expected(rs + [r], i) == outcomes[i]
    {
      SameBefore(rs, r, i);
    }
  }

  /** The branches of `emit_cap_denied`: what to log, and the flags and resources afterwards. */
  method Decide(count: nat, resources: set<string>, aggregate: bool, overflow: bool, resource: string,
                ghost rs: seq<string>, ghost outcomes: seq<Outcome>, ghost extra: nat)
    returns (o: Outcome, seen: set<string>, aggregateNow: bool, overflowNow: bool, ghost more: nat)
    requires Tallied(outcomes, count, |resources|, aggregate, overflow, extra)
    requires Explained(rs, outcomes) && resources == Seen(rs) && (overflow <==> Overflown(rs))
    ensures Tallied(outcomes + [o], count + 1, |seen|, aggregateNow, overflowNow, more)
    ensures Explained(rs + [resource], outcomes + [o]) && seen == Seen(rs + [resource])
    ensures overflowNow <==> Overflown(rs + [resource])
  {
    assert (rs + [resource])[..|rs|] == rs;
    var n := count + 1;
    var isNew := resource !in resources;
    var hasRoom := |resources| < MAX_RESOURCES;
    seen := if isNew && hasRoom then resources + {resource} else resources;
    aggregateNow, overflowNow, more := aggregate, overflow, extra;
    if n > RATE_LIMIT && !aggregate {
      aggregateNow := true;
      o := Aggregate;
    } else if isNew && hasRoom {
      o := Individual;
      more := if n > RATE_LIMIT then extra + 1 else extra;
    } else if n <= RATE_LIMIT {
      o := Individual;
    } else if !hasRoom && isNew && !overflow {
      overflowNow := true;
      o := Aggregate;
    } else {
      o := Silent;
    }
    TalliedNext(outcomes, count, |resources|, aggregate, overflow, extra, o, |seen|, aggregateNow, overflowNow, more);
    OverflownNext(rs, resource);
    LastExpected(rs, resource);
    ExplainedNext(rs, outcomes, resource, o);
  }

  ghost predicate WindowsOk(ws: seq<Window>) {
    forall i :: 0 <= i < |ws| ==> WindowOk(ws[i])
  }

  /**
   What happened so far: the windows closed, the denials in the open one, and how many of those
   were logged one by one although the rate was already exceeded.
   */
  datatype Past = Past(closed: seq<Window>, resources: seq<string>, outcomes: seq<Outcome>, extra: nat)

  ghost predicate PastOk(p: Past, start: nat) {
    && WindowsOk(p.closed) && Spaced(p.closed + [Window(start, p.resources, p.outcomes)])
    && Explained(p.resources, p.outcomes)
  }

  lemma PastNext(p: Past, start: nat, r: string, o: Outcome, extra: nat)
    requires PastOk(p, start) && Explained(p.resources + [r], p.outcomes + [o])
    ensures PastOk(Past(p.closed, p.resources + [r], p.outcomes + [o], extra), start)
  {
    SpacedSame(p.closed, Window(start, p.resources, p.outcomes), Window(start, p.resources + [r], p.outcomes + [o]));
  }

  lemma PastRoll(p: Past, start: nat, now: nat)
    requires PastOk(p, start) && WindowOk(Window(start, p.resources, p.outcomes)) && now >= start + WINDOW_MS
    ensures PastOk(Past(p.closed + [Window(start, p.resources, p.outcomes)], [], [], 0), now)
  {
    var ws := p.closed + [Window(start, p.resources, p.outcomes)];
    var all := ws + [Window(now, [], [])];
    forall i | 0 <= i < |all| - 1
      ensures all[i].start + WINDOW_MS <= all[i + 1].start
    {
      if i < |ws| - 1 {
        assert ws[i].start + WINDOW_MS <= ws[i + 1].start;
      }
    }
  }

  lemma TalliedOk(rs: seq<string>, outcomes: seq<Outcome>, count: nat, distinct: nat, aggregate: bool, overflow: bool,
                  extra: nat, start: nat)
    requires Tallied(outcomes, count, distinct, aggregate, overflow, extra) && Explained(rs, outcomes)
    ensures WindowOk(Window(start, rs, outcomes))
  {
    if i :| 0 <= i < |outcomes| && !outcomes[i].Individual? {
      assert i >= RATE_LIMIT;
    }
  }

  class CapDeniedLimiter {
    var count: nat
    var windowStart: nat
    var resources: set<string>
    var aggregateEmitted: bool
    var overflowEmitted: bool
    ghost var past: Past

    ghost function Windows(): seq<Window>
      reads this
    {
      past.closed + [Window(windowStart, past.resources, past.outcomes)]
    }

    ghost predicate Valid()
      reads this
    {
      && Tallied(past.outcomes, count, |resources|, aggregateEmitted, overflowEmitted, past.extra)
      && PastOk(past, windowStart)
      && resources == Seen(past.resources) && (overflowEmitted <==> Overflown(past.resources))
    }

    constructor ()
      ensures Valid() && Windows() == [Window(0, [], [])]
    {
      count, windowStart, resources, aggregateEmitted, overflowEmitted := 0, 0, {}, false, false;
      past := Past([], [], [], 0);
    }

    /** After any stream of denials every window is within bounds and as expected, the starts spaced. */
    lemma StreamOk()
      requires Valid()
      ensures Spaced(Windows()) && WindowsOk(Windows())
    {
      TalliedOk(past.resources, past.outcomes, count, |resources|, aggregateEmitted, overflowEmitted, past.extra,
                windowStart);
    }

    /** `reset`, once the window has run out */
    method Roll(now: nat)
      requires Valid()
      modifies this
      ensures Valid()
      ensures if now >= old(windowStart) + WINDOW_MS
              then past == Past(old(Windows()), [], [], 0) && windowStart == now
              else past == old(past) && windowStart == old(windowStart)
    {
      if now >= windowStart && now - windowStart >= WINDOW_MS {
        TalliedOk(past.resources, past.outcomes, count, |resources|, aggregateEmitted, overflowEmitted, past.extra,
                  windowStart);
        PastRoll(past, windowStart, now);
        past := Past(Windows(), [], [], 0);
        count, windowStart, resources, aggregateEmitted, overflowEmitted := 0, now, {}, false, false;
      }
    }

    /** The decision of `emit_cap_denied` within the window. */
    method Count(resource: string) returns (o: Outcome)
      requires Valid()
      modifies this
      ensures Valid() && windowStart == old(windowStart)
      ensures past.closed == old(past.closed) && past.outcomes == old(past.outcomes) + [o]
      ensures past.resources == old(past.resources) + [resource]
    {
      var seen, aggregate, overflow;
      ghost var more;
      o, seen, aggregate, overflow, more :=
        Decide(count, resources, aggregateEmitted, overflowEmitted, resource, past.resources, past.outcomes,
               past.extra);
      PastNext(past, windowStart, resource, o, more);
      count, resources, aggregateEmitted, overflowEmitted := count + 1, seen, aggregate, overflow;
      past := Past(past.closed, past.resources + [resource], past.outcomes + [o], more);
    }

    method Denied(now: nat, resource: string) returns (o: Outcome)
      requires Valid()
      modifies this
      ensures Valid()
      ensures if now >= old(windowStart) + WINDOW_MS
              then Windows() == old(Windows()) + [Window(now, [resource], [o])]
              else Windows() == old(past.closed)
                                + [Window(old(windowStart), old(past.resources) + [resource], old(past.outcomes) + [o])]
    {
      Roll(now);
      o := Count(resource);
    }
  }
}
