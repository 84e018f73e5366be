/**
 Reconciliation of the compensation journal: which agents have an open compensation that no
 later close can account for.
 */
module Journal {

  type Agent = nat

  /** One scheduler entry; everything the scan skips is `Other`. */
  datatype Event = Open(agent: Agent) | Close(agent: Agent) | Other

  /** Opens minus closes of an agent. */
  function Balance(events: seq<Event>, a: Agent): int {
    if events == [] then 0
    else Balance(events[..|events| - 1], a) + Weight(events[|events| - 1], a)
  }

  function Weight(e: Event, a: Agent): int {
    if e == Open(a) then 1 else if e == Close(a) then -1 else 0
  }

  /** How often the agent is in the list of open compensations: a close of nothing is ignored. */
  function Pending(events: seq<Event>, a: Agent): nat {
    if events == [] then 0
    else
      var n := Pending(events[..|events| - 1], a) + Weight(events[|events| - 1], a);
      if n < 0 then 0 else n
  }

  /** Some suffix of the journal opens more than it closes. */
  ghost predicate Unmatched(events: seq<Event>, a: Agent) {
    exists k :: 0 <= k <= |events| && Balance(events[k..], a) > 0
  }

  lemma BalanceExtend(events: seq<Event>, k: nat, a: Agent)
    requires k < |events|
    ensures Balance(events[k..], a) == Balance(events[..|events| - 1][k..], a) + Weight(events[|events| - 1], a)
  {
    assert events[k..][..|events| - k - 1] == events[..|events| - 1][k..];
  }

  /** No suffix has a larger balance than the list, and one suffix has exactly its size. */
  lemma {:induction false} PendingIsMaximum(events: seq<Event>, a: Agent) returns (best: nat)
    ensures forall k :: 0 <= k <= |events| ==> Balance(events[k..], a) <= Pending(events, a)
    ensures best <= |events| && Balance(events[best..], a) == Pending(events, a)
  {
    best := |events|;
    if events != [] {
      var front := events[..|events| - 1];
      var earlier := PendingIsMaximum(front, a);
      forall k | 0 <= k < |events|
        ensures Balance(events[k..], a) <= Pending(events, a)
      {
        BalanceExtend(events, k, a);
      }
      if Pending(front, a) + Weight(events[|events| - 1], a) >= 0 {
        best := earlier;
        BalanceExtend(events, best, a);
      }
    }
  }

  lemma PendingExact(events: seq<Event>, a: Agent)
    ensures Pending(events, a) > 0 <==> Unmatched(events, a)
  {
    var best := PendingIsMaximum(events, a);
  }

  // ---------------------------------------------------------------- the scan

  function Count(s: seq<Agent>, a: Agent): nat {
    multiset(s)[a]
  }

  /** `position` followed by `remove`: the first occurrence goes, if there is one. */
  method RemoveFirst(s: seq<Agent>, a: Agent) returns (r: seq<Agent>)
    ensures multiset(r) == multiset(s) - multiset{a}
  {
    for i := 0 to |s|
      invariant forall k :: 0 <= k < i ==> s[k] != a
    {
      if s[i] == a {
        assert s == s[..i] + [a] + s[i + 1..];
        return s[..i] + s[i + 1..];
      }
    }
    r := s;
  }

  lemma RemovedCount(s: seq<Agent>, r: seq<Agent>, a: Agent)
    requires multiset(r) == multiset(s) - multiset{a}
    ensures forall b :: Count(r, b) == if b == a && Count(s, b) > 0 then Count(s, b) - 1 else Count(s, b)
  {
  }

  /** `check_compensation_journal` */
  method Incomplete(events: seq<Event>) returns (incomplete: seq<Agent>)
    ensures forall a :: a in incomplete <==> Unmatched(events, a)
    ensures forall i, j :: 0 <= i < j < |incomplete| ==> incomplete[i] != incomplete[j]
  {
    var open: seq<Agent> := [];
    for i := 0 to |events|
      invariant forall a :: Count(open, a) == Pending(events[..i], a)
    {
      assert events[..i + 1][..i] == events[..i];
      match events[i]
      case Open(a) => open := open + [a];
      case Close(a) =>
        var left := RemoveFirst(open, a);
        RemovedCount(open, left, a);
        open := left;
      case Other =>
    }
    assert events[..|events|] == events;
    incomplete := [];
    for i := 0 to |open|
      invariant forall a :: a in incomplete <==> a in open[..i]
      invariant forall k, l :: 0 <= k < l < |incomplete| ==> incomplete[k] != incomplete[l]
    {
      assert open[..i + 1] == open[..i] + [open[i]];
      if open[i] !in incomplete {
        incomplete := incomplete + [open[i]];
      }
    }
    forall a
      ensures a in incomplete <==> Unmatched(events, a)
    {
      assert open[..|open|] == open;
      assert a in open <==> Count(open, a) > 0;
      PendingExact(events, a);
    }
  }
}
