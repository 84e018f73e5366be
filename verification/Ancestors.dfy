/**
 Breadth-first search for the causes of an action.
 */
module Ancestors {
  import opened Ledgers

  /** Action ids, numbered in the order of their string representation. */
  type Id = nat

  datatype Action = Action(cause: Option<Id>, causes: seq<Id>)

  type Graph = map<Id, Action>

  function Parents(a: Action): seq<Id> {
    (if a.cause.Some? then [a.cause.value] else []) + a.causes
  }

  /** `a` exists and is at most `k` parent steps away from `start`, through existing actions. */
  ghost predicate Within(g: Graph, start: Id, a: Id, k: int)
    decreases k
  {
    k >= 0 && a in g && (a == start || exists b :: IsParent(g, a, b) && Within(g, start, b, k - 1))
  }

  predicate IsParent(g: Graph, p: Id, a: Id) {
    a in g && p in Parents(g[a])
  }

  lemma {:induction false} WithinGrows(g: Graph, start: Id, a: Id, j: int, k: int)
    requires j <= k && Within(g, start, a, j)
    ensures Within(g, start, a, k)
    decreases k
  {
    if a != start {
      var b :| IsParent(g, a, b) && Within(g, start, b, j - 1);
      WithinGrows(g, start, b, j - 1, k - 1);
    }
  }

  /** The distance of `a` is `d`: within `d` steps and not within fewer. */
  ghost predicate AtDistance(g: Graph, start: Id, a: Id, d: nat) {
    Within(g, start, a, d) && !Within(g, start, a, d - 1)
  }

  lemma DistanceUnique(g: Graph, start: Id, a: Id, d: nat, e: nat)
    requires AtDistance(g, start, a, d) && AtDistance(g, start, a, e)
    ensures d == e
  {
    if d < e {
      WithinGrows(g, start, a, d, e - 1);
    } else if e < d {
      WithinGrows(g, start, a, e, d - 1);
    }
  }

  // ---------------------------------------------------------------- all distances at once

  ghost predicate Reached(g: Graph, start: Id, a: Id) {
    exists k: nat :: Within(g, start, a, k)
  }

  /** The distance, searched downwards from a known bound. */
  ghost function Nearest(g: Graph, start: Id, a: Id, k: nat): (d: nat)
    requires Within(g, start, a, k)
    ensures AtDistance(g, start, a, d)
  {
    if Within(g, start, a, k - 1) then Nearest(g, start, a, k - 1) else k
  }

  ghost function Distance(g: Graph, start: Id, a: Id): (d: nat)
    requires Reached(g, start, a)
    ensures AtDistance(g, start, a, d)
  {
    var k: nat :| Within(g, start, a, k);
    Nearest(g, start, a, k)
  }

  /** Some child of `a` on the way from the start is nearer. */
  ghost predicate Closer(g: Graph, dist: map<Id, nat>, a: Id)
    requires a in dist
  {
    exists b :: b in dist && IsParent(g, a, b) && dist[b] < dist[a]
  }

  /** The local laws of shortest distances. */
  ghost predicate Distances(g: Graph, start: Id, dist: map<Id, nat>) {
    && (start in g ==> start in dist && dist[start] == 0)
    && (forall a :: a in dist ==> a in g)
    && (forall a {:trigger Closer(g, dist, a)} :: a in dist && a != start ==> Closer(g, dist, a))
    && (forall a, p :: a in dist && IsParent(g, p, a) && p in g ==> p in dist && dist[p] <= dist[a] + 1)
  }

  /** `dist` holds exactly the reachable actions with their distances. */
  ghost predicate Exact(g: Graph, start: Id, dist: map<Id, nat>) {
    forall a, k :: Within(g, start, a, k) <==> a in dist && dist[a] <= k
  }

  lemma ExactDistances(g: Graph, start: Id) returns (dist: map<Id, nat>)
    ensures Exact(g, start, dist)
  {
    dist := map a | a in g && Reached(g, start, a) :: Distance(g, start, a);
    forall a, k
      ensures Within(g, start, a, k) <==> a in dist && dist[a] <= k
    {
      if Within(g, start, a, k) {
        assert Reached(g, start, a);
        NotFurther(g, start, a, dist[a], k);
      } else if a in dist && dist[a] <= k {
        WithinGrows(g, start, a, dist[a], k);
      }
    }
  }

  lemma ExactLaws(g: Graph, start: Id, dist: map<Id, nat>)
    requires Exact(g, start, dist)
    ensures Distances(g, start, dist)
  {
    if start in g {
      assert Within(g, start, start, 0);
    }
    forall a | a in dist && a != start
      ensures Closer(g, dist, a)
    {
      assert Within(g, start, a, dist[a]);
      var b :| IsParent(g, a, b) && Within(g, start, b, dist[a] - 1);
    }
    forall a, p | a in dist && IsParent(g, p, a) && p in g
      ensures p in dist && dist[p] <= dist[a] + 1
    {
      assert Within(g, start, a, dist[a]);
      ParentWithin(g, start, a, p, dist[a]);
    }
    forall a | a in dist
      ensures a in g
    {
      assert Within(g, start, a, dist[a]);
    }
  }

  lemma ParentWithin(g: Graph, start: Id, a: Id, p: Id, d: nat)
    requires a in g && p in g && IsParent(g, p, a) && Within(g, start, a, d)
    ensures Within(g, start, p, d + 1)
  {
  }

  lemma NotFurther(g: Graph, start: Id, a: Id, d: nat, j: int)
    requires AtDistance(g, start, a, d) && Within(g, start, a, j)
    ensures d <= j
  {
    if j < d {
      WithinGrows(g, start, a, j, d - 1);
    }
  }

  // ---------------------------------------------------------------- the search

  datatype Item = Item(id: Id, depth: nat)

  /** Depths never decrease along the queue and span at most two levels. */
  ghost predicate Layered(queue: seq<Item>, visited: map<Id, nat>) {
    && (forall i, j :: 0 <= i < j < |queue| ==> queue[i].depth <= queue[j].depth <= queue[0].depth + 1)
    && (forall a, i :: a in visited && 0 <= i < |queue| ==> visited[a] <= queue[i].depth)
  }

  ghost predicate Sound(g: Graph, dist: map<Id, nat>, max: int, queue: seq<Item>, visited: map<Id, nat>) {
    && (forall a :: a in visited ==> a in dist && visited[a] == dist[a] <= max)
    && (forall it :: it in queue && it.id in g ==> it.id in dist && dist[it.id] <= it.depth)
  }

  /** Every parent of a visited action is visited or waiting, one level further. */
  ghost predicate Closed(g: Graph, start: Id, max: int, queue: seq<Item>, visited: map<Id, nat>) {
    && (start in g && max >= 0 && start !in visited ==> Item(start, 0) in queue)
    && (forall a, p :: a in visited && IsParent(g, p, a) && p in g && visited[a] + 1 <= max && p !in visited ==>
          Item(p, visited[a] + 1) in queue)
  }

  /** When everything waiting is at least `k` steps away, everything nearer has been visited. */
  lemma {:induction false} NearerVisited(g: Graph, start: Id, dist: map<Id, nat>, max: int, queue: seq<Item>,
                                         visited: map<Id, nat>, k: int, a: Id)
    requires Distances(g, start, dist) && Sound(g, dist, max, queue, visited) && Closed(g, start, max, queue, visited)
    requires forall it :: it in queue ==> it.depth >= k
    requires a in dist && dist[a] < k && dist[a] <= max
    ensures a in visited
    decreases dist[a]
  {
    if a != start {
      assert Closer(g, dist, a);
      var b :| b in dist && IsParent(g, a, b) && dist[b] < dist[a];
      NearerVisited(g, start, dist, max, queue, visited, k, b);
    }
  }

  function Queued(ps: seq<Id>, depth: nat): (items: seq<Item>)
    ensures |items| == |ps| && forall i :: 0 <= i < |ps| ==> items[i] == Item(ps[i], depth)
  {
    seq(|ps|, i requires 0 <= i < |ps| => Item(ps[i], depth))
  }

  /** Everything about the search between two rounds of the loop. */
  ghost predicate Searching(g: Graph, start: Id, dist: map<Id, nat>, max: int, queue: seq<Item>, visited: map<Id, nat>)
  {
    Layered(queue, visited) && Sound(g, dist, max, queue, visited) && Closed(g, start, max, queue, visited)
  }

  lemma SkipKeeps(g: Graph, start: Id, dist: map<Id, nat>, max: int, queue: seq<Item>, visited: map<Id, nat>)
    requires Searching(g, start, dist, max, queue, visited) && queue != []
    requires queue[0].id in visited || queue[0].depth > max || queue[0].id !in g
    ensures Searching(g, start, dist, max, queue[1..], visited)
  {
    forall it | it in queue && it != queue[0]
      ensures it in queue[1..]
    {
    }
  }

  lemma VisitDistance(g: Graph, start: Id, dist: map<Id, nat>, max: int, queue: seq<Item>, visited: map<Id, nat>)
    requires Distances(g, start, dist) && Searching(g, start, dist, max, queue, visited) && queue != []
    requires queue[0].id !in visited && queue[0].depth <= max && queue[0].id in g
    ensures queue[0].id in dist && dist[queue[0].id] == queue[0].depth
  {
    var it := queue[0];
    assert it in queue;
    if dist[it.id] < it.depth {
      NearerVisited(g, start, dist, max, queue, visited, it.depth, it.id);
    }
  }

  lemma VisitLayered(queue: seq<Item>, visited: map<Id, nat>, it: Item, more: seq<Item>)
    requires Layered(queue, visited) && queue != [] && it == queue[0]
    requires forall i :: 0 <= i < |more| ==> more[i].depth == it.depth + 1
    ensures Layered(queue[1..] + more, visited[it.id := it.depth])
  {
  }

  lemma VisitSound(g: Graph, dist: map<Id, nat>, max: int, queue: seq<Item>, visited: map<Id, nat>, it: Item,
                   more: seq<Item>)
    requires Sound(g, dist, max, queue, visited) && queue != [] && it == queue[0]
    requires it.depth <= max && it.id in dist && dist[it.id] == it.depth
    requires forall x :: x in more && x.id in g ==> x.id in dist && dist[x.id] <= x.depth
    ensures Sound(g, dist, max, queue[1..] + more, visited[it.id := it.depth])
  {
    forall x | x in queue[1..] + more && x.id in g
      ensures x.id in dist && dist[x.id] <= x.depth
    {
      assert x in queue || x in more;
    }
  }

  lemma VisitClosed(g: Graph, start: Id, max: int, queue: seq<Item>, visited: map<Id, nat>, it: Item, more: seq<Item>)
    requires Closed(g, start, max, queue, visited) && queue != [] && it == queue[0] && it.id !in visited
    requires forall p :: IsParent(g, p, it.id) ==> Item(p, it.depth + 1) in more
    ensures Closed(g, start, max, queue[1..] + more, visited[it.id := it.depth])
  {
    forall x | x in queue && x != it
      ensures x in queue[1..] + more
    {
      assert x in queue[1..];
    }
  }

  lemma QueuedFacts(g: Graph, start: Id, dist: map<Id, nat>, it: Item, more: seq<Item>)
    requires Distances(g, start, dist) && it.id in g && it.id in dist && dist[it.id] == it.depth
    requires more == Queued(Parents(g[it.id]), it.depth + 1)
    ensures forall i :: 0 <= i < |more| ==> more[i].depth == it.depth + 1
    ensures forall x :: x in more && x.id in g ==> x.id in dist && dist[x.id] <= x.depth
    ensures forall p :: IsParent(g, p, it.id) ==> Item(p, it.depth + 1) in more
  {
    var ps := Parents(g[it.id]);
    forall x | x in more && x.id in g
      ensures x.id in dist && dist[x.id] <= x.depth
    {
      var i :| 0 <= i < |ps| && more[i] == x;
      assert ps[i] in ps && IsParent(g, x.id, it.id);
    }
    forall p | IsParent(g, p, it.id)
      ensures Item(p, it.depth + 1) in more
    {
      var i :| 0 <= i < |ps| && ps[i] == p;
      assert more[i] in more;
    }
  }

  lemma VisitKeeps(g: Graph, start: Id, dist: map<Id, nat>, max: int, queue: seq<Item>, visited: map<Id, nat>,
                   it: Item, more: seq<Item>)
    requires Distances(g, start, dist) && Searching(g, start, dist, max, queue, visited) && queue != []
    requires it == queue[0] && it.id !in visited && it.depth <= max && it.id in g
    requires more == Queued(Parents(g[it.id]), it.depth + 1)
    ensures Searching(g, start, dist, max, queue[1..] + more, visited[it.id := it.depth])
    ensures |g.Keys - visited[it.id := it.depth].Keys| < |g.Keys - visited.Keys|
  {
    VisitDistance(g, start, dist, max, queue, visited);
    QueuedFacts(g, start, dist, it, more);
    VisitLayered(queue, visited, it, more);
    VisitSound(g, dist, max, queue, visited, it, more);
    VisitClosed(g, start, max, queue, visited, it, more);
    OneFewer(g, visited, it);
  }

  /** With nothing waiting, what was visited is what is within reach. */
  lemma FoundAll(g: Graph, start: Id, dist: map<Id, nat>, max: int, visited: map<Id, nat>, a: Id)
    requires Exact(g, start, dist) && Searching(g, start, dist, max, [], visited)
    ensures Within(g, start, a, max) <==> a in visited
    ensures a in visited ==> AtDistance(g, start, a, visited[a]) && visited[a] <= max
  {
    ExactLaws(g, start, dist);
    if Within(g, start, a, max) {
      NearerVisited(g, start, dist, max, [], visited, max + 1, a);
    }
  }

  /** The ids found, each at its distance, nearest first and then by id. */
  ghost predicate Listed(found: map<Id, nat>, start: Id, r: seq<Item>) {
    && (forall i :: 0 <= i < |r| ==> r[i].id in found && r[i].id != start && r[i].depth == found[r[i].id])
    && (forall a :: a in found && a != start ==> Item(a, found[a]) in r)
    && (forall i, j :: 0 <= i < j < |r| ==> Before(r[i], r[j]))
  }

  predicate Before(x: Item, y: Item) {
    x.depth < y.depth || (x.depth == y.depth && x.id < y.id)
  }

  lemma {:induction false} LeastItem(s: set<Item>) returns (m: Item)
    requires s != {}
    ensures m in s && forall x :: x in s ==> x == m || Before(m, x)
    decreases |s|
  {
    var first :| first in s;
    m := first;
    if s != {first} {
      assert s == (s - {first}) + {first};
      var rest := LeastItem(s - {first});
      if !Before(first, rest) {
        m := rest;
      }
    }
  }

  /** Drops the start and sorts by depth, then id. */
  method SortFound(found: map<Id, nat>, start: Id) returns (r: seq<Item>)
    ensures Listed(found, start, r)
  {
    r := [];
    var rest := set a | a in found && a != start :: Item(a, found[a]);
    while rest != {}
      invariant forall x :: x in rest ==> x.id in found && x.id != start && x.depth == found[x.id]
      invariant forall i :: 0 <= i < |r| ==> r[i].id in found && r[i].id != start && r[i].depth == found[r[i].id]
      invariant forall a :: a in found && a != start ==> Item(a, found[a]) in r || Item(a, found[a]) in rest
      invariant forall i, j :: 0 <= i < j < |r| ==> Before(r[i], r[j])
      invariant forall i, x :: 0 <= i < |r| && x in rest ==> Before(r[i], x)
    {
      ghost var least := LeastItem(rest);
      var m :| m in rest && forall x :: x in rest ==> x == m || Before(m, x);
      r, rest := r + [m], rest - {m};
    }
  }

  lemma StartSearching(g: Graph, start: Id, dist: map<Id, nat>, max: int)
    requires Distances(g, start, dist)
    ensures Searching(g, start, dist, max, [Item(start, 0)], map[])
  {
  }

  lemma OneFewer(g: Graph, visited: map<Id, nat>, it: Item)
    requires it.id in g && it.id !in visited
    ensures |g.Keys - visited[it.id := it.depth].Keys| < |g.Keys - visited.Keys|
  {
    assert g.Keys - visited[it.id := it.depth].Keys == g.Keys - visited.Keys - {it.id};
  }

  /** The loop of `get_ancestors`; it ends on every graph. */
  method Search(g: Graph, start: Id, max: int, ghost dist: map<Id, nat>) returns (visited: map<Id, nat>)
    requires Distances(g, start, dist)
    ensures Searching(g, start, dist, max, [], visited)
  {
    visited := map[];
    var queue := [Item(start, 0)];
    StartSearching(g, start, dist, max);
    while queue != []
      invariant Searching(g, start, dist, max, queue, visited)
      decreases |g.Keys - visited.Keys|, |queue|
    {
      var it := queue[0];
      if it.id in visited || it.depth > max || it.id !in g {
        SkipKeeps(g, start, dist, max, queue, visited);
        queue := queue[1..];
      } else {
        var more := Queued(Parents(g[it.id]), it.depth + 1);
        VisitKeeps(g, start, dist, max, queue, visited, it, more);
        queue, visited := queue[1..] + more, visited[it.id := it.depth];
      }
    }
  }

  /**
   `get_ancestors`: on every graph, cycles included, the existing actions other than the start
   within `max` parent steps, each with its shortest distance.
   */
  method GetAncestors(g: Graph, start: Id, max: int) returns (r: seq<Item>)
    ensures forall it :: it in r ==> it.id != start && it.depth <= max && AtDistance(g, start, it.id, it.depth)
    ensures forall a :: Within(g, start, a, max) && a != start ==> exists d :: Item(a, d) in r
    ensures forall i, j :: 0 <= i < j < |r| ==> Before(r[i], r[j])
  {
    ghost var dist := ExactDistances(g, start);
    ExactLaws(g, start, dist);
    var visited := Search(g, start, max, dist);
    r := SortFound(visited, start);
    forall a
      ensures Within(g, start, a, max) <==> a in visited
      ensures a in visited ==> AtDistance(g, start, a, visited[a]) && visited[a] <= max
    {
      FoundAll(g, start, dist, max, visited, a);
    }
  }
}
