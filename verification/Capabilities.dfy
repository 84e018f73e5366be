/**
 The in-memory capability store: a derivation forest with eager, cascading revocation.
 */
module Capabilities {
  import opened Ledgers

  type CapId = nat
  type Agent = nat

  datatype Permissions = Permissions(read: bool, write: bool, execute: bool, delegate: bool)

  datatype Capability = Capability(owner: Agent, permissions: Permissions, resource: string, parent: Option<CapId>,
                                   issuedAt: nat)

  datatype CapError = NotFound | NotOwner | DelegationNotAllowed | PermissionEscalation

  datatype Result = Ok(id: CapId) | Err(error: CapError)

  /** Every permission of `q` is one of `p`. */
  predicate Covers(p: Permissions, q: Permissions) {
    && (q.read ==> p.read)
    && (q.write ==> p.write)
    && (q.execute ==> p.execute)
    && (q.delegate ==> p.delegate)
  }

  /** The parent of every capability ever issued, revoked ones included. */
  type Forest = map<CapId, Option<CapId>>

  ghost predicate IsForest(f: Forest, next: CapId) {
    && (forall c :: c in f <==> 0 <= c < next)
    && (forall c :: c in f && f[c].Some? ==> f[c].value < c)
  }

  /** `c` is `a` or was derived from it, directly or not. */
  ghost predicate Descends(f: Forest, c: CapId, a: CapId)
    decreases c
  {
    c == a || (c in f && f[c].Some? && f[c].value < c && Descends(f, f[c].value, a))
  }

  // ---------------------------------------------------------------- the worklist

  /** All (parent, child) entries of the children map. */
  ghost function Links(children: map<CapId, set<CapId>>): set<(CapId, CapId)> {
    set p, c | p in children && c in children[p] :: (p, c)
  }

  lemma LinksRemoved(children: map<CapId, set<CapId>>, p: CapId)
    requires p in children
    ensures |Links(children)| == |Links(children - {p})| + |children[p]|
  {
    var mine := set c | c in children[p] :: (p, c);
    assert Links(children) == Links(children - {p}) + mine;
    Paired(p, children[p], mine);
  }

  lemma PopLinks(children: map<CapId, set<CapId>>, current: CapId)
    ensures |Links(children)| == |Links(children - {current})| + if current in children then |children[current]| else 0
  {
    if current in children {
      LinksRemoved(children, current);
    } else {
      assert children - {current} == children;
    }
  }

  lemma PopCount(caps: map<CapId, Capability>, current: CapId)
    ensures |caps| == |caps - {current}| + if current in caps then 1 else 0
  {
    var rest := caps - {current};
    assert |caps.Keys| == |caps| && |rest.Keys| == |rest|;
    assert current in caps ==> caps.Keys == rest.Keys + {current};
    assert current !in caps ==> caps.Keys == rest.Keys;
  }

  lemma {:induction false} Paired(p: CapId, cs: set<CapId>, pairs: set<(CapId, CapId)>)
    requires pairs == set c | c in cs :: (p, c)
    ensures |pairs| == |cs|
    decreases cs
  {
    if cs != {} {
      var c :| c in cs;
      assert pairs == (set d | d in cs - {c} :: (p, d)) + {(p, c)};
      Paired(p, cs - {c}, set d | d in cs - {c} :: (p, d));
    }
  }

  /** In whatever order the hash set yields its elements. */
  method Drain(s: set<CapId>) returns (r: seq<CapId>)
    ensures |r| == |s| && forall c :: c in r <==> c in s
  {
    r := [];
    var rest := s;
    while rest != {}
      invariant rest <= s && |r| + |rest| == |s|
      invariant forall c :: c in r || c in rest <==> c in s
    {
      var c :| c in rest;
      r, rest := r + [c], rest - {c};
    }
  }

  /** A live capability's parent is live and knows it, unless the child is on the worklist. */
  ghost predicate Chained(caps: map<CapId, Capability>, children: map<CapId, set<CapId>>, f: Forest, todo: seq<CapId>) {
    forall c :: c in caps && c in f && f[c].Some? && c !in todo ==>
      f[c].value in caps && f[c].value in children && c in children[f[c].value]
  }

  ghost predicate Recorded(caps: map<CapId, Capability>, children: map<CapId, set<CapId>>, f: Forest) {
    && (forall c :: c in caps ==> c in f && caps[c].parent == f[c])
    && (forall p, c :: p in children && c in children[p] ==> c in f && f[c] == Some(p))
  }

  lemma PopKeeps(caps: map<CapId, Capability>, children: map<CapId, set<CapId>>, f: Forest, todo: seq<CapId>,
                 current: CapId, found: seq<CapId>)
    requires Recorded(caps, children, f) && Chained(caps, children, f, todo + [current])
    requires forall c :: c in found <==> current in children && c in children[current]
    ensures Recorded(caps - {current}, children - {current}, f)
    ensures Chained(caps - {current}, children - {current}, f, todo + found)
  {
    forall c | c in caps - {current} && f[c].Some? && c !in todo + found
      ensures f[c].value in caps - {current} && f[c].value in children - {current} && c in children[f[c].value]
    {
      assert c !in todo + [current];
      assert f[c].value == current ==> c in found;
    }
  }

  /** Permissions only shrink along a derivation, and only from a source that may delegate. */
  ghost predicate Attenuated(caps: map<CapId, Capability>, f: Forest) {
    forall c :: c in caps && c in f && f[c].Some? && f[c].value in caps ==>
      caps[f[c].value].permissions.delegate && Covers(caps[f[c].value].permissions, caps[c].permissions)
  }

  /** A new node below a live source, or a new root. */
  lemma AddKeeps(caps: map<CapId, Capability>, children: map<CapId, set<CapId>>, f: Forest, id: CapId, cap: Capability)
    requires IsForest(f, id) && Recorded(caps, children, f) && Chained(caps, children, f, [])
    requires cap.parent.Some? ==> cap.parent.value in caps
    ensures Recorded(caps[id := cap], WithChild(children, cap.parent, id), f[id := cap.parent])
    ensures Chained(caps[id := cap], WithChild(children, cap.parent, id), f[id := cap.parent], [])
  {
    AddRecords(caps, children, f, id, cap);
    var more, g := WithChild(children, cap.parent, id), f[id := cap.parent];
    assert id !in f && id !in caps;
    forall c | c in caps[id := cap] && c in g && g[c].Some?
      ensures g[c].value in caps[id := cap] && g[c].value in more && c in more[g[c].value]
    {
      if c != id {
        assert c in caps && f[c].Some? && c !in [];
        assert children[f[c].value] <= more[f[c].value];
      }
    }
  }

  lemma AddRecords(caps: map<CapId, Capability>, children: map<CapId, set<CapId>>, f: Forest, id: CapId,
                   cap: Capability)
    requires IsForest(f, id) && Recorded(caps, children, f) && (cap.parent.Some? ==> cap.parent.value in caps)
    ensures Recorded(caps[id := cap], WithChild(children, cap.parent, id), f[id := cap.parent])
  {
    var more, g := WithChild(children, cap.parent, id), f[id := cap.parent];
    assert id !in f && id !in caps;
    forall p, c | p in more && c in more[p]
      ensures c in g && g[c] == Some(p)
    {
      assert c == id || (p in children && c in children[p]);
    }
  }

  /** The children map once `id` is entered below its parent. */
  function WithChild(children: map<CapId, set<CapId>>, parent: Option<CapId>, id: CapId): map<CapId, set<CapId>> {
    if parent.None? then children
    else children[parent.value := (if parent.value in children then children[parent.value] else {}) + {id}]
  }

  lemma AddAttenuated(caps: map<CapId, Capability>, f: Forest, id: CapId, cap: Capability)
    requires IsForest(f, id) && Attenuated(caps, f) && (forall c :: c in caps ==> c in f)
    requires cap.parent.Some? ==>
               cap.parent.value in caps && caps[cap.parent.value].permissions.delegate
               && Covers(caps[cap.parent.value].permissions, cap.permissions)
    ensures Attenuated(caps[id := cap], f[id := cap.parent])
  {
  }

  /** What the worklist loop has done so far: only descendants of `id` are gone or waiting. */
  ghost predicate Progress(caps: map<CapId, Capability>, before: map<CapId, Capability>, f: Forest, id: CapId,
                           todo: seq<CapId>)
  {
    && (id in caps ==> id in todo)
    && (forall c :: c in todo ==> Descends(f, c, id))
    && (forall c :: c in caps ==> c in before && caps[c] == before[c])
    && (forall c :: c in before && c !in caps ==> Descends(f, c, id))
  }

  lemma PopProgress(caps: map<CapId, Capability>, before: map<CapId, Capability>, children: map<CapId, set<CapId>>,
                    f: Forest, id: CapId, todo: seq<CapId>, current: CapId, found: seq<CapId>)
    requires Progress(caps, before, f, id, todo + [current]) && Recorded(caps, children, f)
    requires forall c :: c in f && f[c].Some? ==> f[c].value < c
    requires forall c :: c in found <==> current in children && c in children[current]
    ensures Progress(caps - {current}, before, f, id, todo + found)
  {
    assert current in todo + [current];
    forall c | c in todo + found
      ensures Descends(f, c, id)
    {
      if c in todo {
        assert c in todo + [current];
      }
    }
    if id in caps && id != current {
      assert id in todo + [current];
    }
  }

  /** With the worklist empty, a live capability has a live chain, so nothing below `id` is left. */
  lemma {:induction false} ChainedUp(caps: map<CapId, Capability>, children: map<CapId, set<CapId>>, f: Forest,
                                     c: CapId, a: CapId)
    requires Chained(caps, children, f, []) && Recorded(caps, children, f) && c in caps && Descends(f, c, a)
    ensures a in caps
    decreases c
  {
    if c != a {
      ChainedUp(caps, children, f, f[c].value, a);
    }
  }

  class CapabilityStore {
    var caps: map<CapId, Capability>
    var children: map<CapId, set<CapId>>
    var nextId: CapId
    ghost var forest: Forest

    ghost predicate Valid()
      reads this
    {
      ValidExcept([]) && Attenuated(caps, forest)
    }

    ghost predicate ValidExcept(todo: seq<CapId>)
      reads this
    {
      IsForest(forest, nextId) && Recorded(caps, children, forest) && Chained(caps, children, forest, todo)
    }

    constructor ()
      ensures Valid() && caps == map[] && forest == map[] && nextId == 0
    {
      caps, children, nextId, forest := map[], map[], 0, map[];
    }

    method GrantRoot(owner: Agent, permissions: Permissions, resource: string, now: nat) returns (id: CapId)
      requires Valid()
      modifies this
      ensures Valid() && id == old(nextId) && nextId == old(nextId) + 1 && id !in old(forest)
      ensures caps == old(caps)[id := Capability(owner, permissions, resource, None, now)]
      ensures forest == old(forest)[id := None]
    {
      id := nextId;
      var cap := Capability(owner, permissions, resource, None, now);
      AddKeeps(caps, children, forest, id, cap);
      AddAttenuated(caps, forest, id, cap);
      nextId := nextId + 1;
      caps := caps[id := cap];
      forest := forest[id := None];
    }

    method Delegate(source: CapId, from: Agent, to: Agent, permissions: Permissions, resource: string, now: nat)
      returns (r: Result)
      requires Valid()
      modifies this
      ensures Valid()
      ensures r.Ok? <==> source in old(caps) && old(caps)[source].owner == from
                         && old(caps)[source].permissions.delegate && Covers(old(caps)[source].permissions, permissions)
      ensures r.Ok? ==> r.id == old(nextId) && nextId == old(nextId) + 1
      ensures r.Ok? ==> caps == old(caps)[r.id := Capability(to, permissions, resource, Some(source), now)]
      ensures r.Ok? ==> forest == old(forest)[r.id := Some(source)]
      ensures r.Err? ==> caps == old(caps) && forest == old(forest) && nextId == old(nextId)
      ensures r.Err? ==> r.error == (if source !in caps then NotFound
                                     else if caps[source].owner != from then NotOwner
                                     else if !caps[source].permissions.delegate then DelegationNotAllowed
                                     else PermissionEscalation)
    {
      if source !in caps {
        return Err(NotFound);
      }
      var parent := caps[source];
      if parent.owner != from {
        return Err(NotOwner);
      }
      if !parent.permissions.delegate {
        return Err(DelegationNotAllowed);
      }
      if !Covers(parent.permissions, permissions) {
        return Err(PermissionEscalation);
      }
      var id := nextId;
      var cap := Capability(to, permissions, resource, Some(source), now);
      AddKeeps(caps, children, forest, id, cap);
      AddAttenuated(caps, forest, id, cap);
      nextId := nextId + 1;
      caps := caps[id := cap];
      children := WithChild(children, Some(source), id);
      forest := forest[id := Some(source)];
      return Ok(id);
    }

    /** Removes exactly the capability and everything derived from it; returns how many went. */
    method Revoke(id: CapId) returns (count: nat)
      requires ValidExcept([id]) && Attenuated(caps, forest)
      modifies this`caps, this`children
      ensures Valid()
      ensures forall c :: c in caps <==> c in old(caps) && !Descends(forest, c, id)
      ensures forall c :: c in caps ==> caps[c] == old(caps)[c]
      ensures count + |caps| == |old(caps)|
    {
      var todo := [id];
      count := 0;
      while todo != []
        invariant Recorded(caps, children, forest) && Chained(caps, children, forest, todo)
        invariant Progress(caps, old(caps), forest, id, todo)
        invariant count + |caps| == |old(caps)|
        decreases |Links(children)| + |todo|
      {
        var rest, current := todo[..|todo| - 1], todo[|todo| - 1];
        assert todo == rest + [current];
        var found := [];
        if current in children {
          found := Drain(children[current]);
        }
        PopKeeps(caps, children, forest, rest, current, found);
        PopProgress(caps, old(caps), children, forest, id, rest, current, found);
        PopLinks(children, current);
        PopCount(caps, current);
        if current in caps {
          count := count + 1;
        }
        caps, children, todo := caps - {current}, children - {current}, rest + found;
      }
      forall c | c in caps
        ensures !Descends(forest, c, id)
      {
        if Descends(forest, c, id) {
          ChainedUp(caps, children, forest, c, id);
        }
      }
    }

    /**
     `revoke_owned_after`: what the rollback of an agent takes back.  Victims may lie below one
     another, and each is unlinked from its parent before its own cascade.
     */
    method RevokeOwnedAfter(owner: Agent, after: nat) returns (count: nat)
      requires Valid()
      modifies this`caps, this`children
      ensures Valid()
      ensures Survivors(caps, old(caps), forest, Victims(old(caps), owner, after))
      ensures forall c :: c in caps <==>
                && c in old(caps)
                && !exists v :: && v in old(caps) && old(caps)[v].owner == owner && old(caps)[v].issuedAt > after
                                && Descends(forest, c, v)
      ensures count + |caps| == |old(caps)|
    {
      var collected := caps;
      var victims := Drain(Victims(collected, owner, after));
      count := 0;
      for i := 0 to |victims|
        invariant Valid() && count + |caps| == |collected|
        invariant Survivors(caps, collected, forest, Ids(victims[..i]))
      {
        var id := victims[i];
        assert id in Victims(collected, owner, after);
        ghost var before := caps;
        var n := RevokeVictim(id, collected[id].parent);
        SurvivorsNext(caps, before, collected, forest, victims, i);
        count := count + n;
      }
      assert victims[..|victims|] == victims;
      assert Ids(victims) == Victims(collected, owner, after);
      SurvivorsExactly(caps, collected, forest, owner, after);
    }

    method RevokeVictim(id: CapId, parent: Option<CapId>) returns (count: nat)
      requires Valid()
      modifies this`caps, this`children
      ensures Valid()
      ensures forall c :: c in caps <==> c in old(caps) && !Descends(forest, c, id)
      ensures forall c :: c in caps ==> caps[c] == old(caps)[c]
      ensures count + |caps| == |old(caps)|
    {
      if parent.Some? && parent.value in children {
        Unlink(parent.value, id);
      }
      count := Revoke(id);
    }

    method Unlink(parent: CapId, id: CapId)
      requires Valid() && parent in children
      modifies this`children
      ensures ValidExcept([id])
    {
      children := children[parent := children[parent] - {id}];
    }

    /** `check`: one lookup, yet it stands for the whole chain above the capability. */
    method Check(agent: Agent, id: CapId, resource: string, perm: Permissions) returns (ok: bool)
      requires Valid()
      ensures ok <==> id in caps && caps[id].owner == agent && ScopeCovers(caps[id].resource, resource)
                      && Covers(caps[id].permissions, perm)
      ensures ok ==> forall a :: Descends(forest, id, a) ==> a in caps && Covers(caps[a].permissions, perm)
    {
      ok := id in caps && caps[id].owner == agent && ScopeCovers(caps[id].resource, resource)
            && Covers(caps[id].permissions, perm);
      if ok {
        forall a | Descends(forest, id, a)
          ensures a in caps && Covers(caps[a].permissions, perm)
        {
          ChainIsLive(caps, children, forest, id, a);
        }
      }
    }
  }

  function Ids(s: seq<CapId>): set<CapId> {
    set c | c in s
  }

  function Victims(caps: map<CapId, Capability>, owner: Agent, after: nat): set<CapId> {
    set c | c in caps && caps[c].owner == owner && caps[c].issuedAt > after
  }

  /** What survives: exactly what is not derived from anything the owner got after that time. */
  lemma SurvivorsExactly(caps: map<CapId, Capability>, all: map<CapId, Capability>, f: Forest, owner: Agent, after: nat)
    requires Survivors(caps, all, f, Victims(all, owner, after))
    ensures forall c :: c in caps <==>
              && c in all
              && !exists v :: v in all && all[v].owner == owner && all[v].issuedAt > after && Descends(f, c, v)
  {
    forall c
      ensures Below(f, c, Victims(all, owner, after)) <==>
                exists v :: v in all && all[v].owner == owner && all[v].issuedAt > after && Descends(f, c, v)
    {
      if v :| v in all && all[v].owner == owner && all[v].issuedAt > after && Descends(f, c, v) {
        assert v in Victims(all, owner, after);
      }
    }
  }

  /** `c` is or descends from one of `vs`. */
  ghost predicate Below(f: Forest, c: CapId, vs: set<CapId>) {
    exists v :: v in vs && Descends(f, c, v)
  }

  /** `caps` is what is left of `all` once everything at or below `vs` is gone. */
  ghost predicate Survivors(caps: map<CapId, Capability>, all: map<CapId, Capability>, f: Forest, vs: set<CapId>) {
    && (forall c :: c in caps <==> c in all && !Below(f, c, vs))
    && (forall c :: c in caps ==> caps[c] == all[c])
  }

  lemma SurvivorsNext(caps: map<CapId, Capability>, before: map<CapId, Capability>, all: map<CapId, Capability>,
                      f: Forest, victims: seq<CapId>, i: nat)
    requires i < |victims| && Survivors(before, all, f, Ids(victims[..i]))
    requires forall c :: c in caps <==> c in before && !Descends(f, c, victims[i])
    requires forall c :: c in caps ==> caps[c] == before[c]
    ensures Survivors(caps, all, f, Ids(victims[..i + 1]))
  {
    BelowNext(f, victims, i);
  }

  lemma BelowNext(f: Forest, victims: seq<CapId>, i: nat)
    requires i < |victims|
    ensures forall c :: Below(f, c, Ids(victims[..i + 1])) <==>
              Below(f, c, Ids(victims[..i])) || Descends(f, c, victims[i])
  {
    assert Ids(victims[..i + 1]) == Ids(victims[..i]) + {victims[i]};
    forall c | Below(f, c, Ids(victims[..i]))
      ensures Below(f, c, Ids(victims[..i + 1]))
    {
      var v :| v in Ids(victims[..i]) && Descends(f, c, v);
      assert v in Ids(victims[..i + 1]);
    }
    assert victims[i] in Ids(victims[..i + 1]);
  }

  function StartsWith(s: string, prefix: string): bool {
    |prefix| <= |s| && s[..|prefix|] == prefix
  }

  /** Equal, or a path below. */
  function ScopeCovers(cap: string, req: string): bool {
    req == cap || StartsWith(req, cap + "/")
  }

  datatype Right = Reading | Writing | Executing | Delegating

  function Rights(p: Permissions): set<Right> {
    (if p.read then {Reading} else {}) + (if p.write then {Writing} else {})
    + (if p.execute then {Executing} else {}) + (if p.delegate then {Delegating} else {})
  }

  /** Attenuation: one set of rights covers another exactly if it includes it. */
  lemma CoversIsInclusion(p: Permissions, q: Permissions)
    ensures Covers(p, q) <==> Rights(q) <= Rights(p)
  {
    assert forall r: Permissions ::
        && (Reading in Rights(r) <==> r.read) && (Writing in Rights(r) <==> r.write)
        && (Executing in Rights(r) <==> r.execute) && (Delegating in Rights(r) <==> r.delegate);
  }

  /** A scope covers itself and what lies below it, whatever follows the slash; no other string. */
  lemma ScopeMeaning(cap: string, req: string)
    ensures ScopeCovers(cap, req) <==> req == cap || exists rest :: req == (cap + "/") + rest
  {
    var prefix := cap + "/";
    if StartsWith(req, prefix) {
      assert req == prefix + req[|prefix|..];
    }
    if rest :| req == prefix + rest {
      assert req[..|prefix|] == prefix;
    }
  }

  lemma ScopeCoversTransitive(a: string, b: string, c: string)
    requires ScopeCovers(a, b) && ScopeCovers(b, c)
    ensures ScopeCovers(a, c)
  {
    if b != a && c != b {
      assert c[..|b|] == b by { assert c[..|b|] == (b + "/")[..|b|]; }
      assert c[..|a| + 1] == b[..|a| + 1];
    }
  }

  /** Every ancestor of a live capability is live and at least as powerful. */
  lemma {:induction false} ChainIsLive(caps: map<CapId, Capability>, children: map<CapId, set<CapId>>, f: Forest,
                                       c: CapId, a: CapId)
    requires Chained(caps, children, f, []) && Recorded(caps, children, f) && Attenuated(caps, f)
    requires c in caps && Descends(f, c, a)
    ensures a in caps && Covers(caps[a].permissions, caps[c].permissions)
    ensures c != a ==> caps[a].permissions.delegate
    decreases c
  {
    if c != a {
      ChainIsLive(caps, children, f, f[c].value, a);
    }
  }
}
