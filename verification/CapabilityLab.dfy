/**
 The lab's capability table: revocation only marks one row, and an access walks up the parent
 chain to see that nothing on it is revoked.
 */
module CapabilityLab {
  import opened Ledgers

  type LabId = nat

  datatype Op = Read | Write | ReadWrite

  datatype Row = Row(parent: Option<LabId>, subject: string, op: Op, scope: string, revoked: bool)

  type Rows = map<LabId, Row>

  function OpSatisfies(held: Op, required: Op): bool {
    held == ReadWrite || held == required
  }

  /** The empty scope is a wildcard; otherwise the held scope is a prefix. */
  function ScopeCovers(held: string, required: string): bool {
    held == "" || (|held| <= |required| && required[..|held|] == held)
  }

  function Allows(op: Op): set<Op> {
    match op
    case Read => {Read}
    case Write => {Write}
    case ReadWrite => {Read, Write}
  }

  /** An operation is satisfied exactly by one that allows all it needs. */
  lemma OpMeaning(held: Op, required: Op)
    ensures OpSatisfies(held, required) <==> Allows(required) <= Allows(held)
  {
    assert Read in Allows(Read) && Write in Allows(Write) && Read in Allows(ReadWrite) && Write in Allows(ReadWrite);
    assert Write !in Allows(Read) && Read !in Allows(Write);
  }

  /** A scope covers exactly what begins with it; the empty one covers everything. */
  lemma ScopeMeaning(held: string, required: string)
    ensures ScopeCovers(held, required) <==> exists rest :: required == held + rest
  {
    if ScopeCovers(held, required) {
      assert required == held + required[|held|..];
    }
    if rest :| required == held + rest {
      assert required[..|held|] == held;
    }
  }

  /** `_is_chain_valid`, with its guard against cycles. */
  function ChainValid(rows: Rows, cap: Option<LabId>, visited: set<LabId>): bool
    decreases |rows.Keys - visited|
  {
    if cap.None? then true
    else if cap.value in visited then false
    else if cap.value !in rows || rows[cap.value].revoked then false
    else
      Shrinks(rows, cap.value, visited);
      ChainValid(rows, rows[cap.value].parent, visited + {cap.value})
  }

  lemma Shrinks(rows: Rows, x: LabId, visited: set<LabId>)
    requires x in rows && x !in visited
    ensures |rows.Keys - (visited + {x})| < |rows.Keys - visited|
  {
    assert rows.Keys - (visited + {x}) == rows.Keys - visited - {x};
  }

  /** What `check_access` asks of one row. */
  function Accepts(rows: Rows, x: LabId): bool {
    x in rows && !rows[x].revoked && ChainValid(rows, rows[x].parent, {})
  }

  // ---------------------------------------------------------------- what the walk means

  /** Parent by parent from `x` to a root, every row present and unrevoked. */
  ghost predicate ClearPath(rows: Rows, x: LabId, path: seq<LabId>) {
    && path != [] && path[0] == x
    && (forall i :: 0 <= i < |path| ==> path[i] in rows && !rows[path[i]].revoked)
    && (forall i :: 0 <= i < |path| - 1 ==> rows[path[i]].parent == Some(path[i + 1]))
    && rows[path[|path| - 1]].parent == None
  }

  lemma {:induction false} ClearPathUnique(rows: Rows, x: LabId, p: seq<LabId>, q: seq<LabId>)
    requires ClearPath(rows, x, p) && ClearPath(rows, x, q)
    ensures p == q
    decreases |p|
  {
    assert p == [x] + p[1..] && q == [x] + q[1..];
    assert |p| > 1 ==> rows[p[0]].parent == Some(p[1]);
    assert |q| > 1 ==> rows[q[0]].parent == Some(q[1]);
    if |p| > 1 && |q| > 1 {
      ClearPathUnique(rows, p[1], p[1..], q[1..]);
    }
  }

  /** No row comes up twice on the way to a root. */
  lemma ClearPathDistinct(rows: Rows, x: LabId, p: seq<LabId>, i: nat, j: nat)
    requires ClearPath(rows, x, p) && i < j < |p|
    ensures p[i] != p[j]
  {
    if p[i] == p[j] {
      assert ClearPath(rows, p[i], p[i..]) && ClearPath(rows, p[i], p[j..]);
      ClearPathUnique(rows, p[i], p[i..], p[j..]);
    }
  }

  lemma {:induction false} ValidHasPath(rows: Rows, x: LabId, visited: set<LabId>) returns (path: seq<LabId>)
    requires ChainValid(rows, Some(x), visited)
    ensures ClearPath(rows, x, path)
    decreases |rows.Keys - visited|
  {
    path := [x];
    if rows[x].parent.Some? {
      Shrinks(rows, x, visited);
      var rest := ValidHasPath(rows, rows[x].parent.value, visited + {x});
      path := [x] + rest;
    }
  }

  lemma {:induction false} PathIsValid(rows: Rows, x: LabId, path: seq<LabId>, visited: set<LabId>)
    requires ClearPath(rows, x, path) && forall i :: 0 <= i < |path| ==> path[i] !in visited
    ensures ChainValid(rows, Some(x), visited)
    decreases |path|
  {
    if |path| > 1 {
      forall i | 0 <= i < |path[1..]|
        ensures path[1..][i] !in visited + {x}
      {
        ClearPathDistinct(rows, x, path, 0, i + 1);
      }
      PathIsValid(rows, path[1], path[1..], visited + {x});
    }
  }

  /** On every table, cyclic ones included, the walk finds exactly the rows with a clear path. */
  lemma ChainValidExact(rows: Rows, x: LabId)
    ensures ChainValid(rows, Some(x), {}) <==> exists path :: ClearPath(rows, x, path)
  {
    if ChainValid(rows, Some(x), {}) {
      var path := ValidHasPath(rows, x, {});
    }
    if path :| ClearPath(rows, x, path) {
      PathIsValid(rows, x, path, {});
    }
  }

  /** Starting at the parent of an unrevoked row is the same walk. */
  lemma AcceptsExact(rows: Rows, x: LabId)
    requires x in rows
    ensures Accepts(rows, x) <==> exists path :: ClearPath(rows, x, path)
  {
    if Accepts(rows, x) {
      if rows[x].parent.Some? {
        var rest := ValidHasPath(rows, rows[x].parent.value, {});
        assert ClearPath(rows, x, [x] + rest);
      } else {
        assert ClearPath(rows, x, [x]);
      }
    }
    if path :| ClearPath(rows, x, path) {
      if |path| > 1 {
        assert ClearPath(rows, path[1], path[1..]);
        PathIsValid(rows, path[1], path[1..], {});
      }
    }
  }

  // ---------------------------------------------------------------- the table

  class CapabilityTable {
    var rows: Rows

    constructor ()
      ensures rows == map[]
    {
      rows := map[];
    }

    /** `grant_capability`; `id` is the new random identifier. */
    method Grant(id: LabId, subject: string, op: Op, scope: string, parent: Option<LabId>) returns (ok: bool)
      requires id !in rows
      modifies this
      ensures ok <==> parent.Some? ==>
                        && parent.value in old(rows) && !old(rows)[parent.value].revoked
                        && OpSatisfies(old(rows)[parent.value].op, op)
                        && ScopeCovers(old(rows)[parent.value].scope, scope)
      ensures rows == if ok then old(rows)[id := Row(parent, subject, op, scope, false)] else old(rows)
    {
      if parent.Some? {
        if parent.value !in rows || rows[parent.value].revoked {
          return false;
        }
        if !OpSatisfies(rows[parent.value].op, op) || !ScopeCovers(rows[parent.value].scope, scope) {
          return false;
        }
      }
      rows := rows[id := Row(parent, subject, op, scope, false)];
      return true;
    }

    method Revoke(id: LabId) returns (ok: bool)
      modifies this
      ensures ok == (id in old(rows))
      ensures rows == if ok then old(rows)[id := old(rows)[id].(revoked := true)] else old(rows)
    {
      if id !in rows {
        return false;
      }
      rows := rows[id := rows[id].(revoked := true)];
      return true;
    }

    /** `check_access`: open to subjects without any capability, else some accepted row must cover. */
    method CheckAccess(subject: string, op: Op, scope: string) returns (allowed: bool, used: Option<LabId>)
      ensures used.Some? ==> allowed && Covering(rows, used.value, subject, op, scope) && Accepts(rows, used.value)
      ensures allowed <==> (forall x :: x in rows ==> rows[x].subject != subject)
                           || (exists x :: Covering(rows, x, subject, op, scope) && Accepts(rows, x))
    {
      var mine := set x | x in rows && rows[x].subject == subject;
      if mine == {} {
        assert forall x :: x in rows && rows[x].subject == subject ==> x in mine;
        return true, None;
      }
      var candidates := set x | x in mine && !rows[x].revoked;
      while candidates != {}
        invariant forall x :: x in candidates ==> x in rows && rows[x].subject == subject && !rows[x].revoked
        invariant forall x :: Covering(rows, x, subject, op, scope) && Accepts(rows, x) ==> x in candidates
      {
        var x :| x in candidates;
        if OpSatisfies(rows[x].op, op) && ScopeCovers(rows[x].scope, scope) && ChainValid(rows, rows[x].parent, {}) {
          assert Covering(rows, x, subject, op, scope) && Accepts(rows, x);
          return true, Some(x);
        }
        candidates := candidates - {x};
      }
      var m :| m in mine;
      return false, None;
    }
  }

  predicate Covering(rows: Rows, x: LabId, subject: string, op: Op, scope: string) {
    x in rows && rows[x].subject == subject && OpSatisfies(rows[x].op, op) && ScopeCovers(rows[x].scope, scope)
  }
}
