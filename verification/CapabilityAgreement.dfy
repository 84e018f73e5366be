/**
 Eager and lazy revocation accept the same capabilities.  The same history of grants,
 derivations and revocations is run against the store (which removes subtrees) and against the
 table (which marks rows); `link` records which store id a table row was issued as.
 */
module CapabilityAgreement {
  import opened Ledgers
  import opened Capabilities
  import Lab = CapabilityLab

  /**
   `allowed` says that the store's own checks (owner, delegation, permissions) would pass on the
   parent's capability.
   */
  datatype Event =
    | Grant(x: Lab.LabId, subject: string, op: Lab.Op, scope: string)
    | Derive(x: Lab.LabId, parent: Lab.LabId, subject: string, op: Lab.Op, scope: string, allowed: bool)
    | Revoke(x: Lab.LabId)

  /** What the store holds: the ids still present and the parent of every id issued. */
  datatype Eager = Eager(live: set<CapId>, forest: Forest, next: CapId)

  /** Both systems side by side; `age` numbers the rows in the order they were made. */
  datatype Joint = Joint(eager: Eager, rows: Lab.Rows, link: map<Lab.LabId, CapId>, age: map<Lab.LabId, nat>)

  function EagerAdd(e: Eager, parent: Option<CapId>): Eager {
    Eager(e.live + {e.next}, e.forest[e.next := parent], e.next + 1)
  }

  ghost function EagerRevoke(e: Eager, id: CapId): Eager {
    e.(live := set c | c in e.live && !Descends(e.forest, c, id))
  }

  predicate Known(j: Joint, x: Lab.LabId) {
    x in j.link && j.link[x] in j.eager.live
  }

  /** The table's own checks on the parent row. */
  predicate Within(row: Lab.Row, op: Lab.Op, scope: string) {
    Lab.OpSatisfies(row.op, op) && Lab.ScopeCovers(row.scope, scope)
  }

  predicate TableTakes(j: Joint, e: Event)
    requires e.Derive?
  {
    e.parent in j.rows && !j.rows[e.parent].revoked && Within(j.rows[e.parent], e.op, e.scope)
  }

  predicate StoreTakes(j: Joint, e: Event)
    requires e.Derive?
  {
    Known(j, e.parent) && e.allowed
  }

  /** A new row has a new id. */
  ghost predicate Enabled(j: Joint, e: Event) {
    e.Revoke? || (e.x !in j.rows && e.x !in j.link)
  }

  /** A derivation from a live parent is decided alike. */
  predicate Alike(j: Joint, e: Event) {
    e.Derive? && Known(j, e.parent) ==> (StoreTakes(j, e) <==> TableTakes(j, e))
  }

  ghost function Next(j: Joint, e: Event): Joint
    requires Enabled(j, e)
  {
    match e
    case Grant(x, subject, op, scope) =>
      Joint(EagerAdd(j.eager, None), j.rows[x := Lab.Row(None, subject, op, scope, false)], j.link[x := j.eager.next],
            j.age[x := |j.rows|])
    case Derive(x, p, subject, op, scope, _) =>
      Joint(if StoreTakes(j, e) then EagerAdd(j.eager, Some(j.link[p])) else j.eager,
            if TableTakes(j, e) then j.rows[x := Lab.Row(Some(p), subject, op, scope, false)] else j.rows,
            if StoreTakes(j, e) then j.link[x := j.eager.next] else j.link,
            if TableTakes(j, e) then j.age[x := |j.rows|] else j.age)
    case Revoke(x) =>
      j.(rows := if x in j.rows then j.rows[x := j.rows[x].(revoked := true)] else j.rows,
         eager := if x in j.link then EagerRevoke(j.eager, j.link[x]) else j.eager)
  }

  function Start(): Joint {
    Joint(Eager({}, map[], 0), map[], map[], map[])
  }

  // ---------------------------------------------------------------- the invariant

  ghost predicate Aged(rows: Lab.Rows, age: map<Lab.LabId, nat>) {
    && age.Keys == rows.Keys
    && (forall x :: x in rows ==> age[x] < |rows|)
    && (forall x :: x in rows && rows[x].parent.Some? ==>
        rows[x].parent.value in rows && age[rows[x].parent.value] < age[x])
  }

  /** The row and all rows above it are unrevoked. */
  ghost predicate Clear(rows: Lab.Rows, age: map<Lab.LabId, nat>, x: Lab.LabId)
    requires Aged(rows, age) && x in rows
    decreases age[x]
  {
    !rows[x].revoked && (rows[x].parent.Some? ==> Clear(rows, age, rows[x].parent.value))
  }

  ghost predicate Linked(eager: Eager, rows: Lab.Rows, link: map<Lab.LabId, CapId>) {
    && IsForest(eager.forest, eager.next)
    && eager.live <= eager.forest.Keys
    && (forall x :: x in link ==> x in rows && link[x] in eager.forest)
    && (forall x, y {:trigger link[x], link[y]} :: x in link && y in link && link[x] == link[y] ==> x == y)
    && (forall x :: x in link && rows[x].parent.None? ==> eager.forest[link[x]] == None)
    && (forall x :: x in link && rows[x].parent.Some? ==>
          rows[x].parent.value in link && eager.forest[link[x]] == Some(link[rows[x].parent.value]))
  }

  /** Present in the store exactly when clear in the table. */
  ghost predicate Agree(j: Joint)
    requires Aged(j.rows, j.age)
  {
    forall x :: x in j.rows ==> (Known(j, x) <==> Clear(j.rows, j.age, x))
  }

  ghost predicate Inv(j: Joint) {
    Aged(j.rows, j.age) && Linked(j.eager, j.rows, j.link) && Agree(j)
  }

  /** The walk of the table, with its visited set, computes `Clear`. */
  lemma {:induction false} WalkIsClear(rows: Lab.Rows, age: map<Lab.LabId, nat>, x: Lab.LabId, visited: set<Lab.LabId>)
    requires Aged(rows, age) && x in rows
    requires forall v :: v in visited ==> v in rows && age[v] > age[x]
    ensures Lab.ChainValid(rows, Some(x), visited) <==> Clear(rows, age, x)
    decreases age[x]
  {
    if !rows[x].revoked && rows[x].parent.Some? {
      WalkIsClear(rows, age, rows[x].parent.value, visited + {x});
    }
  }

  lemma AcceptsIsClear(rows: Lab.Rows, age: map<Lab.LabId, nat>, x: Lab.LabId)
    requires Aged(rows, age) && x in rows
    ensures Lab.Accepts(rows, x) <==> Clear(rows, age, x)
  {
    if rows[x].parent.Some? {
      WalkIsClear(rows, age, rows[x].parent.value, {});
    }
  }

  // ---------------------------------------------------------------- new rows

  /** A new row leaves the rows that were there alone. */
  lemma {:induction false} ClearStays(rows: Lab.Rows, age: map<Lab.LabId, nat>, more: Lab.Rows,
                                      aged: map<Lab.LabId, nat>, x: Lab.LabId)
    requires Aged(rows, age) && Aged(more, aged) && x in rows
    requires forall y :: y in rows ==> y in more && more[y] == rows[y] && aged[y] == age[y]
    ensures Clear(more, aged, x) <==> Clear(rows, age, x)
    decreases age[x]
  {
    if rows[x].parent.Some? {
      ClearStays(rows, age, more, aged, rows[x].parent.value);
    }
  }

  lemma AddAged(rows: Lab.Rows, age: map<Lab.LabId, nat>, x: Lab.LabId, row: Lab.Row)
    requires Aged(rows, age) && x !in rows && (row.parent.Some? ==> row.parent.value in rows)
    ensures Aged(rows[x := row], age[x := |rows|])
  {
    assert rows[x := row].Keys == rows.Keys + {x};
  }

  lemma AddRow(rows: Lab.Rows, age: map<Lab.LabId, nat>, x: Lab.LabId, row: Lab.Row, more: Lab.Rows,
               aged: map<Lab.LabId, nat>)
    requires Aged(rows, age) && x !in rows && !row.revoked && (row.parent.Some? ==> row.parent.value in rows)
    requires more == rows[x := row] && aged == age[x := |rows|]
    ensures Aged(more, aged) && more.Keys == rows.Keys + {x}
    ensures forall y :: y in rows ==> (Clear(more, aged, y) <==> Clear(rows, age, y))
    ensures Clear(more, aged, x) <==> (row.parent.Some? ==> Clear(rows, age, row.parent.value))
  {
    AddAged(rows, age, x, row);
    forall y | y in rows
      ensures Clear(more, aged, y) <==> Clear(rows, age, y)
    {
      ClearStays(rows, age, more, aged, y);
    }
  }

  /** The capability the row's parent was issued as. */
  function Source(j: Joint, row: Lab.Row): Option<CapId>
    requires row.parent.Some? ==> row.parent.value in j.link
  {
    if row.parent.None? then None else Some(j.link[row.parent.value])
  }

  lemma AddLinked(j: Joint, x: Lab.LabId, row: Lab.Row)
    requires Inv(j) && x !in j.rows && (row.parent.Some? ==> Known(j, row.parent.value))
    ensures Linked(EagerAdd(j.eager, Source(j, row)), j.rows[x := row], j.link[x := j.eager.next])
  {
  }

  lemma AddAgrees(j: Joint, now: Joint, x: Lab.LabId)
    requires Aged(j.rows, j.age) && Agree(j) && Aged(now.rows, now.age) && now.rows.Keys == j.rows.Keys + {x}
    requires forall y :: y in j.rows ==> (Clear(now.rows, now.age, y) <==> Clear(j.rows, j.age, y))
    requires forall y :: y in j.rows ==> (Known(now, y) <==> Known(j, y))
    requires x !in j.rows && (Known(now, x) <==> Clear(now.rows, now.age, x))
    ensures Agree(now)
  {
  }

  lemma KnownStays(j: Joint, now: Joint, x: Lab.LabId, parent: Option<CapId>)
    requires Linked(j.eager, j.rows, j.link) && x !in j.rows
    requires now.link == j.link[x := j.eager.next] && now.eager == EagerAdd(j.eager, parent)
    ensures Known(now, x) && forall y :: y in j.rows ==> (Known(now, y) <==> Known(j, y))
  {
  }

  lemma AddInv(j: Joint, now: Joint, x: Lab.LabId, row: Lab.Row)
    requires Inv(j) && x !in j.rows && !row.revoked
    requires row.parent.Some? ==> Known(j, row.parent.value) && row.parent.value in j.rows
    requires now.rows == j.rows[x := row] && now.age == j.age[x := |j.rows|] && now.link == j.link[x := j.eager.next]
    requires now.eager == EagerAdd(j.eager, Source(j, row))
    ensures Inv(now)
  {
    AddRow(j.rows, j.age, x, row, now.rows, now.age);
    AddLinked(j, x, row);
    KnownStays(j, now, x, Source(j, row));
    assert row.parent.Some? ==> Clear(j.rows, j.age, row.parent.value);
    AddAgrees(j, now, x);
  }

  lemma GrantInv(j: Joint, e: Event)
    requires Inv(j) && e.Grant? && Enabled(j, e)
    ensures Inv(Next(j, e))
  {
    AddInv(j, Next(j, e), e.x, Lab.Row(None, e.subject, e.op, e.scope, false));
  }

  /** The table accepts a derivation from a row with a revoked ancestor; the store has no such source. */
  lemma OrphanInv(j: Joint, now: Joint, x: Lab.LabId, row: Lab.Row)
    requires Inv(j) && x !in j.rows && !row.revoked && row.parent.Some? && row.parent.value in j.rows
             && !Known(j, row.parent.value)
    requires now == j.(rows := j.rows[x := row], age := j.age[x := |j.rows|])
    ensures Inv(now)
  {
    AddRow(j.rows, j.age, x, row, now.rows, now.age);
    OrphanLinked(j.eager, j.rows, j.link, x, row);
    OrphanAgrees(j, now, x, row.parent.value);
  }

  lemma OrphanLinked(eager: Eager, rows: Lab.Rows, link: map<Lab.LabId, CapId>, x: Lab.LabId, row: Lab.Row)
    requires Linked(eager, rows, link) && x !in rows
    ensures Linked(eager, rows[x := row], link)
  {
  }

  lemma OrphanAgrees(j: Joint, now: Joint, x: Lab.LabId, p: Lab.LabId)
    requires Aged(j.rows, j.age) && Agree(j) && Aged(now.rows, now.age) && now.rows.Keys == j.rows.Keys + {x}
    requires forall y :: y in j.rows ==> (Clear(now.rows, now.age, y) <==> Clear(j.rows, j.age, y))
    requires p in j.rows && !Known(j, p) && (Clear(now.rows, now.age, x) <==> Clear(j.rows, j.age, p))
    requires x !in j.rows && now.link == j.link && now.eager == j.eager && x !in j.link
    ensures Agree(now)
  {
  }

  lemma DeriveInv(j: Joint, e: Event)
    requires Inv(j) && e.Derive? && Enabled(j, e) && Alike(j, e)
    ensures Inv(Next(j, e))
  {
    var row := Lab.Row(Some(e.parent), e.subject, e.op, e.scope, false);
    if StoreTakes(j, e) {
      AddInv(j, Next(j, e), e.x, row);
    } else if TableTakes(j, e) {
      OrphanInv(j, Next(j, e), e.x, row);
    }
  }

  // ---------------------------------------------------------------- revocation

  /** `y` is `x` or a row derived from it. */
  ghost predicate Above(rows: Lab.Rows, age: map<Lab.LabId, nat>, y: Lab.LabId, x: Lab.LabId)
    requires Aged(rows, age) && y in rows
    decreases age[y]
  {
    y == x || (rows[y].parent.Some? && Above(rows, age, rows[y].parent.value, x))
  }

  lemma {:induction false} RevokeClear(rows: Lab.Rows, age: map<Lab.LabId, nat>, x: Lab.LabId, y: Lab.LabId)
    requires Aged(rows, age) && x in rows && y in rows && Aged(rows[x := rows[x].(revoked := true)], age)
    ensures Clear(rows[x := rows[x].(revoked := true)], age, y) <==> Clear(rows, age, y) && !Above(rows, age, y, x)
    decreases age[y]
  {
    if rows[y].parent.Some? {
      RevokeClear(rows, age, x, rows[y].parent.value);
    }
  }

  lemma {:induction false} DescendsIsAbove(j: Joint, y: Lab.LabId, x: Lab.LabId)
    requires Aged(j.rows, j.age) && Linked(j.eager, j.rows, j.link) && x in j.link && y in j.link
    ensures Descends(j.eager.forest, j.link[y], j.link[x]) <==> Above(j.rows, j.age, y, x)
    decreases j.age[y]
  {
    if j.rows[y].parent.Some? {
      DescendsIsAbove(j, j.rows[y].parent.value, x);
    }
  }

  /** Rows below an unclear row are not clear either. */
  lemma {:induction false} AboveUnclear(rows: Lab.Rows, age: map<Lab.LabId, nat>, y: Lab.LabId, x: Lab.LabId)
    requires Aged(rows, age) && x in rows && y in rows && Above(rows, age, y, x) && Clear(rows, age, y)
    ensures Clear(rows, age, x)
    decreases age[y]
  {
    if y != x {
      AboveUnclear(rows, age, rows[y].parent.value, x);
    }
  }

  lemma RevokeAged(rows: Lab.Rows, age: map<Lab.LabId, nat>, x: Lab.LabId)
    requires Aged(rows, age) && x in rows
    ensures Aged(rows[x := rows[x].(revoked := true)], age)
  {
    assert rows[x := rows[x].(revoked := true)].Keys == rows.Keys;
  }

  lemma RevokeAgrees(j: Joint, x: Lab.LabId, y: Lab.LabId)
    requires Inv(j) && x in j.rows && y in j.rows && Aged(Next(j, Revoke(x)).rows, j.age)
    ensures Known(Next(j, Revoke(x)), y) <==> Clear(Next(j, Revoke(x)).rows, j.age, y)
  {
    RevokeClear(j.rows, j.age, x, y);
    if x in j.link {
      if y in j.link {
        DescendsIsAbove(j, y, x);
      }
    } else if Above(j.rows, j.age, y, x) && Clear(j.rows, j.age, y) {
      AboveUnclear(j.rows, j.age, y, x);
    }
  }

  lemma RevokeInv(j: Joint, x: Lab.LabId)
    requires Inv(j)
    ensures Inv(Next(j, Revoke(x)))
  {
    if x in j.rows {
      RevokeAged(j.rows, j.age, x);
      forall y | y in j.rows
        ensures Known(Next(j, Revoke(x)), y) <==> Clear(Next(j, Revoke(x)).rows, j.age, y)
      {
        RevokeAgrees(j, x, y);
      }
    }
  }

  lemma StepInv(j: Joint, e: Event)
    requires Inv(j) && Enabled(j, e) && Alike(j, e)
    ensures Inv(Next(j, e))
  {
    match e
    case Grant(_, _, _, _) => GrantInv(j, e);
    case Derive(_, _, _, _, _, _) => DeriveInv(j, e);
    case Revoke(x) => RevokeInv(j, x);
  }

  // ---------------------------------------------------------------- whole histories

  ghost predicate History(trace: seq<Joint>, events: seq<Event>) {
    && |trace| == |events| + 1
    && trace[0] == Start()
    && (forall k :: 0 <= k < |events| ==> Enabled(trace[k], events[k]) && trace[k + 1] == Next(trace[k], events[k]))
  }

  /** For every row, the walk of the table finds what the lookup in the store finds. */
  ghost predicate Agreed(j: Joint) {
    forall x :: Lab.Accepts(j.rows, x) <==> Known(j, x)
  }

  lemma {:induction false} HistoryInv(trace: seq<Joint>, events: seq<Event>, k: nat)
    requires History(trace, events) && k < |trace| && forall i :: 0 <= i < k ==> Alike(trace[i], events[i])
    ensures Inv(trace[k])
    decreases k
  {
    if k > 0 {
      var i := k - 1;
      HistoryInv(trace, events, i);
      StepInv(trace[i], events[i]);
    }
  }

  lemma InvAgreed(j: Joint)
    requires Inv(j)
    ensures Agreed(j)
  {
    forall x | x in j.rows
      ensures Lab.Accepts(j.rows, x) <==> Known(j, x)
    {
      AcceptsIsClear(j.rows, j.age, x);
    }
  }

  /**
   As long as derivations from live parents are decided alike, the table accepts a row exactly
   when the store still holds the capability; a row the store refused to issue is never accepted.
   */
  lemma EagerIsLazy(trace: seq<Joint>, events: seq<Event>, k: nat)
    requires History(trace, events) && k < |trace| && forall i :: 0 <= i < k ==> Alike(trace[i], events[i])
    ensures Agreed(trace[k])
  {
    HistoryInv(trace, events, k);
    InvAgreed(trace[k]);
  }

  /** The first derivation that is not decided alike parts the two. */
  lemma UnlikeParts(j: Joint, e: Event)
    requires Inv(j) && Enabled(j, e) && !Alike(j, e)
    ensures !Agreed(Next(j, e))
  {
    var now, row := Next(j, e), Lab.Row(Some(e.parent), e.subject, e.op, e.scope, false);
    if TableTakes(j, e) {
      AddRow(j.rows, j.age, e.x, row, now.rows, now.age);
      AcceptsIsClear(now.rows, now.age, e.x);
      assert Lab.Accepts(now.rows, e.x) && !Known(now, e.x);
    } else {
      assert Known(now, e.x) && !Lab.Accepts(now.rows, e.x);
    }
  }

  /**
   The two systems agree all through a history if and only if every derivation from a live
   parent is decided alike, whatever the subjects, operations, scopes and permissions.
   */
  lemma AgreeIffAlike(trace: seq<Joint>, events: seq<Event>)
    requires History(trace, events)
    ensures (forall k :: 0 <= k < |trace| ==> Agreed(trace[k])) <==>
              (forall k :: 0 <= k < |events| ==> Alike(trace[k], events[k]))
  {
    if forall k :: 0 <= k < |events| ==> Alike(trace[k], events[k]) {
      forall k | 0 <= k < |trace|
        ensures Agreed(trace[k])
      {
        EagerIsLazy(trace, events, k);
      }
    } else {
      var k := FirstUnlike(trace, events);
      HistoryInv(trace, events, k);
      UnlikeParts(trace[k], events[k]);
      assert !Agreed(trace[k + 1]);
    }
  }

  lemma FirstUnlike(trace: seq<Joint>, events: seq<Event>) returns (k: nat)
    requires |trace| == |events| + 1 && exists i :: 0 <= i < |events| && !Alike(trace[i], events[i])
    ensures k < |events| && !Alike(trace[k], events[k]) && forall i :: 0 <= i < k ==> Alike(trace[i], events[i])
  {
    k := 0;
    while Alike(trace[k], events[k])
      invariant k < |events| && forall i :: 0 <= i < k ==> Alike(trace[i], events[i])
      decreases |events| - k
    {
      k := k + 1;
    }
  }

  /** What only the table derives, because the parent is not live, is not accepted. */
  lemma OrphansRefused(trace: seq<Joint>, events: seq<Event>, k: nat)
    requires History(trace, events) && k < |events| && events[k].Derive?
    requires forall i :: 0 <= i <= k ==> Alike(trace[i], events[i])
    ensures TableTakes(trace[k], events[k]) && !StoreTakes(trace[k], events[k]) ==>
              !Known(trace[k], events[k].parent) && !Lab.Accepts(trace[k + 1].rows, events[k].x)
  {
    HistoryInv(trace, events, k);
    EagerIsLazy(trace, events, k + 1);
  }

  // ---------------------------------------------------------------- the two objects

  predicate Delegable(cap: Capability, from: Agent, permissions: Permissions) {
    cap.owner == from && cap.permissions.delegate && Covers(cap.permissions, permissions)
  }

  /** Every request is put to a store and to a table. */
  class Pair {
    const store: CapabilityStore
    const table: Lab.CapabilityTable
    var link: map<Lab.LabId, CapId>
    ghost var age: map<Lab.LabId, nat>
    /** Every derivation from a live parent so far was decided alike. */
    ghost var alike: bool

    ghost function View(): Joint
      reads this, store, table
    {
      Joint(Eager(store.caps.Keys, store.forest, store.nextId), table.rows, link, age)
    }

    ghost predicate Valid()
      reads this, store, table
    {
      store.Valid() && (alike ==> Inv(View()))
    }

    constructor ()
      ensures Valid() && alike && View() == Start() && fresh(store) && fresh(table)
    {
      store := new CapabilityStore();
      table := new Lab.CapabilityTable();
      link, age, alike := map[], map[], true;
    }

    method Grant(x: Lab.LabId, subject: string, op: Lab.Op, scope: string,
                 owner: Agent, permissions: Permissions, resource: string, now: nat)
      requires Valid() && x !in table.rows && x !in link
      modifies this`link, this`age, store, table
      ensures Valid() && View() == Next(old(View()), Event.Grant(x, subject, op, scope))
    {
      ghost var j := View();
      if alike {
        StepInv(j, Event.Grant(x, subject, op, scope));
      }
      GrantBoth(x, subject, op, scope, owner, permissions, resource, now, j);
    }

    method GrantBoth(x: Lab.LabId, subject: string, op: Lab.Op, scope: string,
                     owner: Agent, permissions: Permissions, resource: string, now: nat, ghost j: Joint)
      requires store.Valid() && x !in table.rows && x !in link && j == View()
      modifies this`link, this`age, store, table
      ensures store.Valid() && View() == Next(j, Event.Grant(x, subject, op, scope))
    {
      age := age[x := |table.rows|];
      var ok := table.Grant(x, subject, op, scope, None);
      IssueRoot(x, owner, permissions, resource, now, j);
    }

    /** The store's part of a grant. */
    method IssueRoot(x: Lab.LabId, owner: Agent, permissions: Permissions, resource: string, now: nat, ghost j: Joint)
      requires store.Valid() && j.eager == Eager(store.caps.Keys, store.forest, store.nextId) && j.link == link
      modifies this`link, store
      ensures store.Valid() && Eager(store.caps.Keys, store.forest, store.nextId) == EagerAdd(j.eager, None)
      ensures link == j.link[x := j.eager.next]
    {
      var id := store.GrantRoot(owner, permissions, resource, now);
      link := link[x := id];
      assert store.caps.Keys == j.eager.live + {id};
    }

    /** The same derivation asked of both, whatever the rights mean to either. */
    method Derive(x: Lab.LabId, p: Lab.LabId, subject: string, op: Lab.Op, scope: string,
                  from: Agent, to: Agent, permissions: Permissions, resource: string, now: nat)
      returns (taken: bool, issued: bool, ghost e: Event)
      requires Valid() && x !in table.rows && x !in link
      modifies this, store, table
      ensures e.Derive? && e == Event.Derive(x, p, subject, op, scope, e.allowed)
      ensures old(Known(View(), p)) ==> (e.allowed <==> old(Delegable(store.caps[link[p]], from, permissions)))
      ensures Valid() && View() == Next(old(View()), e) && alike == (old(alike) && Alike(old(View()), e))
      ensures taken == TableTakes(old(View()), e) && issued == StoreTakes(old(View()), e)
    {
      ghost var j := View();
      e := Event.Derive(x, p, subject, op, scope, Known(j, p) && Delegable(store.caps[link[p]], from, permissions));
      alike := alike && Alike(j, e);
      if alike {
        StepInv(j, e);
      }
      taken, issued := DeriveBoth(x, p, subject, op, scope, from, to, permissions, resource, now, j, e);
    }

    method DeriveBoth(x: Lab.LabId, p: Lab.LabId, subject: string, op: Lab.Op, scope: string, from: Agent, to: Agent,
                      permissions: Permissions, resource: string, now: nat, ghost j: Joint, ghost e: Event)
      returns (taken: bool, issued: bool)
      requires store.Valid() && j == View() && e.Derive? && e == Event.Derive(x, p, subject, op, scope, e.allowed)
               && Enabled(j, e)
      requires Known(j, p) ==> (e.allowed <==> Delegable(store.caps[link[p]], from, permissions))
      modifies this`link, this`age, store, table
      ensures store.Valid() && View() == Next(j, e) && taken == TableTakes(j, e) && issued == StoreTakes(j, e)
    {
      ghost var more := age[x := |table.rows|];
      taken := table.Grant(x, subject, op, scope, Some(p));
      if taken {
        age := more;
      }
      issued := Issue(x, p, from, to, permissions, resource, now, j, e.allowed);
    }

    /** The store's part of a derivation. */
    method Issue(x: Lab.LabId, p: Lab.LabId, from: Agent, to: Agent, permissions: Permissions, resource: string,
                 now: nat, ghost j: Joint, ghost allowed: bool)
      returns (issued: bool)
      requires store.Valid() && j.eager == Eager(store.caps.Keys, store.forest, store.nextId) && j.link == link
      requires Known(j, p) ==> (allowed <==> Delegable(store.caps[link[p]], from, permissions))
      modifies this`link, store
      ensures store.Valid() && issued == (Known(j, p) && allowed)
      ensures Eager(store.caps.Keys, store.forest, store.nextId)
           == if issued then EagerAdd(j.eager, Some(j.link[p])) else j.eager
      ensures link == if issued then j.link[x := j.eager.next] else j.link
    {
      issued := false;
      if p in link {
        var r := store.Delegate(link[p], from, to, permissions, resource, now);
        if r.Ok? {
          link, issued := link[x := r.id], true;
          assert store.caps.Keys == j.eager.live + {r.id};
        }
      }
    }

    method Revoke(x: Lab.LabId)
      requires Valid()
      modifies store, table
      ensures Valid() && View() == Next(old(View()), Event.Revoke(x))
    {
      ghost var j := View();
      if alike {
        StepInv(j, Event.Revoke(x));
      }
      RevokeBoth(x, j);
    }

    method RevokeBoth(x: Lab.LabId, ghost j: Joint)
      requires store.Valid() && j == View()
      modifies store, table
      ensures store.Valid() && View() == Next(j, Event.Revoke(x))
    {
      var marked := table.Revoke(x);
      if x in link {
        var count := store.Revoke(link[x]);
        assert store.caps.Keys == EagerRevoke(j.eager, link[x]).live;
      }
    }

    /** What the table finds by walking up, the store finds by one lookup. */
    method Accepts(x: Lab.LabId) returns (walk: bool, lookup: bool)
      requires Valid()
      ensures walk == Lab.Accepts(table.rows, x) && lookup == (x in link && link[x] in store.caps)
      ensures alike ==> walk == lookup
    {
      if alike {
        InvAgreed(View());
      }
      walk := Lab.Accepts(table.rows, x);
      lookup := x in link && link[x] in store.caps;
      assert lookup == Known(View(), x);
    }
  }
}
