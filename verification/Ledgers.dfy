/**
 Page ledgers of the redb transaction layer.

 The system tables `data_pages_unreachable`, `system_pages_unreachable` and
 `data_pages_allocated` list pages under the id of the transaction that stopped (or started)
 using them.  A page is listed at most once per table, so a ledger is a map from the page to
 that transaction id.
 */
module Ledgers {

  type Page = nat
  type Tid = nat
  type Ledger = map<Page, Tid>

  datatype Option<+T> = None | Some(value: T)

  /** Pages listed strictly after transaction `t`. */
  function After(l: Ledger, t: Tid): set<Page> {
    set p | p in l && l[p] > t
  }

  /** Pages listed strictly before transaction `t`. */
  function Before(l: Ledger, t: Tid): set<Page> {
    set p | p in l && l[p] < t
  }

  /** `extract_from_if(..key)`: what is left once every entry before `t` is taken out. */
  function KeepFrom(l: Ledger, t: Tid): Ledger {
    map p | p in l && l[p] >= t :: l[p]
  }

  /** `extract_from_if(key..)`: what is left once every entry after `t` is taken out. */
  function KeepThrough(l: Ledger, t: Tid): Ledger {
    map p | p in l && l[p] <= t :: l[p]
  }

  function Drop(l: Ledger, ps: set<Page>): Ledger {
    map p | p in l && p !in ps :: l[p]
  }

  /** All pages of `ps` listed under transaction `t`. */
  function Tag(ps: set<Page>, t: Tid): Ledger {
    map p | p in ps :: t
  }

  lemma MinExists(s: set<nat>) returns (m: nat)
    requires s != {}
    ensures m in s && forall x :: x in s ==> m <= x
  {
    var x :| x in s;
    if s == {x} {
      m := x;
    } else {
      var rest := s - {x};
      assert s == rest + {x};
      var k := MinExists(rest);
      m := if k < x then k else x;
    }
  }

  /** The smallest element, as `BTreeMap::keys().next()` finds it. */
  ghost function Min(s: set<nat>): (m: nat)
    requires s != {}
    ensures m in s && forall x :: x in s ==> m <= x
  {
    assert exists m :: m in s && forall x :: x in s ==> m <= x by {
      var m := MinExists(s);
    }
    var m :| m in s && forall x :: x in s ==> m <= x;
    m
  }
}
