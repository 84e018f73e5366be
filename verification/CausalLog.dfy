/**
 The causal log: entries by content id, and a secondary index whose keys are byte strings that
 RocksDB keeps in byte order.
 */
module CausalLog {
  import opened Ledgers
  import opened CodecBytes

  type Id = seq<Byte>
  type IndexKey = seq<Byte>

  datatype Entry = Entry(agent: seq<Byte>, ts: nat, parents: seq<Id>, before: Id, after: Id)

  // ---------------------------------------------------------------- big-endian keys

  function ToBe(n: nat, w: nat): (s: seq<Byte>)
    ensures |s| == w
  {
    if w == 0 then [] else ToBe(n / 256, w - 1) + [n % 256]
  }

  function FromBe(s: seq<Byte>): nat {
    if s == [] then 0 else 256 * FromBe(s[..|s| - 1]) + s[|s| - 1]
  }

  lemma {:induction false} BeRoundTrip(n: nat, w: nat)
    requires n < Pow256(w)
    ensures FromBe(ToBe(n, w)) == n
  {
    if w > 0 {
      BeRoundTrip(n / 256, w - 1);
      assert ToBe(n, w)[..w - 1] == ToBe(n / 256, w - 1);
    }
  }

  /** With fronts of the same length, the backs only matter when the fronts are equal. */
  lemma {:induction false} CompareFronts(a: seq<Byte>, x: seq<Byte>, b: seq<Byte>, y: seq<Byte>)
    requires |a| == |b|
    ensures CompareBytes(a + x, b + y) == if a == b then CompareBytes(x, y) else CompareBytes(a, b)
  {
    if a == [] {
      assert a + x == x && b + y == y;
    } else {
      assert (a + x)[1..] == a[1..] + x && (b + y)[1..] == b[1..] + y;
      assert a == [a[0]] + a[1..] && b == [b[0]] + b[1..];
      CompareFronts(a[1..], x, b[1..], y);
    }
  }

  lemma CompareSame(a: seq<Byte>)
    ensures CompareBytes(a, a) == Equal
  {
    CompareBytesTotal(a, a);
  }

  /** Big-endian encodings of one width compare like the numbers. */
  lemma {:induction false} BeOrder(n: nat, m: nat, w: nat)
    requires n < Pow256(w) && m < Pow256(w)
    ensures CompareBytes(ToBe(n, w), ToBe(m, w)) == CompareInt(n, m)
  {
    if w > 0 {
      BeOrder(n / 256, m / 256, w - 1);
      CompareFronts(ToBe(n / 256, w - 1), [n % 256], ToBe(m / 256, w - 1), [m % 256]);
      CompareBytesTotal(ToBe(n / 256, w - 1), ToBe(m / 256, w - 1));
      assert n == 256 * (n / 256) + n % 256 && m == 256 * (m / 256) + m % 256;
    }
  }

  const TS_LIMIT: nat := Pow256(8)

  /** `agent_ts_key` */
  function KeyOf(agent: seq<Byte>, ts: nat, id: Id): IndexKey {
    agent + (ToBe(ts, 8) + id)
  }

  /** The order of index keys is agent, then time, then id. */
  lemma KeyOrder(a: seq<Byte>, t: nat, x: seq<Byte>, b: seq<Byte>, u: nat, y: seq<Byte>)
    requires |a| == |b| && t < TS_LIMIT && u < TS_LIMIT
    ensures CompareBytes(KeyOf(a, t, x), KeyOf(b, u, y))
         == if a != b then CompareBytes(a, b) else if t != u then CompareInt(t, u) else CompareBytes(x, y)
  {
    CompareFronts(a, ToBe(t, 8) + x, b, ToBe(u, 8) + y);
    CompareFronts(ToBe(t, 8), x, ToBe(u, 8), y);
    BeOrder(t, u, 8);
    CompareSame(ToBe(t, 8));
  }

  lemma KeyParts(agent: seq<Byte>, ts: nat, id: Id)
    requires |agent| == 16 && |id| == 32 && ts < TS_LIMIT
    ensures var k := KeyOf(agent, ts, id);
            |k| == 56 && k[..16] == agent && FromBe(k[16..24]) == ts && k[24..] == id
  {
    var k := KeyOf(agent, ts, id);
    assert k[16..24] == ToBe(ts, 8);
    BeRoundTrip(ts, 8);
  }

  // ---------------------------------------------------------------- the column families

  type Entries = map<Id, Entry>

  ghost predicate WellSized(entries: Entries) {
    forall i :: i in entries ==> |i| == 32 && |entries[i].agent| == 16 && entries[i].ts < TS_LIMIT
  }

  function IndexOf(entries: Entries): set<IndexKey> {
    set i | i in entries :: KeyOf(entries[i].agent, entries[i].ts, i)
  }

  lemma IndexAdd(entries: Entries, id: Id, entry: Entry)
    requires id in entries ==> entries[id] == entry
    ensures IndexOf(entries[id := entry]) == IndexOf(entries) + {KeyOf(entry.agent, entry.ts, id)}
    ensures id in entries ==> KeyOf(entry.agent, entry.ts, id) in IndexOf(entries)
  {
    var more, key := entries[id := entry], KeyOf(entry.agent, entry.ts, id);
    assert id in more && key == KeyOf(more[id].agent, more[id].ts, id);
    forall k | k in IndexOf(entries)
      ensures k in IndexOf(more)
    {
      var i :| i in entries && k == KeyOf(entries[i].agent, entries[i].ts, i);
      assert i in more && more[i] == entries[i];
    }
  }

  /** The actions of an agent with a time stamp in the inclusive range. */
  predicate InRange(entries: Entries, i: Id, agent: seq<Byte>, from: Option<nat>, to: Option<nat>) {
    && i in entries && entries[i].agent == agent
    && (from.Some? ==> from.value <= entries[i].ts)
    && (to.Some? ==> entries[i].ts <= to.value)
  }

  /** In order of time, then id; in particular no id comes twice. */
  ghost predicate InOrder(entries: Entries, ids: seq<Id>) {
    && (forall k :: 0 <= k < |ids| ==> ids[k] in entries)
    && (forall k, l :: 0 <= k < l < |ids| ==> Earlier(entries, ids[k], ids[l]))
  }

  predicate Earlier(entries: Entries, i: Id, j: Id)
    requires i in entries && j in entries
  {
    entries[i].ts < entries[j].ts || (entries[i].ts == entries[j].ts && CompareBytes(i, j) == Less)
  }

  predicate Below(a: IndexKey, b: IndexKey) {
    CompareBytes(a, b) != Greater
  }

  lemma BelowTrans(a: IndexKey, b: IndexKey, c: IndexKey)
    requires Below(a, b) && Below(b, c)
    ensures Below(a, c)
  {
    CompareBytesTotal(a, b);
    CompareBytesTotal(b, c);
    if a != b && b != c {
      CompareBytesTransitive(a, b, c);
    }
  }

  lemma {:induction false} LeastKey(s: set<IndexKey>) returns (k: IndexKey)
    requires s != {}
    ensures k in s && forall x :: x in s ==> Below(k, x)
    decreases |s|
  {
    k :| k in s;
    CompareSame(k);
    if s != {k} {
      assert s == (s - {k}) + {k};
      var rest := LeastKey(s - {k});
      CompareBytesTotal(k, rest);
      if CompareBytes(k, rest) == Greater {
        k := rest;
      } else {
        forall x | x in s - {k}
          ensures Below(k, x)
        {
          BelowTrans(k, rest, x);
        }
      }
    }
  }

  /** The id a key of the index stands for. */
  lemma KeyEntry(entries: Entries, k: IndexKey) returns (i: Id)
    requires WellSized(entries) && k in IndexOf(entries)
    ensures i in entries && k == KeyOf(entries[i].agent, entries[i].ts, i)
    ensures |k| == 56 && k[..16] == entries[i].agent && FromBe(k[16..24]) == entries[i].ts && k[24..] == i
  {
    i :| i in entries && k == KeyOf(entries[i].agent, entries[i].ts, i);
    KeyParts(entries[i].agent, entries[i].ts, i);
  }

  /** The entry is at or behind the position the iterator starts from. */
  lemma SeekOrder(entries: Entries, i: Id, agent: seq<Byte>, start: nat)
    requires WellSized(entries) && i in entries && |agent| == 16 && start < TS_LIMIT
    requires entries[i].agent == agent
    ensures Below(agent + ToBe(start, 8), KeyOf(agent, entries[i].ts, i)) <==> start <= entries[i].ts
  {
    KeyOrder(agent, start, [], agent, entries[i].ts, i);
    assert KeyOf(agent, start, []) == agent + ToBe(start, 8) by {
      assert ToBe(start, 8) + [] == ToBe(start, 8);
    }
  }

  /** A key behind the seek position with another agent is behind every key of this agent. */
  lemma OtherAgent(entries: Entries, i: Id, j: Id, agent: seq<Byte>, start: nat)
    requires WellSized(entries) && i in entries && j in entries && |agent| == 16 && start < TS_LIMIT
    requires entries[i].agent != agent && entries[j].agent == agent
    requires Below(agent + ToBe(start, 8), KeyOf(entries[i].agent, entries[i].ts, i))
    ensures !Below(KeyOf(entries[i].agent, entries[i].ts, i), KeyOf(agent, entries[j].ts, j))
  {
    KeyOrder(agent, start, [], entries[i].agent, entries[i].ts, i);
    assert KeyOf(agent, start, []) == agent + ToBe(start, 8) by {
      assert ToBe(start, 8) + [] == ToBe(start, 8);
    }
    KeyOrder(entries[i].agent, entries[i].ts, i, agent, entries[j].ts, j);
    CompareBytesTotal(agent, entries[i].agent);
  }

  lemma SameAgent(entries: Entries, i: Id, j: Id)
    requires WellSized(entries) && i in entries && j in entries && entries[i].agent == entries[j].agent
    ensures Below(KeyOf(entries[i].agent, entries[i].ts, i), KeyOf(entries[j].agent, entries[j].ts, j))
            <==> Earlier(entries, i, j) || i == j
  {
    KeyOrder(entries[i].agent, entries[i].ts, i, entries[j].agent, entries[j].ts, j);
    CompareBytesTotal(i, j);
  }

  // ---------------------------------------------------------------- the range query

  /** What the iterator has still to yield, and what the loop has collected. */
  ghost predicate Scanned(entries: Entries, agent: seq<Byte>, from: Option<nat>, to: Option<nat>,
                          rest: set<IndexKey>, ids: seq<Id>)
  {
    && rest <= IndexOf(entries)
    && InOrder(entries, ids)
    && (forall k :: 0 <= k < |ids| ==> InRange(entries, ids[k], agent, from, to))
    && (forall i :: InRange(entries, i, agent, from, to) ==> i in ids || KeyOf(agent, entries[i].ts, i) in rest)
    && (forall k, x :: 0 <= k < |ids| && x in rest ==> Below(KeyOf(agent, entries[ids[k]].ts, ids[k]), x))
    && (forall k :: 0 <= k < |ids| ==> KeyOf(agent, entries[ids[k]].ts, ids[k]) !in rest)
  }

  lemma OrderNext(entries: Entries, agent: seq<Byte>, from: Option<nat>, to: Option<nat>,
                  rest: set<IndexKey>, ids: seq<Id>, key: IndexKey, i: Id, now: seq<Id>)
    requires WellSized(entries) && Scanned(entries, agent, from, to, rest, ids) && now == ids + [i]
    requires key in rest && (forall x :: x in rest ==> Below(key, x))
    requires InRange(entries, i, agent, from, to) && key == KeyOf(agent, entries[i].ts, i)
    ensures InOrder(entries, now) && forall k :: 0 <= k < |now| ==> InRange(entries, now[k], agent, from, to)
  {
    forall k | 0 <= k < |ids|
      ensures Earlier(entries, ids[k], i)
    {
      SameAgent(entries, ids[k], i);
    }
  }

  lemma CoverNext(entries: Entries, agent: seq<Byte>, from: Option<nat>, to: Option<nat>,
                  rest: set<IndexKey>, ids: seq<Id>, key: IndexKey, i: Id, now: seq<Id>)
    requires WellSized(entries) && Scanned(entries, agent, from, to, rest, ids) && now == ids + [i]
    requires key in rest && (forall x :: x in rest ==> Below(key, x))
    requires InRange(entries, i, agent, from, to) && key == KeyOf(agent, entries[i].ts, i)
    ensures forall j :: InRange(entries, j, agent, from, to) ==>
              j in now || KeyOf(agent, entries[j].ts, j) in rest - {key}
  {
    forall j | InRange(entries, j, agent, from, to) && j !in now
      ensures KeyOf(agent, entries[j].ts, j) in rest - {key}
    {
      if KeyOf(agent, entries[j].ts, j) == key {
        KeyParts(agent, entries[j].ts, j);
        KeyParts(agent, entries[i].ts, i);
      }
    }
  }

  lemma BehindNext(entries: Entries, agent: seq<Byte>, from: Option<nat>, to: Option<nat>,
                   rest: set<IndexKey>, ids: seq<Id>, key: IndexKey, i: Id, now: seq<Id>)
    requires WellSized(entries) && Scanned(entries, agent, from, to, rest, ids) && now == ids + [i]
    requires key in rest && (forall x :: x in rest ==> Below(key, x))
    requires InRange(entries, i, agent, from, to) && key == KeyOf(agent, entries[i].ts, i)
    ensures forall k, x :: 0 <= k < |now| && now[k] in entries && x in rest - {key} ==>
              Below(KeyOf(agent, entries[now[k]].ts, now[k]), x)
    ensures forall k :: 0 <= k < |now| && now[k] in entries ==>
              KeyOf(agent, entries[now[k]].ts, now[k]) !in rest - {key}
  {
    assert forall k :: 0 <= k < |now| ==> now[k] == if k < |ids| then ids[k] else i;
  }

  lemma ScannedNext(entries: Entries, agent: seq<Byte>, from: Option<nat>, to: Option<nat>,
                    rest: set<IndexKey>, ids: seq<Id>, key: IndexKey, i: Id)
    requires WellSized(entries) && Scanned(entries, agent, from, to, rest, ids)
    requires key in rest && (forall x :: x in rest ==> Below(key, x))
    requires InRange(entries, i, agent, from, to) && key == KeyOf(agent, entries[i].ts, i)
    ensures Scanned(entries, agent, from, to, rest - {key}, ids + [i])
  {
    var now := ids + [i];
    OrderNext(entries, agent, from, to, rest, ids, key, i, now);
    CoverNext(entries, agent, from, to, rest, ids, key, i, now);
    BehindNext(entries, agent, from, to, rest, ids, key, i, now);
  }

  /** After a key of another agent there is nothing of this agent left. */
  lemma ScannedOther(entries: Entries, agent: seq<Byte>, from: Option<nat>, to: Option<nat>,
                     rest: set<IndexKey>, ids: seq<Id>, key: IndexKey, i: Id, start: nat)
    requires WellSized(entries) && Scanned(entries, agent, from, to, rest, ids)
    requires key in rest && (forall x :: x in rest ==> Below(key, x))
    requires i in entries && key == KeyOf(entries[i].agent, entries[i].ts, i) && entries[i].agent != agent
    requires |agent| == 16 && start < TS_LIMIT && Below(agent + ToBe(start, 8), key)
    ensures forall j :: InRange(entries, j, agent, from, to) ==> j in ids
  {
    forall j | InRange(entries, j, agent, from, to)
      ensures j in ids
    {
      OtherAgent(entries, i, j, agent, start);
    }
  }

  /** After a key that is too late there is nothing early enough left. */
  lemma ScannedLate(entries: Entries, agent: seq<Byte>, from: Option<nat>, to: nat,
                    rest: set<IndexKey>, ids: seq<Id>, key: IndexKey, i: Id)
    requires WellSized(entries) && Scanned(entries, agent, from, Some(to), rest, ids)
    requires key in rest && (forall x :: x in rest ==> Below(key, x))
    requires i in entries && key == KeyOf(agent, entries[i].ts, i) && entries[i].agent == agent && entries[i].ts > to
    ensures forall j :: InRange(entries, j, agent, from, Some(to)) ==> j in ids
  {
    forall j | InRange(entries, j, agent, from, Some(to))
      ensures j in ids
    {
      SameAgent(entries, i, j);
    }
  }

  class Log {
    var entries: Entries
    var index: set<IndexKey>

    ghost predicate Valid()
      reads this
    {
      WellSized(entries) && index == IndexOf(entries)
    }

    constructor ()
      ensures Valid() && entries == map[]
    {
      entries, index := map[], {};
    }

    /** `append`: both column families in one batch.  `id` is the hash of the entry, taken as injective. */
    method Append(id: Id, entry: Entry)
      requires Valid() && |id| == 32 && |entry.agent| == 16 && entry.ts < TS_LIMIT
      requires id in entries ==> entries[id] == entry
      modifies this
      ensures Valid() && entries == old(entries)[id := entry]
      ensures id in old(entries) ==> entries == old(entries) && index == old(index)
    {
      var key := KeyOf(entry.agent, entry.ts, id);
      IndexAdd(entries, id, entry);
      entries := entries[id := entry];
      index := index + {key};
    }

    /** `query_by_agent_range` */
    method Query(agent: seq<Byte>, from: Option<nat>, to: Option<nat>) returns (ids: seq<Id>)
      requires Valid() && |agent| == 16 && (from.Some? ==> from.value < TS_LIMIT)
      ensures InOrder(entries, ids)
      ensures forall i :: i in ids <==>
                && i in entries && entries[i].agent == agent
                && (from.Some? ==> from.value <= entries[i].ts) && (to.Some? ==> entries[i].ts <= to.value)
    {
      ids := Collect(agent, from, to);
    }

    method Collect(agent: seq<Byte>, from: Option<nat>, to: Option<nat>) returns (ids: seq<Id>)
      requires Valid() && |agent| == 16 && (from.Some? ==> from.value < TS_LIMIT)
      ensures InOrder(entries, ids)
      ensures forall i :: i in ids <==> InRange(entries, i, agent, from, to)
    {
      var start := if from.Some? then from.value else 0;
      var seek := agent + ToBe(start, 8);
      var rest := set k | k in index && Below(seek, k);
      ids := [];
      forall i | InRange(entries, i, agent, from, to)
        ensures KeyOf(agent, entries[i].ts, i) in rest
      {
        assert KeyOf(entries[i].agent, entries[i].ts, i) in IndexOf(entries);
        SeekOrder(entries, i, agent, start);
      }
      while rest != {}
        invariant Scanned(entries, agent, from, to, rest, ids)
        invariant forall k :: k in rest ==> Below(seek, k)
      {
        ghost var least := LeastKey(rest);
        var key :| key in rest && forall x :: x in rest ==> Below(key, x);
        ghost var i := KeyEntry(entries, key);
        if |key| != 56 || key[..16] != agent {
          ScannedOther(entries, agent, from, to, rest, ids, key, i, start);
          return;
        }
        if to.Some? && FromBe(key[16..24]) > to.value {
          ScannedLate(entries, agent, from, to.value, rest, ids, key, i);
          return;
        }
        SeekOrder(entries, i, agent, start);
        ScannedNext(entries, agent, from, to, rest, ids, key, i);
        ids := ids + [key[24..]];
        rest := rest - {key};
      }
    }

    /** `entries_by_agent`: the full scan the index must agree with. */
    method Scan(agent: seq<Byte>) returns (ids: seq<Id>)
      requires Valid()
      ensures forall i :: i in ids <==> i in entries && entries[i].agent == agent
      ensures forall i :: i in ids <==> InRange(entries, i, agent, None, None)
      ensures forall k, l :: 0 <= k < l < |ids| ==> ids[k] != ids[l]
    {
      ids := [];
      var rest := entries.Keys;
      while rest != {}
        invariant rest <= entries.Keys
        invariant forall i :: i in ids <==> InRange(entries, i, agent, None, None) && i !in rest
        invariant forall k, l :: 0 <= k < l < |ids| ==> ids[k] != ids[l]
      {
        var i :| i in rest;
        if entries[i].agent == agent {
          assert i !in ids;
          ids := ids + [i];
        }
        rest := rest - {i};
      }
    }
  }
}
