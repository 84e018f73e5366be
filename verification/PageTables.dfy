/**
 The freed and allocated page tables as they are stored: lists of at most 400 (data) or 200
 (system) pages under a (transaction, pagination) key, and the loops that fill and drain them.
 */
module PageTables {
  import opened Ledgers

  const DATA_CHUNK: nat := 400
  const SYSTEM_CHUNK: nat := 200

  /** `TransactionIdWithPagination` */
  datatype Key = Key(tid: Tid, pagination: nat)

  type Table = map<Key, seq<Page>>

  ghost predicate NoDuplicates(pages: seq<Page>) {
    forall i, j :: 0 <= i < j < |pages| ==> pages[i] != pages[j]
  }

  function Elements(pages: seq<Page>): set<Page> {
    set p | p in pages
  }

  /** No page is listed twice, in one list or across lists. */
  ghost predicate Distinct(t: Table) {
    && (forall k :: k in t ==> NoDuplicates(t[k]))
    && (forall k, m, p {:trigger p in t[k], p in t[m]} :: k in t && m in t && p in t[k] && p in t[m] ==> k == m)
  }

  ghost predicate Lists(t: Table, p: Page) {
    exists k :: k in t && p in t[k]
  }

  /** The table lists exactly the pages of the ledger, each once and under its transaction. */
  ghost predicate Represents(t: Table, l: Ledger) {
    && Distinct(t)
    && (forall k, p {:trigger p in t[k]} :: k in t && p in t[k] ==> p in l && l[p] == k.tid)
    && (forall p :: p in l ==> Lists(t, p))
  }

  /** The pagination keys of a transaction have no gaps, so the `get` loop over them sees all. */
  ghost predicate Contiguous(t: Table, tid: Tid) {
    forall n: nat, m: nat :: Key(tid, n) in t && m < n ==> Key(tid, m) in t
  }

  lemma AddList(t: Table, l: Ledger, k: Key, list: seq<Page>)
    requires Represents(t, l) && k !in t
    requires NoDuplicates(list) && Elements(list) !! l.Keys
    ensures Represents(t[k := list], l + Tag(Elements(list), k.tid))
  {
    var u, m := t[k := list], l + Tag(Elements(list), k.tid);
    assert forall p :: p in list ==> p in Elements(list) && p !in l;
    forall p | p in m
      ensures Lists(u, p)
    {
      if p in list {
        assert k in u && p in u[k];
      } else {
        assert Lists(t, p);
        var q :| q in t && p in t[q];
        assert q in u && p in u[q];
      }
    }
  }

  lemma SplitPages(pages: seq<Page>, low: nat, high: nat)
    requires low <= high <= |pages| && NoDuplicates(pages)
    ensures NoDuplicates(pages[low..high])
    ensures Elements(pages[low..high]) !! Elements(pages[high..])
    ensures Elements(pages[low..high]) + Elements(pages[high..]) == Elements(pages[low..])
    ensures Elements(pages[low..]) <= Elements(pages)
  {
    assert pages[low..] == pages[low..high] + pages[high..];
  }

  lemma TagUnion(l: Ledger, done: set<Page>, more: set<Page>, all: set<Page>, id: Tid)
    requires more + done == all
    ensures l + Tag(done, id) + Tag(more, id) == l + Tag(all, id)
    ensures (l + Tag(done, id)).Keys == l.Keys + done
  {
  }

  lemma AddListTagged(t: Table, l: Ledger, id: Tid, n: nat, list: seq<Page>, done: set<Page>, all: set<Page>)
    requires Represents(t, l + Tag(done, id)) && Key(id, n) !in t
    requires NoDuplicates(list) && Elements(list) !! done && Elements(list) + done == all && all !! l.Keys
    ensures Represents(t[Key(id, n) := list], l + Tag(all, id))
  {
    TagUnion(l, done, Elements(list), all, id);
    AddList(t, l + Tag(done, id), Key(id, n), list);
  }

  /** `t` is `table` plus the entries 0 to n - 1 of transaction `id`, none too long. */
  ghost predicate Extended(t: Table, table: Table, id: Tid, n: nat, chunk: nat) {
    && (forall k :: k in table ==> k in t && t[k] == table[k])
    && (forall k :: k in t && k !in table ==> k.tid == id && k.pagination < n && |t[k]| <= chunk)
    && (forall m: nat :: m < n ==> Key(id, m) in t)
  }

  lemma ExtendOnce(t: Table, table: Table, id: Tid, n: nat, chunk: nat, list: seq<Page>)
    requires Extended(t, table, id, n, chunk) && |list| <= chunk
    requires forall k :: k in table ==> k.tid != id
    ensures Key(id, n) !in t
    ensures Extended(t[Key(id, n) := list], table, id, n + 1, chunk)
  {
  }

  /** What is kept of the pages behind position `low` once those of `divert` are set aside. */
  function Kept(pages: seq<Page>, low: nat, divert: set<Page>): set<Page>
    requires low <= |pages|
  {
    Elements(pages[low..]) - divert
  }

  function Diverted(pages: seq<Page>, low: nat, divert: set<Page>): set<Page>
    requires low <= |pages|
  {
    Elements(pages[low..]) * divert
  }

  /** `kept` and `aside` split `pages`, each page going to one of them. */
  ghost predicate Splits(pages: seq<Page>, divert: set<Page>, kept: seq<Page>, aside: seq<Page>) {
    && NoDuplicates(kept) && Elements(kept) == Elements(pages) - divert && |kept| <= |pages|
    && NoDuplicates(aside) && Elements(aside) == Elements(pages) * divert
  }

  lemma ElementsAdd(pages: seq<Page>, p: Page)
    ensures Elements(pages + [p]) == Elements(pages) + {p}
    ensures NoDuplicates(pages) && p !in pages ==> NoDuplicates(pages + [p])
  {
  }

  lemma SplitsAdd(pages: seq<Page>, divert: set<Page>, kept: seq<Page>, aside: seq<Page>, p: Page)
    requires Splits(pages, divert, kept, aside) && p !in pages
    ensures p in divert ==> Splits(pages + [p], divert, kept, aside + [p])
    ensures p !in divert ==> Splits(pages + [p], divert, kept + [p], aside)
  {
    ElementsAdd(pages, p);
    ElementsAdd(kept, p);
    ElementsAdd(aside, p);
    assert p !in Elements(pages);
    assert p in kept <==> p in Elements(kept);
    assert p in aside <==> p in Elements(aside);
  }

  method SplitList(pages: seq<Page>, divert: set<Page>) returns (kept: seq<Page>, aside: seq<Page>)
    requires NoDuplicates(pages)
    ensures Splits(pages, divert, kept, aside)
  {
    kept, aside := [], [];
    for i := 0 to |pages|
      invariant Splits(pages[..i], divert, kept, aside)
    {
      assert pages[..i + 1] == pages[..i] + [pages[i]];
      SplitsAdd(pages[..i], divert, kept, aside, pages[i]);
      if pages[i] in divert {
        aside := aside + [pages[i]];
      } else {
        kept := kept + [pages[i]];
      }
    }
    assert pages[..|pages|] == pages;
  }

  lemma JoinAside(aside: seq<Page>, more: seq<Page>)
    requires NoDuplicates(aside) && NoDuplicates(more) && Elements(aside) !! Elements(more)
    ensures NoDuplicates(aside + more) && Elements(aside + more) == Elements(aside) + Elements(more)
  {
    forall i, j | 0 <= i < j < |aside + more|
      ensures (aside + more)[i] != (aside + more)[j]
    {
      if i < |aside| <= j {
        assert (aside + more)[i] in Elements(aside) && (aside + more)[j] in Elements(more);
      }
    }
  }

  lemma StoreChunk(t: Table, table: Table, l: Ledger, id: Tid, pages: seq<Page>, low: nat, high: nat, n: nat,
                   divert: set<Page>, kept: seq<Page>, aside: seq<Page>)
    requires low <= high <= |pages| && NoDuplicates(pages) && Elements(pages) !! l.Keys
    requires Represents(t, l + Tag(Kept(pages, high, divert), id)) && Key(id, n) !in t
    requires Splits(pages[low..high], divert, kept, aside)
    ensures Represents(t[Key(id, n) := kept], l + Tag(Kept(pages, low, divert), id))
    ensures Diverted(pages, high, divert) !! Elements(aside)
    ensures Diverted(pages, low, divert) == Diverted(pages, high, divert) + Elements(aside)
  {
    SplitPages(pages, low, high);
    AddListTagged(t, l, id, n, kept, Kept(pages, high, divert), Kept(pages, low, divert));
  }

  /**
   `store_data_freed_pages`, `store_allocated_pages` and `store_system_freed_pages`: drain the
   pages from the back in chunks, one table entry per chunk.  In a non-durable commit the system
   pages that are not persisted yet are set aside instead of listed.
   */
  method StorePages(table: Table, id: Tid, pages: seq<Page>, chunk: nat, divert: set<Page>, ghost l: Ledger)
    returns (t: Table, aside: seq<Page>, n: nat)
    requires Represents(table, l) && chunk > 0
    requires NoDuplicates(pages) && Elements(pages) !! l.Keys
    requires forall k :: k in table ==> k.tid != id
    ensures Represents(t, l + Tag(Elements(pages) - divert, id))
    ensures NoDuplicates(aside) && Elements(aside) == Elements(pages) * divert
    ensures Extended(t, table, id, n, chunk)
  {
    t, aside, n := table, [], 0;
    var len: nat := |pages|;
    assert l + Tag(Kept(pages, len, divert), id) == l;
    while len > 0
      invariant len <= |pages|
      invariant Represents(t, l + Tag(Kept(pages, len, divert), id))
      invariant Extended(t, table, id, n, chunk)
      invariant NoDuplicates(aside) && Elements(aside) == Diverted(pages, len, divert)
    {
      var low := len - if len < chunk then len else chunk;
      SplitPages(pages, low, len);
      var kept, more := SplitList(pages[low..len], divert);
      ExtendOnce(t, table, id, n, chunk, kept);
      StoreChunk(t, table, l, id, pages, low, len, n, divert, kept, more);
      JoinAside(aside, more);
      t, aside := t[Key(id, n) := kept], aside + more;
      len, n := low, n + 1;
    }
    assert pages[len..] == pages;
  }

  // ---------------------------------------------------------------- draining

  lemma RemoveList(t: Table, l: Ledger, k: Key)
    requires Represents(t, l) && k in t
    ensures Represents(t - {k}, Drop(l, Elements(t[k])))
    ensures NoDuplicates(t[k])
    ensures forall p :: p in Elements(t[k]) ==> p in l && l[p] == k.tid
  {
    var u, m := t - {k}, Drop(l, Elements(t[k]));
    forall p | p in m
      ensures Lists(u, p)
    {
      var q :| q in t && p in t[q];
      assert q in u && p in u[q];
    }
  }

  lemma MarkNext(todo: Ledger, done: set<Page>, all: set<Page>, next: set<Page>, start: set<Page>)
    requires todo.Keys !! done && todo.Keys + done == all && (forall p :: p in next ==> p in todo) && all !! start
    ensures next !! start + done && start + done + next == start + (done + next)
    ensures Drop(todo, next).Keys !! done + next && Drop(todo, next).Keys + (done + next) == all
    ensures next !! done && next <= all
  {
  }

  lemma OneEntryLess(t: Table, k: Key)
    requires k in t
    ensures |t - {k}| < |t|
  {
    assert (t - {k}).Keys == t.Keys - {k};
  }

  lemma EmptyTable(l: Ledger)
    requires Represents(map[], l)
    ensures l.Keys == {}
  {
    assert forall p :: p in l ==> Lists(map[], p);
  }

  /** A list loses some of its pages, the empty list may stay or go. */
  lemma ShrinkList(t: Table, l: Ledger, k: Key, list: seq<Page>, gone: set<Page>)
    requires Represents(t, l) && k in t
    requires NoDuplicates(list) && Elements(list) == Elements(t[k]) - gone && gone <= Elements(t[k])
    ensures Represents(t[k := list], Drop(l, gone))
    ensures list == [] ==> Represents(t - {k}, Drop(l, gone))
  {
    RemoveList(t, l, k);
    var m := Drop(l, Elements(t[k]));
    assert Drop(l, gone) == m + Tag(Elements(list), k.tid);
    assert (t - {k})[k := list] == t[k := list];
    AddList(t - {k}, m, k, list);
    if list == [] {
      assert Elements(list) == {};
      assert Drop(l, gone) == m;
    }
  }

  /** The page sets of `TransactionalMemory`. */
  class Memory {
    var alloc: set<Page>
    var uncommitted: set<Page>
    var unpersisted: set<Page>

    constructor (a: set<Page>)
      ensures alloc == a && uncommitted == {} && unpersisted == {}
    {
      alloc, uncommitted, unpersisted := a, {}, {};
    }

    /** The allocator hands out those of the wanted pages that are not in use. */
    method Allocate(wanted: set<Page>) returns (got: set<Page>)
      modifies this`alloc, this`uncommitted
      ensures got == wanted - old(alloc)
      ensures alloc == old(alloc) + got && uncommitted == old(uncommitted) + got
    {
      got := wanted - alloc;
      alloc, uncommitted := alloc + got, uncommitted + got;
    }

    /** The root is on disk: nothing is uncommitted or unpersisted any more. */
    method Commit()
      modifies this`uncommitted, this`unpersisted
      ensures uncommitted == {} && unpersisted == {}
    {
      uncommitted, unpersisted := {}, {};
    }

    method CommitInMemory()
      modifies this`uncommitted, this`unpersisted
      ensures uncommitted == {} && unpersisted == old(unpersisted) + old(uncommitted)
    {
      uncommitted, unpersisted := {}, unpersisted + uncommitted;
    }

    method Rollback()
      modifies this`alloc, this`uncommitted
      ensures alloc == old(alloc) - old(uncommitted) && uncommitted == {}
    {
      alloc, uncommitted := alloc - uncommitted, {};
    }

    /** Freeing a page that is not allocated is a double free, so it is ruled out. */
    method Free(p: Page)
      requires p in alloc
      modifies this`alloc
      ensures alloc == old(alloc) - {p}
    {
      alloc := alloc - {p};
    }

    method Clear()
      modifies this
      ensures alloc == {} && uncommitted == {} && unpersisted == {}
    {
      alloc, uncommitted, unpersisted := {}, {}, {};
    }

    /** `mark_page_allocated` insists that the page was not marked before. */
    method Mark(p: Page)
      requires p !in alloc
      modifies this`alloc
      ensures alloc == old(alloc) + {p}
    {
      alloc := alloc + {p};
    }

    method MarkList(list: seq<Page>)
      requires NoDuplicates(list) && Elements(list) !! alloc
      modifies this`alloc
      ensures alloc == old(alloc) + Elements(list)
    {
      for i := 0 to |list|
        invariant alloc == old(alloc) + Elements(list[..i])
      {
        assert list[..i + 1] == list[..i] + [list[i]];
        ElementsAdd(list[..i], list[i]);
        assert list[i] in Elements(list) && list[i] !in Elements(list[..i]);
        Mark(list[i]);
      }
      assert list[..|list|] == list;
    }

    /** `visit_freed_tree` with the marking visitor. */
    method MarkTable(table: Table, ghost l: Ledger)
      requires Represents(table, l) && l.Keys !! alloc
      modifies this`alloc
      ensures alloc == old(alloc) + l.Keys
    {
      var rest := table;
      ghost var todo, done, start := l, {}, alloc;
      while rest != map[]
        invariant Represents(rest, todo) && todo.Keys !! done && todo.Keys + done == l.Keys
        invariant alloc == start + done
        decreases |rest|
      {
        var k :| k in rest;
        RemoveList(rest, todo, k);
        OneEntryLess(rest, k);
        MarkNext(todo, done, l.Keys, Elements(rest[k]), start);
        MarkList(rest[k]);
        todo, done, rest := Drop(todo, Elements(rest[k])), done + Elements(rest[k]), rest - {k};
      }
      EmptyTable(todo);
    }

    method FreeIfUnpersisted(p: Page) returns (freed: bool)
      requires p in alloc
      modifies this`alloc, this`unpersisted
      ensures freed == (p in old(unpersisted))
      ensures alloc == if freed then old(alloc) - {p} else old(alloc)
      ensures unpersisted == old(unpersisted) - {p}
    {
      freed := p in unpersisted;
      if freed {
        unpersisted := unpersisted - {p};
        Free(p);
      }
    }

    method FreeList(list: seq<Page>)
      requires NoDuplicates(list) && Elements(list) <= alloc
      modifies this`alloc
      ensures alloc == old(alloc) - Elements(list)
    {
      for i := 0 to |list|
        invariant alloc == old(alloc) - Elements(list[..i])
      {
        assert list[..i + 1] == list[..i] + [list[i]];
        ElementsAdd(list[..i], list[i]);
        assert list[i] in Elements(list) && list[i] !in Elements(list[..i]);
        Free(list[i]);
      }
      assert list[..|list|] == list;
    }

    /** Pages of the running transaction go back to the allocator at once. */
    method FreeUncommitted(list: seq<Page>)
      requires NoDuplicates(list) && Elements(list) <= uncommitted <= alloc
      modifies this`alloc, this`uncommitted
      ensures alloc == old(alloc) - Elements(list) && uncommitted == old(uncommitted) - Elements(list)
    {
      for i := 0 to |list|
        invariant alloc == old(alloc) - Elements(list[..i]) && uncommitted == old(uncommitted) - Elements(list[..i])
      {
        assert list[..i + 1] == list[..i] + [list[i]];
        ElementsAdd(list[..i], list[i]);
        assert list[i] in Elements(list) && list[i] !in Elements(list[..i]);
        uncommitted := uncommitted - {list[i]};
        Free(list[i]);
      }
      assert list[..|list|] == list;
    }

    method FreeUnpersisted(list: seq<Page>) returns (kept: seq<Page>)
      requires NoDuplicates(list) && Elements(list) <= alloc
      modifies this`alloc, this`unpersisted
      ensures NoDuplicates(kept) && Elements(kept) == Elements(list) - old(unpersisted) && |kept| <= |list|
      ensures |kept| == |list| ==> kept == list && Elements(list) !! old(unpersisted)
      ensures alloc == old(alloc) - Elements(list) * old(unpersisted)
      ensures unpersisted == old(unpersisted) - Elements(list)
    {
      kept := [];
      ghost var gone: seq<Page> := [];
      for i := 0 to |list|
        invariant Splits(list[..i], old(unpersisted), kept, gone)
        invariant alloc == old(alloc) - Elements(gone)
        invariant unpersisted == old(unpersisted) - Elements(list[..i])
        invariant |kept| <= i && (|kept| == i ==> kept == list[..i] && gone == [])
      {
        assert list[..i + 1] == list[..i] + [list[i]];
        ElementsAdd(list[..i], list[i]);
        SplitsAdd(list[..i], old(unpersisted), kept, gone, list[i]);
        assert list[i] in Elements(list) && list[i] !in Elements(list[..i]);
        var freed := FreeIfUnpersisted(list[i]);
        if freed {
          ElementsAdd(gone, list[i]);
          gone := gone + [list[i]];
        } else {
          kept := kept + [list[i]];
        }
      }
      assert list[..|list|] == list;
    }
  }

  lemma DropMore(l: Ledger, gone: set<Page>, more: set<Page>)
    ensures Drop(Drop(l, gone), more) == Drop(l, gone + more)
  {
  }

  lemma DrainedBefore(t: Table, l: Ledger, gone: set<Page>, until: Tid)
    requires Represents(t, Drop(l, gone)) && gone <= Before(l, until)
    requires forall k :: k in t ==> k.tid >= until
    ensures gone == Before(l, until) && Drop(l, gone) == KeepFrom(l, until)
  {
    forall p | p in Drop(l, gone)
      ensures l[p] >= until
    {
      assert Lists(t, p);
    }
  }

  /** One table of `process_freed_pages`: every list before `until` is taken out and freed. */
  method ReleaseBefore(mem: Memory, table: Table, until: Tid, ghost l: Ledger) returns (t: Table)
    requires Represents(table, l) && l.Keys <= mem.alloc
    modifies mem`alloc
    ensures Represents(t, KeepFrom(l, until))
    ensures mem.alloc == old(mem.alloc) - Before(l, until)
    ensures t == map k | k in table && k.tid >= until :: table[k]
  {
    t := table;
    ghost var gone: set<Page> := {};
    assert Drop(l, gone) == l;
    var keys := set k | k in table && k.tid < until;
    while keys != {}
      invariant Filtered(t, table, keys, until)
      invariant gone <= Before(l, until)
      invariant Represents(t, Drop(l, gone))
      invariant mem.alloc == old(mem.alloc) - gone
    {
      var k :| k in keys;
      RemoveList(t, Drop(l, gone), k);
      DropMore(l, gone, Elements(t[k]));
      FilteredNext(t, table, keys, until, k);
      mem.FreeList(t[k]);
      gone, t, keys := gone + Elements(t[k]), t - {k}, keys - {k};
    }
    DrainedBefore(t, l, gone, until);
  }

  /** What is left of `table` is everything from `until` on, and the entries `keys`. */
  ghost predicate Filtered(t: Table, table: Table, keys: set<Key>, until: Tid) {
    && (forall k :: k in keys ==> k in table && k.tid < until)
    && (forall k :: k in t <==> k in table && (k.tid >= until || k in keys))
    && (forall k :: k in t ==> t[k] == table[k])
  }

  lemma FilteredNext(t: Table, table: Table, keys: set<Key>, until: Tid, k: Key)
    requires Filtered(t, table, keys, until) && k in keys
    ensures Filtered(t - {k}, table, keys - {k}, until) && k in t && k.tid < until
  {
  }

  // ---------------------------------------------------------------- draining between durable commits

  /** Pages listed under one of the transactions `ids`. */
  function Under(l: Ledger, ids: set<Tid>): set<Page> {
    set p | p in l && l[p] in ids
  }

  /** Either the `get` loop sees every list of `tid`, or there is nothing left in them to free. */
  ghost predicate Drainable(t: Table, tid: Tid, volatile: set<Page>) {
    Contiguous(t, tid) || forall k :: k in t && k.tid == tid ==> Elements(t[k]) !! volatile
  }

  lemma ShrunkUnder(l: Ledger, k: Key, list: seq<Page>, tid: Tid, gone: set<Page>, volatile: set<Page>)
    requires k.tid == tid && gone <= Under(l, {tid})
    requires forall p :: p in Elements(list) ==> p in Drop(l, gone) && Drop(l, gone)[p] == tid
    ensures gone + Elements(list) * volatile <= Under(l, {tid})
  {
  }

  lemma AllUnder(t: Table, l: Ledger, tid: Tid, gone: set<Page>, volatile: set<Page>)
    requires Represents(t, Drop(l, gone)) && gone <= Under(l, {tid}) * volatile
    requires forall k :: k in t && k.tid == tid ==> Elements(t[k]) !! volatile
    ensures gone == Under(l, {tid}) * volatile
  {
    forall p | p in Drop(l, gone) && l[p] == tid
      ensures p !in volatile
    {
      assert Lists(t, p);
      var k :| k in t && p in t[k];
      assert k.tid == tid && p in Elements(t[k]);
    }
  }

  /** `t` is `table` except that the lists of `tid` from 0 to n - 1 lost their volatile pages. */
  ghost predicate Swept(t: Table, table: Table, tid: Tid, n: nat, volatile: set<Page>) {
    && t.Keys <= table.Keys
    && (forall k :: k in table && (k.tid != tid || k.pagination >= n) ==> k in t && t[k] == table[k])
    && (forall k :: k in t && k.tid == tid && k.pagination < n ==> Elements(t[k]) !! volatile)
  }

  lemma SweepOnce(t: Table, u: Table, table: Table, tid: Tid, n: nat, volatile: set<Page>, kept: seq<Page>)
    requires Swept(t, table, tid, n, volatile) && Key(tid, n) in t && Elements(kept) !! volatile
    requires u == t[Key(tid, n) := kept] || u == t - {Key(tid, n)}
    ensures Swept(u, table, tid, n + 1, volatile)
  {
  }

  lemma SweptAll(t: Table, table: Table, tid: Tid, n: nat, volatile: set<Page>)
    requires Swept(t, table, tid, n, volatile) && Key(tid, n) !in t && Drainable(table, tid, volatile)
    ensures forall k :: k in t && k.tid == tid ==> Elements(t[k]) !! volatile
  {
    forall k | k in t && k.tid == tid
      ensures Elements(t[k]) !! volatile
    {
      if Contiguous(table, tid) {
        assert Key(tid, n) !in table;
        assert k == Key(tid, k.pagination);
        assert k.pagination < n;
      }
    }
  }

  /** One candidate transaction: free the unpersisted pages of its lists, keep the others listed. */
  method ReleaseOne(mem: Memory, table: Table, tid: Tid, ghost l: Ledger) returns (t: Table)
    requires Represents(table, l) && l.Keys <= mem.alloc
    requires Drainable(table, tid, mem.unpersisted)
    modifies mem`alloc, mem`unpersisted
    ensures Represents(t, Drop(l, Under(l, {tid}) * old(mem.unpersisted)))
    ensures mem.alloc == old(mem.alloc) - Under(l, {tid}) * old(mem.unpersisted)
    ensures mem.unpersisted == old(mem.unpersisted) - Under(l, {tid})
    ensures t.Keys <= table.Keys && (forall k :: k in table && k.tid != tid ==> k in t && t[k] == table[k])
    ensures forall k :: k in t && k.tid == tid ==> Elements(t[k]) !! mem.unpersisted
  {
    t := table;
    ghost var volatile := mem.unpersisted;
    ghost var gone: set<Page> := {};
    var n := 0;
    assert Drop(l, gone) == l;
    while Key(tid, n) in t
      invariant Represents(t, Drop(l, gone)) && gone <= Under(l, {tid}) * volatile
      invariant Swept(t, table, tid, n, volatile)
      invariant mem.alloc == old(mem.alloc) - gone
      invariant mem.unpersisted == volatile - gone
      decreases |set k | k in table && k.tid == tid && k.pagination >= n|
    {
      Shrinks(table, tid, n);
      t, gone := SweepList(mem, t, table, tid, n, l, gone, volatile);
      n := n + 1;
    }
    SweptAll(t, table, tid, n, volatile);
    AllUnder(t, l, tid, gone, volatile);
  }

  /** One list of a candidate transaction. */
  method SweepList(mem: Memory, before: Table, ghost table: Table, tid: Tid, n: nat,
                   ghost l: Ledger, ghost gone: set<Page>, ghost volatile: set<Page>)
    returns (t: Table, ghost now: set<Page>)
    requires Represents(before, Drop(l, gone)) && gone <= Under(l, {tid}) * volatile
    requires Swept(before, table, tid, n, volatile) && Key(tid, n) in before
    requires l.Keys - gone <= mem.alloc && mem.unpersisted == volatile - gone
    modifies mem`alloc, mem`unpersisted
    ensures Represents(t, Drop(l, now)) && gone <= now <= Under(l, {tid}) * volatile
    ensures Swept(t, table, tid, n + 1, volatile)
    ensures mem.alloc == old(mem.alloc) - (now - gone)
    ensures mem.unpersisted == volatile - now
  {
    var k := Key(tid, n);
    ghost var more := Elements(before[k]) * volatile;
    ListedPages(before, l, k, gone);
    var kept := mem.FreeUnpersisted(before[k]);
    ShrinkList(before, Drop(l, gone), k, kept, more);
    DropMore(l, gone, more);
    ShrunkUnder(l, k, before[k], tid, gone, volatile);
    t := before;
    if |kept| != |before[k]| {
      t := if kept == [] then before - {k} else before[k := kept];
    } else {
      assert before[k := kept] == before;
    }
    SweepOnce(before, t, table, tid, n, volatile, kept);
    now := gone + more;
  }

  lemma ListedPages(t: Table, l: Ledger, k: Key, gone: set<Page>)
    requires Represents(t, Drop(l, gone)) && k in t
    ensures NoDuplicates(t[k]) && Elements(t[k]) <= l.Keys - gone
    ensures forall p :: p in Elements(t[k]) ==> p in Drop(l, gone) && Drop(l, gone)[p] == k.tid
  {
    RemoveList(t, Drop(l, gone), k);
  }

  lemma Shrinks(table: Table, tid: Tid, n: nat)
    requires Key(tid, n) in table
    ensures |set k | k in table && k.tid == tid && k.pagination >= n + 1|
          < |set k | k in table && k.tid == tid && k.pagination >= n|
  {
    var all := set k | k in table && k.tid == tid && k.pagination >= n;
    var rest := set k | k in table && k.tid == tid && k.pagination >= n + 1;
    assert rest <= all - {Key(tid, n)};
    Smaller(rest, all - {Key(tid, n)});
  }

  lemma Smaller<T>(a: set<T>, b: set<T>)
    requires a <= b
    ensures |a| <= |b|
  {
    if a != {} {
      var x :| x in a;
      Smaller(a - {x}, b - {x});
    }
  }

  function Ids(s: seq<Tid>): set<Tid> {
    set t | t in s
  }

  /** The unprocessed transactions before `until` with a list in the table. */
  function Candidates(table: Table, unprocessed: set<Tid>, until: Tid): set<Tid> {
    set k | k in table && k.tid in unprocessed && k.tid < until :: k.tid
  }

  /** The range scan; a transaction comes up once per list. */
  method CollectCandidates(table: Table, unprocessed: set<Tid>, until: Tid) returns (ids: seq<Tid>)
    ensures Ids(ids) == Candidates(table, unprocessed, until)
  {
    var first := until;
    if unprocessed != {} {
      ghost var least := MinExists(unprocessed);
      first :| first in unprocessed && forall x :: x in unprocessed ==> first <= x;
    }
    ids := [];
    var keys := set k | k in table && first <= k.tid < until;
    ghost var seen: set<Key> := {};
    while keys != {}
      invariant keys + seen == set k | k in table && first <= k.tid < until
      invariant Ids(ids) == set k | k in seen && k.tid in unprocessed :: k.tid
    {
      var k :| k in keys;
      if k.tid in unprocessed {
        assert Ids(ids + [k.tid]) == Ids(ids) + {k.tid};
        ids := ids + [k.tid];
      }
      keys, seen := keys - {k}, seen + {k};
    }
  }

  /** Every unprocessed transaction before `until` can still be drained. */
  ghost predicate AllDrainable(t: Table, ids: set<Tid>, volatile: set<Page>) {
    forall tid :: tid in ids ==> Drainable(t, tid, volatile)
  }

  lemma StillDrainable(t: Table, u: Table, tid: Tid, ids: set<Tid>, volatile: set<Page>, now: set<Page>)
    requires AllDrainable(t, ids, volatile) && now <= volatile
    requires u.Keys <= t.Keys && (forall k :: k in t && k.tid != tid ==> k in u && u[k] == t[k])
    requires forall k :: k in u && k.tid == tid ==> Elements(u[k]) !! now
    ensures AllDrainable(u, ids, now)
  {
    forall id | id in ids && id != tid
      ensures Drainable(u, id, now)
    {
      assert Drainable(t, id, volatile);
      if Contiguous(t, id) {
        assert forall m: nat :: Key(id, m) in u <==> Key(id, m) in t;
        assert Contiguous(u, id);
      }
    }
  }

  /** The lists of other transactions than `ids` are as before. */
  ghost predicate Untouched(t: Table, table: Table, ids: set<Tid>) {
    t.Keys <= table.Keys && forall k :: k in table && k.tid !in ids ==> k in t && t[k] == table[k]
  }

  lemma UnderMore(l: Ledger, done: set<Tid>, tid: Tid, volatile: set<Page>, gone: set<Page>, more: set<Page>)
    requires gone == Under(l, done) * volatile
    requires more == Under(Drop(l, gone), {tid}) * (volatile - gone)
    ensures gone + more == Under(l, done + {tid}) * volatile
    ensures volatile - gone - Under(Drop(l, gone), {tid}) == volatile - (gone + more)
    ensures Drop(Drop(l, gone), more) == Drop(l, gone + more)
  {
  }

  /**
   `process_freed_pages_nondurable_helper`: the unprocessed transactions before `until` lose
   their unpersisted pages from the table.
   */
  method ReleaseUnpersisted(mem: Memory, table: Table, until: Tid, unprocessed: set<Tid>, ghost l: Ledger)
    returns (t: Table, processed: seq<Tid>)
    requires Represents(table, l) && l.Keys <= mem.alloc
    requires forall tid :: tid in unprocessed ==> Contiguous(table, tid)
    modifies mem`alloc, mem`unpersisted
    ensures Ids(processed) == Candidates(table, unprocessed, until)
    ensures Represents(t, Drop(l, Under(l, Ids(processed)) * old(mem.unpersisted)))
    ensures mem.alloc == old(mem.alloc) - Under(l, Ids(processed)) * old(mem.unpersisted)
    ensures mem.unpersisted == old(mem.unpersisted) - Under(l, Ids(processed)) * old(mem.unpersisted)
    ensures Untouched(t, table, Ids(processed))
  {
    t := table;
    var candidates := CollectCandidates(table, unprocessed, until);
    processed := [];
    ghost var volatile := mem.unpersisted;
    ghost var gone: set<Page> := {};
    assert Drop(l, {}) == l;
    for i := 0 to |candidates|
      invariant processed == candidates[..i]
      invariant gone == Under(l, Ids(processed)) * volatile
      invariant Represents(t, Drop(l, gone))
      invariant mem.alloc == old(mem.alloc) - gone
      invariant mem.unpersisted == volatile - gone
      invariant AllDrainable(t, unprocessed, mem.unpersisted)
      invariant Untouched(t, table, Ids(processed))
    {
      assert candidates[i] in Ids(candidates);
      t, gone := ReleaseNext(mem, t, table, candidates[i], Ids(processed), unprocessed, l, volatile, gone);
      assert Ids(processed + [candidates[i]]) == Ids(processed) + {candidates[i]};
      processed := processed + [candidates[i]];
    }
    assert candidates[..|candidates|] == candidates;
  }

  method ReleaseNext(mem: Memory, before: Table, ghost table: Table, tid: Tid, ghost done: set<Tid>,
                     ghost unprocessed: set<Tid>, ghost l: Ledger, ghost volatile: set<Page>, ghost gone: set<Page>)
    returns (t: Table, ghost now: set<Page>)
    requires gone == Under(l, done) * volatile && tid in unprocessed
    requires Represents(before, Drop(l, gone)) && l.Keys - gone <= mem.alloc
    requires mem.unpersisted == volatile - gone
    requires AllDrainable(before, unprocessed, mem.unpersisted)
    requires Untouched(before, table, done)
    modifies mem`alloc, mem`unpersisted
    ensures now == Under(l, done + {tid}) * volatile
    ensures Represents(t, Drop(l, now))
    ensures mem.alloc == old(mem.alloc) - (now - gone)
    ensures mem.unpersisted == volatile - now && gone <= now
    ensures AllDrainable(t, unprocessed, mem.unpersisted)
    ensures Untouched(t, table, done + {tid})
  {
    ghost var more := Under(Drop(l, gone), {tid}) * (volatile - gone);
    UnderMore(l, done, tid, volatile, gone, more);
    t := ReleaseOne(mem, before, tid, Drop(l, gone));
    StillDrainable(before, t, tid, unprocessed, volatile - gone, mem.unpersisted);
    now := gone + more;
  }

  // ---------------------------------------------------------------- restoring a savepoint

  lemma PurgedAfter(table: Table, l: Ledger, t: Table, tid: Tid)
    requires Represents(table, l)
    requires t == map k | k in table && k.tid <= tid :: table[k]
    ensures Represents(t, KeepThrough(l, tid))
  {
    forall p | p in KeepThrough(l, tid)
      ensures Lists(t, p)
    {
      assert Lists(table, p);
      var k :| k in table && p in table[k];
      assert k in t && p in t[k];
    }
  }

  /** `extract_from_if(lower..)` on the data-freed table: entries after the savepoint go. */
  method PurgeAfter(table: Table, tid: Tid, ghost l: Ledger) returns (t: Table)
    requires Represents(table, l)
    ensures Represents(t, KeepThrough(l, tid))
    ensures t == map k | k in table && k.tid <= tid :: table[k]
  {
    t := table;
    var keys := set k | k in table && k.tid > tid;
    while keys != {}
      invariant forall k :: k in keys <==> k in t && k.tid > tid
      invariant t.Keys <= table.Keys && (forall k :: k in t ==> t[k] == table[k])
      invariant forall k :: k in table && k.tid <= tid ==> k in t
    {
      var k :| k in keys;
      t, keys := t - {k}, keys - {k};
    }
    PurgedAfter(table, l, t, tid);
  }

  lemma ListedAfter(table: Table, l: Ledger, pages: seq<Page>, tid: Tid)
    requires Represents(table, l)
    requires forall p :: p in pages <==> exists k :: k in table && k.tid > tid && p in table[k]
    ensures Elements(pages) == After(l, tid)
  {
    forall p | p in After(l, tid)
      ensures p in pages
    {
      assert Lists(table, p);
    }
  }

  lemma JoinList(table: Table, pages: seq<Page>, k: Key, seen: set<Key>)
    requires Distinct(table) && k in table && k !in seen && seen <= table.Keys
    requires NoDuplicates(pages) && (forall p :: p in pages <==> exists m :: m in seen && p in table[m])
    ensures NoDuplicates(pages + table[k])
    ensures forall p :: p in pages + table[k] <==> exists m :: m in seen + {k} && p in table[m]
  {
    forall p | p in Elements(pages)
      ensures p !in Elements(table[k])
    {
      var m :| m in seen && p in table[m];
    }
    JoinAside(pages, table[k]);
    forall p | p in pages + table[k]
      ensures exists m :: m in seen + {k} && p in table[m]
    {
      if p in table[k] {
        assert k in seen + {k};
      } else {
        var m :| m in seen && p in table[m];
        assert m in seen + {k};
      }
    }
  }

  /** The pages allocated since the savepoint, queued for freeing: each of them exactly once. */
  method CollectAfter(table: Table, tid: Tid, ghost l: Ledger) returns (pages: seq<Page>)
    requires Represents(table, l)
    ensures NoDuplicates(pages) && Elements(pages) == After(l, tid)
  {
    pages := [];
    var keys := set k | k in table && k.tid > tid;
    ghost var seen: set<Key> := {};
    while keys != {}
      invariant keys + seen == set k | k in table && k.tid > tid
      invariant keys !! seen && NoDuplicates(pages)
      invariant forall p :: p in pages <==> exists k :: k in seen && p in table[k]
    {
      var k :| k in keys;
      JoinList(table, pages, k, seen);
      pages := pages + table[k];
      keys, seen := keys - {k}, seen + {k};
    }
    ListedAfter(table, l, pages, tid);
  }
}
