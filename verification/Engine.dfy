/**
 The write transaction over its stored tables, its tracker and its memory.  Every operation is
 proved to be one step of the protocol in module Mvcc.
 */
module Engine {
  import opened Ledgers
  import opened Mvcc
  import opened MvccInvariant
  import opened PageTables

  /** The three page tables of a system tree. */
  datatype Tables = Tables(dataFreed: Table, systemFreed: Table, dataAllocated: Table)

  ghost predicate Stores(t: Tables, dataFreed: Ledger, systemFreed: Ledger, dataAllocated: Ledger) {
    && Represents(t.dataFreed, dataFreed)
    && Represents(t.systemFreed, systemFreed)
    && Represents(t.dataAllocated, dataAllocated)
  }

  /** Keys stay below `id`, and the lists of the unprocessed transactions have no gaps. */
  ghost predicate TableFits(t: Table, id: Tid, unprocessed: set<Tid>) {
    (forall k {:trigger k in t} :: k in t ==> k.tid < id) && Gapless(t, unprocessed)
  }

  ghost predicate Gapless(t: Table, ids: set<Tid>) {
    forall k, m: nat {:trigger k in t, Key(k.tid, m) in t} ::
      k in t && k.tid in ids && m < k.pagination ==> Key(k.tid, m) in t
  }

  lemma GaplessContiguous(t: Table, ids: set<Tid>)
    requires Gapless(t, ids)
    ensures forall tid :: tid in ids ==> Contiguous(t, tid)
  {
    forall tid, n: nat, m: nat | tid in ids && Key(tid, n) in t && m < n
      ensures Key(tid, m) in t
    {
      assert Key(Key(tid, n).tid, m) in t;
    }
  }

  ghost predicate Fits(t: Tables, id: Tid, unprocessed: set<Tid>) {
    && TableFits(t.dataFreed, id, unprocessed)
    && TableFits(t.systemFreed, id, unprocessed)
    && TableFits(t.dataAllocated, id, {})
  }

  lemma FitsExtended(t: Table, table: Table, id: Tid, n: nat, chunk: nat, unprocessed: set<Tid>)
    requires TableFits(table, id, unprocessed) && Extended(t, table, id, n, chunk)
    ensures TableFits(t, id + 1, unprocessed + {id})
  {
  }

  lemma FitsFiltered(t: Table, table: Table, id: Tid, unprocessed: set<Tid>, until: Tid)
    requires TableFits(table, id, unprocessed)
    requires || t == (map k | k in table && k.tid >= until :: table[k])
             || t == (map k | k in table && k.tid <= until :: table[k])
    ensures TableFits(t, id, unprocessed)
  {
  }

  lemma FitsDrained(t: Table, table: Table, id: Tid, unprocessed: set<Tid>, ids: set<Tid>)
    requires TableFits(table, id, unprocessed) && Untouched(t, table, ids)
    ensures TableFits(t, id, unprocessed - ids)
  {
  }

  lemma FitsWider(t: Table, id: Tid, unprocessed: set<Tid>, more: Tid, fewer: set<Tid>)
    requires TableFits(t, id, unprocessed) && id <= more && fewer <= unprocessed
    ensures TableFits(t, more, fewer)
  {
  }

  // ---------------------------------------------------------------- the table work of a commit

  function Purged(l: Ledger, oldest: Option<Tid>): Ledger {
    if oldest.None? then map[] else KeepFrom(l, oldest.value)
  }

  lemma PurgedRepresents(table: Table, l: Ledger, t: Table, oldest: Option<Tid>)
    requires Represents(table, l)
    requires t == map k | k in table && oldest.Some? && k.tid >= oldest.value :: table[k]
    ensures Represents(t, Purged(l, oldest))
  {
    forall p | p in Purged(l, oldest)
      ensures Lists(t, p)
    {
      assert Lists(table, p);
      var k :| k in table && p in table[k];
      assert k in t && p in t[k];
    }
  }

  /** The purge at the end of `store_allocated_pages`; without savepoints the bound is `u64::MAX`. */
  method PurgeBefore(table: Table, oldest: Option<Tid>, ghost l: Ledger) returns (t: Table)
    requires Represents(table, l)
    ensures Represents(t, Purged(l, oldest)) && t.Keys <= table.Keys
  {
    t := table;
    var keys := set k | k in table && (oldest.None? || k.tid < oldest.value);
    while keys != {}
      invariant forall k :: k in keys <==> k in t && (oldest.None? || k.tid < oldest.value)
      invariant t.Keys <= table.Keys && (forall k :: k in t ==> t[k] == table[k])
      invariant forall k :: k in table && oldest.Some? && k.tid >= oldest.value ==> k in t
    {
      var k :| k in keys;
      t, keys := t - {k}, keys - {k};
    }
    PurgedRepresents(table, l, t, oldest);
  }

  method ToList(pages: set<Page>) returns (list: seq<Page>)
    ensures NoDuplicates(list) && PageTables.Elements(list) == pages
  {
    list := [];
    var rest := pages;
    while rest != {}
      invariant rest <= pages && NoDuplicates(list) && PageTables.Elements(list) == pages - rest
    {
      var p :| p in rest;
      ElementsAdd(list, p);
      assert p !in PageTables.Elements(list);
      list := list + [p];
      rest := rest - {p};
    }
  }

  /** `store_data_freed_pages` and `store_allocated_pages`. */
  method StoreTransaction(t: Tables, id: Tid, freed: seq<Page>, recent: seq<Page>, oldest: Option<Tid>,
                          unprocessed: set<Tid>, ghost df: Ledger, ghost sf: Ledger, ghost da: Ledger)
    returns (u: Tables)
    requires Stores(t, df, sf, da) && Fits(t, id, unprocessed)
    requires NoDuplicates(freed) && PageTables.Elements(freed) !! df.Keys
    requires NoDuplicates(recent) && PageTables.Elements(recent) !! da.Keys
    ensures Stores(u, df + Tag(PageTables.Elements(freed), id), sf,
                   Purged(da + Tag(PageTables.Elements(recent), id), oldest))
    ensures TableFits(u.dataFreed, id + 1, unprocessed + {id}) && u.systemFreed == t.systemFreed
    ensures TableFits(u.dataAllocated, id + 1, {})
  {
    var dataFreed, aside, n := StorePages(t.dataFreed, id, freed, DATA_CHUNK, {}, df);
    FitsExtended(dataFreed, t.dataFreed, id, n, DATA_CHUNK, unprocessed);
    var dataAllocated, aside2, m := StorePages(t.dataAllocated, id, recent, DATA_CHUNK, {}, da);
    FitsExtended(dataAllocated, t.dataAllocated, id, m, DATA_CHUNK, {});
    assert PageTables.Elements(freed) - {} == PageTables.Elements(freed);
    assert PageTables.Elements(recent) - {} == PageTables.Elements(recent);
    var purged := PurgeBefore(dataAllocated, oldest, da + Tag(PageTables.Elements(recent), id));
    u := t.(dataFreed := dataFreed, dataAllocated := purged);
  }

  /** `process_freed_pages` on both tables, then with quick repair the system pages are queued. */
  method ReleaseDurable(mem: Memory, t: Tables, id: Tid, until: Tid, sysDropped: seq<Page>, quick: bool,
                        unprocessed: set<Tid>, ghost df: Ledger, ghost sf: Ledger, ghost da: Ledger)
    returns (u: Tables)
    requires Stores(t, df, sf, da)
    requires TableFits(t.dataFreed, id + 1, unprocessed) && TableFits(t.systemFreed, id, unprocessed)
    requires df.Keys !! sf.Keys && df.Keys + sf.Keys <= mem.alloc
    requires NoDuplicates(sysDropped) && PageTables.Elements(sysDropped) !! sf.Keys
    modifies mem`alloc
    ensures mem.alloc == old(mem.alloc) - (Before(df, until) + Before(sf, until))
    ensures Stores(u, KeepFrom(df, until),
                   KeepFrom(sf, until) + Tag(if quick then PageTables.Elements(sysDropped) else {}, id), da)
    ensures TableFits(u.dataFreed, id + 1, unprocessed) && TableFits(u.systemFreed, id + 1, unprocessed)
    ensures u.dataAllocated == t.dataAllocated
  {
    var dataFreed := ReleaseBefore(mem, t.dataFreed, until, df);
    FitsFiltered(dataFreed, t.dataFreed, id + 1, unprocessed, until);
    var systemFreed := ReleaseBefore(mem, t.systemFreed, until, sf);
    FitsFiltered(systemFreed, t.systemFreed, id, unprocessed, until);
    if quick {
      var more, aside, n := StorePages(systemFreed, id, sysDropped, SYSTEM_CHUNK, {}, KeepFrom(sf, until));
      FitsExtended(more, systemFreed, id, n, SYSTEM_CHUNK, unprocessed);
      FitsWider(more, id + 1, unprocessed + {id}, id + 1, unprocessed);
      assert PageTables.Elements(sysDropped) - {} == PageTables.Elements(sysDropped);
      systemFreed := more;
    } else {
      FitsWider(systemFreed, id, unprocessed, id + 1, unprocessed);
      assert KeepFrom(sf, until) + Tag({}, id) == KeepFrom(sf, until);
    }
    u := t.(dataFreed := dataFreed, systemFreed := systemFreed);
  }

  /** Processing the lists of `more` transactions that have none changes nothing. */
  lemma UnderListed(t: Table, l: Ledger, ids: set<Tid>, more: set<Tid>, unprocessed: set<Tid>, until: Tid)
    requires Represents(t, l) && ids == Candidates(t, unprocessed, until)
    requires forall tid :: tid in more ==> tid in unprocessed && tid < until
    ensures Under(l, ids + more) == Under(l, ids)
  {
    forall p | p in Under(l, more)
      ensures p in Under(l, ids)
    {
      assert Lists(t, p);
      var k :| k in t && p in t[k];
      assert k.tid in ids;
    }
  }

  /** A transaction with queued pages has a list in the table. */
  lemma QueuedAreCandidates(t: Table, l: Ledger, unprocessed: set<Tid>, until: Tid)
    requires Represents(t, l)
    ensures forall tid :: tid in unprocessed && tid < until && tid in l.Values ==>
              tid in Candidates(t, unprocessed, until)
  {
    forall tid | tid in unprocessed && tid < until && tid in l.Values
      ensures tid in Candidates(t, unprocessed, until)
    {
      var p :| p in l && l[p] == tid;
      assert Lists(t, p);
      var k :| k in t && p in t[k];
      assert k.tid == tid;
    }
  }

  /** `process_freed_pages_nondurable` on both tables. */
  method ReleaseVolatile(mem: Memory, t: Tables, until: Tid, unprocessed: set<Tid>,
                         ghost df: Ledger, ghost sf: Ledger)
    returns (dataFreed: Table, systemFreed: Table, processed: seq<Tid>)
    requires Represents(t.dataFreed, df) && Represents(t.systemFreed, sf)
    requires Gapless(t.dataFreed, unprocessed) && Gapless(t.systemFreed, unprocessed)
    requires df.Keys !! sf.Keys && df.Keys + sf.Keys <= mem.alloc
    modifies mem`alloc, mem`unpersisted
    ensures forall tid :: tid in processed ==> tid in unprocessed && tid < until
    ensures forall tid :: tid in unprocessed && tid < until && (tid in df.Values || tid in sf.Values) ==>
              tid in processed
    ensures var (a, b) := (Under(df, Ids(processed)) * old(mem.unpersisted),
                           Under(sf, Ids(processed)) * old(mem.unpersisted));
            && mem.alloc == old(mem.alloc) - (a + b)
            && mem.unpersisted == old(mem.unpersisted) - (a + b)
            && Represents(dataFreed, Drop(df, a)) && Represents(systemFreed, Drop(sf, b))
    ensures Untouched(dataFreed, t.dataFreed, Ids(processed)) && Untouched(systemFreed, t.systemFreed, Ids(processed))
  {
    ghost var volatile := mem.unpersisted;
    var p1, p2;
    GaplessContiguous(t.dataFreed, unprocessed);
    GaplessContiguous(t.systemFreed, unprocessed);
    dataFreed, p1 := ReleaseUnpersisted(mem, t.dataFreed, until, unprocessed, df);
    ghost var a := Under(df, Ids(p1)) * volatile;
    assert a <= df.Keys;
    systemFreed, p2 := ReleaseUnpersisted(mem, t.systemFreed, until, unprocessed, sf);
    assert Under(sf, Ids(p2)) * (volatile - a) == Under(sf, Ids(p2)) * volatile;
    processed := p1 + p2;
    assert Ids(processed) == Ids(p1) + Ids(p2) == Ids(p2) + Ids(p1);
    assert forall tid :: tid in processed ==> tid in Ids(p1) || tid in Ids(p2);
    QueuedAreCandidates(t.dataFreed, df, unprocessed, until);
    QueuedAreCandidates(t.systemFreed, sf, unprocessed, until);
    UnderListed(t.dataFreed, df, Ids(p1), Ids(p2), unprocessed, until);
    UnderListed(t.systemFreed, sf, Ids(p2), Ids(p1), unprocessed, until);
  }

  /**
   The rest of `non_durable_commit`: system pages that are persisted are queued, the others are
   returned for freeing once the commit is done.
   */
  method StoreVolatile(systemFreed: Table, id: Tid, sysDropped: seq<Page>, unpersisted: set<Page>,
                       unprocessed: set<Tid>, ghost sf: Ledger)
    returns (t: Table, postCommit: seq<Page>)
    requires Represents(systemFreed, sf) && TableFits(systemFreed, id, unprocessed)
    requires NoDuplicates(sysDropped) && PageTables.Elements(sysDropped) !! sf.Keys
    ensures Represents(t, sf + Tag(PageTables.Elements(sysDropped) - unpersisted, id))
    ensures TableFits(t, id + 1, unprocessed + {id})
    ensures NoDuplicates(postCommit) && PageTables.Elements(postCommit) == PageTables.Elements(sysDropped) * unpersisted
  {
    var n;
    t, postCommit, n := StorePages(systemFreed, id, sysDropped, SYSTEM_CHUNK, unpersisted, sf);
    FitsExtended(t, systemFreed, id, n, SYSTEM_CHUNK, unprocessed);
  }

  // ---------------------------------------------------------------- repair

  /** `do_repair`: mark the pages of both roots and of both freed tables; no page comes up twice. */
  method RebuildAllocator(mem: Memory, data: set<Page>, system: set<Page>, t: Tables, ghost d: Image)
    requires Disjoint(d) && d.data == data && d.system == system
    requires Represents(t.dataFreed, d.dataFreed) && Represents(t.systemFreed, d.systemFreed)
    modifies mem
    ensures mem.alloc == Repaired(d) && mem.uncommitted == {} && mem.unpersisted == {}
  {
    mem.Clear();
    var list := ToList(data);
    mem.MarkList(list);
    list := ToList(system);
    mem.MarkList(list);
    mem.MarkTable(t.dataFreed, d.dataFreed);
    mem.MarkTable(t.systemFreed, d.systemFreed);
  }
}
