/**
 Compaction: a map from high pages to free lower ones, and the copy of a tree along that map.
 A node is a page with a payload and the pages it points to (children of a branch, or the
 subtree roots in a multimap leaf).
 */
module Relocation {
  import opened Ledgers
  import opened PageTables

  type Payload = seq<nat>

  datatype Node = Node(payload: Payload, children: seq<Page>)

  type Heap = map<Page, Node>

  /** A tree together with the page each of its nodes is stored on. */
  datatype Shape = Shape(page: Page, payload: Payload, subs: seq<Shape>)

  function Roots(ts: seq<Shape>): (ps: seq<Page>)
    ensures |ps| == |ts| && forall i :: 0 <= i < |ts| ==> ps[i] == ts[i].page
  {
    seq(|ts|, i requires 0 <= i < |ts| => ts[i].page)
  }

  ghost predicate Stored(h: Heap, t: Shape) {
    && t.page in h && h[t.page] == Node(t.payload, Roots(t.subs))
    && forall i :: 0 <= i < |t.subs| ==> Stored(h, t.subs[i])
  }

  ghost function Pages(t: Shape): set<Page> {
    {t.page} + set i, p | 0 <= i < |t.subs| && p in Pages(t.subs[i]) :: p
  }

  /** No page is used twice. */
  ghost predicate Apart(t: Shape) {
    && (forall i :: 0 <= i < |t.subs| ==> Apart(t.subs[i]) && t.page !in Pages(t.subs[i]))
    && (forall i, j :: 0 <= i < j < |t.subs| ==> Pages(t.subs[i]) !! Pages(t.subs[j]))
  }

  /** What a reader sees of a tree: payloads and structure, not pages. */
  datatype Meaning = Meaning(payload: Payload, subs: seq<Meaning>)

  function MeaningOf(t: Shape): Meaning {
    Meaning(t.payload, seq(|t.subs|, i requires 0 <= i < |t.subs| => MeaningOf(t.subs[i])))
  }

  // ---------------------------------------------------------------- relocated trees

  type Map = map<Page, Page>

  ghost predicate Injective(m: Map) {
    forall p, q :: p in m && q in m && m[p] == m[q] ==> p == q
  }

  /** The tree after relocation; below a page that stays, nothing moves. */
  function Moved(t: Shape, m: Map): Shape {
    if t.page !in m then t
    else Shape(m[t.page], t.payload, seq(|t.subs|, i requires 0 <= i < |t.subs| => Moved(t.subs[i], m)))
  }

  lemma {:induction false} MovedMeaning(t: Shape, m: Map)
    ensures MeaningOf(Moved(t, m)) == MeaningOf(t)
  {
    if t.page in m {
      forall i | 0 <= i < |t.subs|
        ensures MeaningOf(Moved(t.subs[i], m)) == MeaningOf(t.subs[i])
      {
        MovedMeaning(t.subs[i], m);
      }
      assert MeaningOf(Moved(t, m)).subs == MeaningOf(t).subs;
    }
  }

  /** The old pages a relocation gives up. */
  ghost function Replaced(t: Shape, m: Map): set<Page> {
    if t.page !in m then {} else {t.page} + ReplacedBelow(t, m, |t.subs|)
  }

  ghost function ReplacedBelow(t: Shape, m: Map, n: nat): set<Page>
    requires n <= |t.subs|
  {
    set i, p | 0 <= i < n && p in Replaced(t.subs[i], m) :: p
  }

  /** The pages a relocation writes. */
  ghost function Image(ps: set<Page>, m: Map): set<Page> {
    set p | p in ps && p in m :: m[p]
  }

  lemma {:induction false} ReplacedPages(t: Shape, m: Map)
    ensures Replaced(t, m) <= Pages(t) * m.Keys
  {
    forall i | 0 <= i < |t.subs|
      ensures Replaced(t.subs[i], m) <= Pages(t) * m.Keys
    {
      ReplacedPages(t.subs[i], m);
      SubPages(t, i);
    }
  }

  lemma SubPages(t: Shape, i: nat)
    requires i < |t.subs|
    ensures Pages(t.subs[i]) <= Pages(t)
  {
  }

  /** The map moves a page only together with its parent. */
  ghost predicate ClosedUp(t: Shape, m: Map) {
    && (t.page !in m ==> Pages(t) !! m.Keys)
    && forall i :: 0 <= i < |t.subs| ==> ClosedUp(t.subs[i], m)
  }

  /** With a closed map every mapped page of the tree is replaced, none is overlooked. */
  lemma {:induction false} ReplacedAll(t: Shape, m: Map)
    requires ClosedUp(t, m)
    ensures Replaced(t, m) == Pages(t) * m.Keys
  {
    ReplacedPages(t, m);
    forall p | p in Pages(t) && p in m
      ensures p in Replaced(t, m)
    {
      if p != t.page {
        var i :| 0 <= i < |t.subs| && p in Pages(t.subs[i]);
        ReplacedAll(t.subs[i], m);
        assert p in Replaced(t.subs[i], m);
        assert p in ReplacedBelow(t, m, |t.subs|);
      }
    }
  }

  /** The moved tree stands on the pages that stay and the new pages of those that go. */
  lemma {:induction false} MovedExactly(t: Shape, m: Map)
    requires ClosedUp(t, m)
    ensures Pages(Moved(t, m)) == (Pages(t) - m.Keys) + Image(Pages(t), m)
  {
    if t.page in m {
      forall i | 0 <= i < |t.subs|
        ensures Pages(Moved(t.subs[i], m)) == (Pages(t.subs[i]) - m.Keys) + Image(Pages(t.subs[i]), m)
      {
        MovedExactly(t.subs[i], m);
      }
      MovedBelow(t, m);
    }
  }

  lemma MovedBelow(t: Shape, m: Map)
    requires t.page in m
    requires forall i :: 0 <= i < |t.subs| ==>
               Pages(Moved(t.subs[i], m)) == (Pages(t.subs[i]) - m.Keys) + Image(Pages(t.subs[i]), m)
    ensures Pages(Moved(t, m)) == (Pages(t) - m.Keys) + Image(Pages(t), m)
  {
    var s := Moved(t, m);
    assert forall i :: 0 <= i < |t.subs| ==> s.subs[i] == Moved(t.subs[i], m);
    MovedFrom(t, m, s);
    MovedTo(t, m, s);
  }

  /** Where the pages of the moved tree come from. */
  lemma MovedFrom(t: Shape, m: Map, s: Shape)
    requires t.page in m && s.page == m[t.page] && |s.subs| == |t.subs|
    requires forall i :: 0 <= i < |t.subs| ==>
               Pages(s.subs[i]) == (Pages(t.subs[i]) - m.Keys) + Image(Pages(t.subs[i]), m)
    ensures Pages(s) <= (Pages(t) - m.Keys) + Image(Pages(t), m)
  {
    forall p | p in Pages(s) && p != s.page
      ensures p in (Pages(t) - m.Keys) + Image(Pages(t), m)
    {
      var i :| 0 <= i < |s.subs| && p in Pages(s.subs[i]);
      SubPages(t, i);
    }
  }

  /** Where the pages of the tree go. */
  lemma MovedTo(t: Shape, m: Map, s: Shape)
    requires t.page in m && s.page == m[t.page] && |s.subs| == |t.subs|
    requires forall i :: 0 <= i < |t.subs| ==>
               Pages(s.subs[i]) == (Pages(t.subs[i]) - m.Keys) + Image(Pages(t.subs[i]), m)
    ensures (Pages(t) - m.Keys) + Image(Pages(t), m) <= Pages(s)
  {
    forall q | q in Pages(t)
      ensures q !in m ==> q in Pages(s)
      ensures q in m ==> m[q] in Pages(s)
    {
      if q != t.page {
        var i :| 0 <= i < |t.subs| && q in Pages(t.subs[i]);
        SubPages(s, i);
      }
    }
  }

  /** No page is used twice by the moved tree either. */
  lemma {:induction false} MovedApart(t: Shape, m: Map)
    requires ClosedUp(t, m) && Apart(t) && Injective(m) && m.Values !! Pages(t)
    ensures Apart(Moved(t, m))
  {
    if t.page in m {
      var s := Moved(t, m);
      forall i | 0 <= i < |t.subs|
        ensures Apart(s.subs[i]) && s.page !in Pages(s.subs[i])
      {
        SubPages(t, i);
        MovedApart(t.subs[i], m);
        MovedExactly(t.subs[i], m);
      }
      forall i, j | 0 <= i < j < |t.subs|
        ensures Pages(s.subs[i]) !! Pages(s.subs[j])
      {
        SubPages(t, i);
        SubPages(t, j);
        MovedDisjoint(t.subs[i], t.subs[j], m);
      }
    }
  }

  lemma MovedDisjoint(a: Shape, b: Shape, m: Map)
    requires ClosedUp(a, m) && ClosedUp(b, m) && Injective(m) && Pages(a) !! Pages(b)
    requires m.Values !! Pages(a) && m.Values !! Pages(b)
    ensures Pages(Moved(a, m)) !! Pages(Moved(b, m))
  {
    MovedExactly(a, m);
    MovedExactly(b, m);
    DisjointImages(m, Pages(a), Pages(b));
  }

  // ---------------------------------------------------------------- copying

  lemma {:induction false} StoredFrame(h: Heap, k: Heap, t: Shape, changed: set<Page>)
    requires Stored(h, t) && Pages(t) !! changed
    requires forall p :: p in h && p !in changed ==> p in k && k[p] == h[p]
    ensures Stored(k, t)
  {
    forall i | 0 <= i < |t.subs|
      ensures Stored(k, t.subs[i])
    {
      SubPages(t, i);
      StoredFrame(h, k, t.subs[i], changed);
    }
  }

  lemma {:induction false} MovedPages(t: Shape, m: Map)
    ensures Pages(Moved(t, m)) <= Pages(t) + Image(Pages(t), m)
  {
    if t.page in m {
      forall p | p in Pages(Moved(t, m)) && p != m[t.page]
        ensures p in Pages(t) + Image(Pages(t), m)
      {
        var i :| 0 <= i < |t.subs| && p in Pages(Moved(t.subs[i], m));
        MovedPages(t.subs[i], m);
        SubPages(t, i);
      }
    }
  }

  lemma DisjointImages(m: Map, a: set<Page>, b: set<Page>)
    requires Injective(m) && a !! b
    ensures Image(a, m) !! Image(b, m)
  {
  }

  /** Nothing but the images of `ps` was written. */
  ghost predicate Framed(h: Heap, k: Heap, ps: set<Page>, m: Map) {
    forall p :: p in h && p !in Image(ps, m) ==> p in k && k[p] == h[p]
  }

  lemma FramedSub(h: Heap, k: Heap, l: Heap, t: Shape, i: nat, m: Map)
    requires i < |t.subs| && Framed(h, k, Pages(t), m) && Framed(k, l, Pages(t.subs[i]), m)
    ensures Framed(h, l, Pages(t), m)
  {
    SubPages(t, i);
  }

  /** The first `n` subtrees are in place. */
  ghost predicate Placed(h: Heap, t: Shape, m: Map, n: nat)
    requires n <= |t.subs|
  {
    forall j :: 0 <= j < n ==> Stored(h, Moved(t.subs[j], m))
  }

  lemma PlacedFrame(h: Heap, k: Heap, t: Shape, m: Map, n: nat, i: nat)
    requires n <= i < |t.subs| && Placed(h, t, m, n) && Framed(h, k, Pages(t.subs[i]), m)
    requires Apart(t) && Injective(m) && m.Values !! Pages(t)
    ensures Placed(k, t, m, n)
  {
    forall j | 0 <= j < n
      ensures Stored(k, Moved(t.subs[j], m))
    {
      MovedPages(t.subs[j], m);
      SubPages(t, j);
      DisjointImages(m, Pages(t.subs[j]), Pages(t.subs[i]));
      assert Image(Pages(t.subs[i]), m) <= m.Values;
      StoredFrame(h, k, Moved(t.subs[j], m), Image(Pages(t.subs[i]), m));
    }
  }

  /** A write to the node's own new page disturbs no subtree. */
  lemma PlacedWrite(h: Heap, t: Shape, m: Map, n: nat, node: Node)
    requires n <= |t.subs| && Placed(h, t, m, n) && t.page in m
    requires Apart(t) && Injective(m) && m.Values !! Pages(t)
    ensures Placed(h[m[t.page] := node], t, m, n)
  {
    forall j | 0 <= j < n
      ensures Stored(h[m[t.page] := node], Moved(t.subs[j], m))
    {
      MovedPages(t.subs[j], m);
      SubPages(t, j);
      StoredFrame(h, h[m[t.page] := node], Moved(t.subs[j], m), {m[t.page]});
    }
  }

  lemma UnmovedStored(h: Heap, k: Heap, t: Shape, m: Map, i: nat)
    requires Stored(h, t) && Framed(h, k, Pages(t), m) && i < |t.subs| && m.Values !! Pages(t)
    ensures Stored(k, t.subs[i])
  {
    SubPages(t, i);
    assert Image(Pages(t), m) <= m.Values;
    StoredFrame(h, k, t.subs[i], Image(Pages(t), m));
  }

  class PageStore {
    var pages: Heap
    var freed: seq<Page>

    constructor (pages: Heap)
      ensures this.pages == pages && freed == []
    {
      this.pages, freed := pages, [];
    }

    /**
     `relocate_helper` and `relocate_subtrees`: copy the node to its new page, relocate what it
     points to, patch the pointers that changed, and give up the old page.
     */
    method Relocate(p: Page, m: Map, ghost t: Shape) returns (r: Page)
      requires Stored(pages, t) && t.page == p && Apart(t)
      requires Injective(m) && m.Values !! Pages(t)
      requires NoDuplicates(freed) && Elements(freed) !! Pages(t)
      modifies this
      ensures r == Moved(t, m).page && Stored(pages, Moved(t, m))
      ensures Framed(old(pages), pages, Pages(t), m)
      ensures NoDuplicates(freed) && Elements(freed) == old(Elements(freed)) + Replaced(t, m)
      decreases t, 1
    {
      if p !in m {
        assert Moved(t, m) == t;
        return p;
      }
      r := m[p];
      var n := |pages[p].children|;
      pages := pages[r := pages[p]];
      ghost var before, start := old(pages), freed;
      assert pages[r].children == Patched(t, m, 0);
      for i := 0 to n
        invariant Copied(before, pages, t, m, i)
        invariant NoDuplicates(freed) && Elements(freed) == Elements(start) + ReplacedBelow(t, m, i)
      {
        RelocateChild(r, m, i, t, before, start);
      }
      assert Patched(t, m, n) == Roots(Moved(t, m).subs);
      FreeOwn(t, m, start, freed);
      freed := freed + [p];
    }

    /** One round of the loop over what the node points to. */
    method RelocateChild(r: Page, m: Map, i: nat, ghost t: Shape, ghost before: Heap, ghost start: seq<Page>)
      requires Stored(before, t) && Apart(t) && Injective(m) && m.Values !! Pages(t)
      requires t.page in m && r == m[t.page] && i < |t.subs|
      requires Copied(before, pages, t, m, i)
      requires NoDuplicates(freed) && Elements(start) !! Pages(t)
      requires Elements(freed) == Elements(start) + ReplacedBelow(t, m, i)
      modifies this
      ensures Copied(before, pages, t, m, i + 1)
      ensures NoDuplicates(freed) && Elements(freed) == Elements(start) + ReplacedBelow(t, m, i + 1)
      decreases t, 0
    {
      UnmovedStored(before, pages, t, m, i);
      ChildReady(t, m, i, start, freed);
      ReplacedNext(t, m, i, Elements(start), Elements(freed));
      ghost var h := pages;
      var q := Relocate(pages[r].children[i], m, t.subs[i]);
      CopiedFrame(before, h, pages, t, m, i);
      var node := Node(pages[r].payload, pages[r].children[i := q]);
      CopiedNext(before, pages, t, m, i, node);
      pages := pages[r := node];
    }
  }

  /** The pointers of the new node once the first `n` have been patched. */
  function Patched(t: Shape, m: Map, n: nat): (ps: seq<Page>)
    ensures |ps| == |t.subs|
  {
    seq(|t.subs|, j requires 0 <= j < |t.subs| => if j < n then Moved(t.subs[j], m).page else t.subs[j].page)
  }

  /** The new node is written with `n` pointers patched, and that many subtrees are in place. */
  ghost predicate Copied(before: Heap, h: Heap, t: Shape, m: Map, n: nat) {
    && n <= |t.subs| && t.page in m
    && Framed(before, h, Pages(t), m)
    && Placed(h, t, m, n)
    && m[t.page] in h && h[m[t.page]] == Node(t.payload, Patched(t, m, n))
  }

  lemma FramedWrite(before: Heap, k: Heap, t: Shape, m: Map, node: Node)
    requires t.page in m && Framed(before, k, Pages(t), m)
    ensures Framed(before, k[m[t.page] := node], Pages(t), m)
  {
    assert m[t.page] in Image(Pages(t), m);
  }

  lemma PatchedNext(t: Shape, m: Map, i: nat)
    requires i < |t.subs|
    ensures Patched(t, m, i)[i := Moved(t.subs[i], m).page] == Patched(t, m, i + 1)
  {
  }

  /** The child's relocation left everything of the copy in place. */
  lemma CopiedFrame(before: Heap, h: Heap, k: Heap, t: Shape, m: Map, i: nat)
    requires Apart(t) && Injective(m) && m.Values !! Pages(t) && i < |t.subs|
    requires Copied(before, h, t, m, i) && Framed(h, k, Pages(t.subs[i]), m) && Stored(k, Moved(t.subs[i], m))
    ensures m[t.page] in k && k[m[t.page]] == Node(t.payload, Patched(t, m, i))
    ensures Framed(before, k, Pages(t), m) && Placed(k, t, m, i + 1)
  {
    OwnPage(t, m, i);
    OwnNode(h, k, t, m, i);
    FramedSub(before, h, k, t, i, m);
    PlacedFrame(h, k, t, m, i, i);
    PlacedNext(k, t, m, i);
  }

  lemma OwnNode(h: Heap, k: Heap, t: Shape, m: Map, i: nat)
    requires i < |t.subs| && t.page in m && m[t.page] in h && Framed(h, k, Pages(t.subs[i]), m)
    requires m[t.page] !in Image(Pages(t.subs[i]), m)
    ensures m[t.page] in k && k[m[t.page]] == h[m[t.page]]
  {
  }

  lemma PlacedNext(k: Heap, t: Shape, m: Map, i: nat)
    requires i < |t.subs| && Placed(k, t, m, i) && Stored(k, Moved(t.subs[i], m))
    ensures Placed(k, t, m, i + 1)
  {
  }

  lemma CopiedNext(before: Heap, k: Heap, t: Shape, m: Map, i: nat, node: Node)
    requires Apart(t) && Injective(m) && m.Values !! Pages(t) && i < |t.subs| && t.page in m
    requires Framed(before, k, Pages(t), m) && Placed(k, t, m, i + 1)
    requires node == Node(t.payload, Patched(t, m, i)[i := Moved(t.subs[i], m).page])
    ensures Copied(before, k[m[t.page] := node], t, m, i + 1)
  {
    FramedWrite(before, k, t, m, node);
    PlacedWrite(k, t, m, i + 1, node);
    PatchedNext(t, m, i);
  }

  lemma ChildReady(t: Shape, m: Map, i: nat, before: seq<Page>, freed: seq<Page>)
    requires i < |t.subs| && Apart(t) && m.Values !! Pages(t) && Elements(before) !! Pages(t)
    requires Elements(freed) == Elements(before) + ReplacedBelow(t, m, i)
    ensures m.Values !! Pages(t.subs[i]) && Elements(freed) !! Pages(t.subs[i])
  {
    SubPages(t, i);
    forall p | p in ReplacedBelow(t, m, i)
      ensures p !in Pages(t.subs[i])
    {
      var j :| 0 <= j < i && p in Replaced(t.subs[j], m);
      ReplacedPages(t.subs[j], m);
    }
  }

  lemma OwnPage(t: Shape, m: Map, i: nat)
    requires i < |t.subs| && Apart(t) && Injective(m) && t.page in m
    ensures m[t.page] !in Image(Pages(t.subs[i]), m)
  {
  }

  lemma ReplacedNext(t: Shape, m: Map, i: nat, start: set<Page>, freed: set<Page>)
    requires i < |t.subs| && freed == start + ReplacedBelow(t, m, i)
    ensures freed + Replaced(t.subs[i], m) == start + ReplacedBelow(t, m, i + 1)
  {
  }

  lemma FreeOwn(t: Shape, m: Map, before: seq<Page>, freed: seq<Page>)
    requires Apart(t) && t.page in m && Elements(before) !! Pages(t) && NoDuplicates(freed)
    requires Elements(freed) == Elements(before) + ReplacedBelow(t, m, |t.subs|)
    ensures NoDuplicates(freed + [t.page])
    ensures Elements(freed + [t.page]) == Elements(before) + Replaced(t, m)
  {
    ElementsAdd(freed, t.page);
    assert t.page !in ReplacedBelow(t, m, |t.subs|) by {
      if t.page in ReplacedBelow(t, m, |t.subs|) {
        var j :| 0 <= j < |t.subs| && t.page in Replaced(t.subs[j], m);
        ReplacedPages(t.subs[j], m);
      }
    }
    assert t.page !in Elements(freed);
  }

  // ---------------------------------------------------------------- building the map

  /** `allocate_lowest` */
  method AllocateLowest(alloc: set<Page>) returns (p: Page)
    ensures p !in alloc && forall q :: 0 <= q < p ==> q in alloc
  {
    p := 0;
    ghost var rest := alloc;
    while p in alloc
      invariant forall q :: 0 <= q < p ==> q in alloc
      invariant rest == set q | q in alloc && q >= p
      decreases |rest|
    {
      rest := rest - {p};
      p := p + 1;
    }
  }

  /** Page `x` is on some path, and so is everything from the root of that path down to it. */
  ghost predicate Supported(m: Map, paths: seq<seq<Page>>, x: Page) {
    exists k, n :: Reaches(paths, k, n, x) && Covered(paths[k], n, m)
  }

  ghost predicate Reaches(paths: seq<seq<Page>>, k: int, n: int, x: Page) {
    0 <= k < |paths| && 0 <= n < |paths[k]| && paths[k][n] == x
  }

  /** The pages of the path up to position `n` are all mapped. */
  ghost predicate Covered(path: seq<Page>, n: int, m: Map)
    requires n < |path|
  {
    forall l :: 0 <= l <= n ==> path[l] in m
  }

  lemma SupportedGrows(m: Map, more: Map, paths: seq<seq<Page>>, x: Page)
    requires Supported(m, paths, x) && m.Keys <= more.Keys
    ensures Supported(more, paths, x)
  {
    var k, n :| Reaches(paths, k, n, x) && Covered(paths[k], n, m);
    assert Covered(paths[k], n, more);
  }

  /** The map built so far: injective, onto pages that were free, from pages in use. */
  ghost predicate MapOk(m: Map, alloc0: set<Page>, alloc: set<Page>) {
    Injective(m) && m.Keys <= alloc0 && m.Values !! alloc0 && alloc == alloc0 + m.Values
  }

  lemma MapAdd(m: Map, alloc0: set<Page>, alloc: set<Page>, x: Page, p: Page)
    requires MapOk(m, alloc0, alloc) && x in alloc0 && x !in m && p !in alloc
    ensures MapOk(m[x := p], alloc0, alloc + {p})
  {
    var more := m[x := p];
    assert more[x] == p;
    forall v | v in m.Values
      ensures v in more.Values
    {
      var k :| k in m && m[k] == v;
      assert more[k] == v;
    }
    assert more.Values == m.Values + {p};
  }

  ghost predicate AllSupported(m: Map, paths: seq<seq<Page>>, except: set<Page>) {
    forall x :: x in m && x !in except ==> Supported(m, paths, x)
  }

  lemma SupportedAdd(m: Map, paths: seq<seq<Page>>, except: set<Page>, k: int, n: int, p: Page)
    requires AllSupported(m, paths, except) && 0 <= k < |paths| && 0 <= n < |paths[k]|
    requires forall l :: 0 <= l < n ==> paths[k][l] in m
    ensures AllSupported(m[paths[k][n] := p], paths, except - {paths[k][n]})
  {
    var x, more := paths[k][n], m[paths[k][n] := p];
    forall y | y in more && y !in except - {x}
      ensures Supported(more, paths, y)
    {
      if y == x {
        assert Reaches(paths, k, n, x) && Covered(paths[k], n, more);
      } else {
        SupportedGrows(m, more, paths, y);
      }
    }
  }

  function Last(path: seq<Page>): Page
    requires path != []
  {
    path[|path| - 1]
  }

  /** Only a page rewritten for the sake of a page below it may move to a higher one. */
  ghost predicate Lowers(m: Map, paths: seq<seq<Page>>) {
    forall x :: x in m ==> m[x] < x || IsParent(paths, x)
  }

  ghost predicate IsParent(paths: seq<seq<Page>>, x: Page) {
    exists k, n :: Reaches(paths, k, n, x) && n < |paths[k]| - 1
  }

  /**
   The first `j` pages to move are mapped, and besides them only pages on the ways to them; page
   `j` could not have moved lower.
   */
  ghost predicate MovedUntil(m: Map, alloc: set<Page>, paths: seq<seq<Page>>, j: nat) {
    && j <= |paths| && OnWays(m, paths, j)
    && EndsMapped(m, paths, j)
    && (j < |paths| ==> paths[j] != [] && forall q :: 0 <= q < Last(paths[j]) ==> q in alloc)
  }

  ghost predicate EndsMapped(m: Map, paths: seq<seq<Page>>, j: nat) {
    forall k :: 0 <= k < j && k < |paths| ==> paths[k] != [] && Last(paths[k]) in m
  }

  lemma EndsNext(m: Map, more: Map, paths: seq<seq<Page>>, j: nat, next: nat)
    requires EndsMapped(m, paths, j) && m.Keys <= more.Keys && next == j + 1
    requires j < |paths| && paths[j] != [] && Last(paths[j]) in more
    ensures EndsMapped(more, paths, next)
  {
  }

  /** Every mapped page is on one of the first `j` paths. */
  ghost predicate OnWays(m: Map, paths: seq<seq<Page>>, j: nat) {
    forall x :: x in m ==> OnWay(paths, j, x)
  }

  ghost predicate OnWay(paths: seq<seq<Page>>, j: nat, x: Page) {
    exists k, n :: Reaches(paths, k, n, x) && k < j
  }

  lemma OnWaysAdd(m: Map, paths: seq<seq<Page>>, j: nat, next: nat, l: int, p: Page)
    requires OnWays(m, paths, j) && j < |paths| && 0 <= l < |paths[j]| && next == j + 1
    ensures OnWays(m[paths[j][l] := p], paths, next)
  {
    OnWaysMore(m, paths, j, next);
    assert Reaches(paths, j, l, paths[j][l]);
  }

  lemma OnWaysMore(m: Map, paths: seq<seq<Page>>, j: nat, next: nat)
    requires OnWays(m, paths, j) && j <= next
    ensures OnWays(m, paths, next)
  {
    forall x | x in m
      ensures OnWay(paths, next, x)
    {
      assert OnWay(paths, j, x);
      var k, n :| Reaches(paths, k, n, x) && k < j;
      assert Reaches(paths, k, n, x) && k < next;
    }
  }

  /** The lowest free pages are used first: below a new page nothing is free. */
  ghost predicate Packed(m: Map, alloc: set<Page>) {
    forall x, q :: x in m && 0 <= q < m[x] ==> q in alloc
  }

  /** The map while it is built, from the first `next` paths; `except` waits for its parents. */
  ghost predicate Built(m: Map, alloc0: set<Page>, alloc: set<Page>, paths: seq<seq<Page>>, next: nat,
                        except: set<Page>)
  {
    && MapOk(m, alloc0, alloc) && AllSupported(m, paths, except) && Lowers(m, paths)
    && Packed(m, alloc) && OnWays(m, paths, next)
  }

  ghost predicate FrontMapped(m: Map, path: seq<Page>, l: nat) {
    forall i :: 0 <= i < l && i < |path| ==> path[i] in m
  }

  lemma FrontNext(m: Map, more: Map, path: seq<Page>, l: nat, next: nat)
    requires FrontMapped(m, path, l) && m.Keys <= more.Keys && next == l + 1 && l < |path| && path[l] in more
    ensures FrontMapped(more, path, next)
  {
  }

  /** A page whose parents are mapped gets the lowest free page. */
  lemma BuiltParent(m: Map, alloc0: set<Page>, alloc: set<Page>, paths: seq<seq<Page>>, k: nat, next: nat, l: nat,
                    page: Page, p: Page)
    requires Built(m, alloc0, alloc, paths, next, {page}) && next == k + 1 && k < |paths| && l < |paths[k]| - 1
    requires FrontMapped(m, paths[k], l) && paths[k][l] in alloc0 && paths[k][l] !in m && page in m
    requires p !in alloc && forall q :: 0 <= q < p ==> q in alloc
    ensures Built(m[paths[k][l] := p], alloc0, alloc + {p}, paths, next, {page})
  {
    var parent := paths[k][l];
    MapAdd(m, alloc0, alloc, parent, p);
    SupportedAdd(m, paths, {page}, k, l, p);
    assert {page} - {parent} == {page};
    assert Reaches(paths, k, l, parent) && k < next;
  }

  lemma BuiltPage(m: Map, alloc0: set<Page>, alloc: set<Page>, paths: seq<seq<Page>>, k: nat, next: nat, p: Page)
    requires Built(m, alloc0, alloc, paths, k, {}) && next == k + 1 && k < |paths| && paths[k] != []
    requires var page := Last(paths[k]); page in alloc0 && page !in m && p < page
    requires p !in alloc && forall q :: 0 <= q < p ==> q in alloc
    ensures Built(m[Last(paths[k]) := p], alloc0, alloc + {p}, paths, next, {Last(paths[k])})
  {
    MapAdd(m, alloc0, alloc, Last(paths[k]), p);
    SupportedExcept(m, paths, Last(paths[k]), p);
    OnWaysAdd(m, paths, k, next, |paths[k]| - 1, p);
  }

  /** The parents of a page that moves have to be rewritten, so they move as well. */
  method MapParents(m0: Map, alloc0: set<Page>, alloc1: set<Page>, paths: seq<seq<Page>>, k: nat)
    returns (m: Map, alloc: set<Page>)
    requires k < |paths| && |paths[k]| > 0 && (forall q :: q in paths[k] ==> q in alloc0)
    requires Last(paths[k]) in m0 && Built(m0, alloc0, alloc1, paths, k + 1, {Last(paths[k])})
    ensures m0.Keys <= m.Keys && Built(m, alloc0, alloc, paths, k + 1, {})
  {
    m, alloc := m0, alloc1;
    var last := |paths[k]| - 1;
    ghost var page, next := paths[k][last], k + 1;
    for l := 0 to last
      invariant m0.Keys <= m.Keys && Built(m, alloc0, alloc, paths, next, {page})
      invariant FrontMapped(m, paths[k], l)
    {
      var parent := paths[k][l];
      ghost var before := m;
      if parent !in m {
        var p := AllocateLowest(alloc);
        BuiltParent(m, alloc0, alloc, paths, k, next, l, page, p);
        m, alloc := m[parent := p], alloc + {p};
      }
      FrontNext(before, m, paths[k], l, l + 1);
    }
    BuiltWhole(m, alloc0, alloc, paths, k, next, last);
  }

  lemma BuiltWhole(m: Map, alloc0: set<Page>, alloc: set<Page>, paths: seq<seq<Page>>, k: nat, next: nat, last: nat)
    requires k < |paths| && last < |paths[k]| && Built(m, alloc0, alloc, paths, next, {paths[k][last]})
    requires FrontMapped(m, paths[k], last) && paths[k][last] in m
    ensures Built(m, alloc0, alloc, paths, next, {})
  {
    assert Reaches(paths, k, last, paths[k][last]) && Covered(paths[k], last, m);
  }

  /**
   The map of `compact_pages`, from the highest page downwards until a page cannot move lower.
   `paths` are the pages to move with their way from the root, highest first.
   */
  method BuildMap(alloc0: set<Page>, paths: seq<seq<Page>>) returns (m: Map, alloc: set<Page>, j: nat)
    requires forall k :: 0 <= k < |paths| ==> |paths[k]| > 0 && forall q :: q in paths[k] ==> q in alloc0
    ensures MapOk(m, alloc0, alloc) && AllSupported(m, paths, {})
    ensures Lowers(m, paths) && MovedUntil(m, alloc, paths, j) && Packed(m, alloc)
  {
    m, alloc, j := map[], alloc0, 0;
    var lower := true;
    while j < |paths| && lower
      invariant j <= |paths| && Built(m, alloc0, alloc, paths, j, {})
      invariant EndsMapped(m, paths, j)
      invariant !lower ==> j < |paths| && paths[j] != [] && forall q :: 0 <= q < Last(paths[j]) ==> q in alloc
      decreases |paths| - j, lower
    {
      ghost var before := m;
      m, alloc, lower := MapPage(m, alloc0, alloc, paths, j);
      if lower {
        EndsNext(before, m, paths, j, j + 1);
        j := j + 1;
      }
    }
  }

  /** The next page to move, unless no lower one is free. */
  method MapPage(m0: Map, alloc0: set<Page>, alloc1: set<Page>, paths: seq<seq<Page>>, k: nat)
    returns (m: Map, alloc: set<Page>, lower: bool)
    requires k < |paths| && |paths[k]| > 0 && (forall q :: q in paths[k] ==> q in alloc0)
    requires Built(m0, alloc0, alloc1, paths, k, {})
    ensures lower ==> m0.Keys <= m.Keys && Last(paths[k]) in m && Built(m, alloc0, alloc, paths, k + 1, {})
    ensures !lower ==> m == m0 && alloc == alloc1 && forall q :: 0 <= q < Last(paths[k]) ==> q in alloc
  {
    m, alloc, lower := m0, alloc1, true;
    var page := Last(paths[k]);
    if page in m {
      OnWaysMore(m, paths, k, k + 1);
      return;
    }
    assert page in paths[k];
    var p := AllocateLowest(alloc);
    if p < page {
      BuiltPage(m, alloc0, alloc, paths, k, k + 1, p);
      m, alloc := MapParents(m[page := p], alloc0, alloc + {p}, paths, k);
    } else {
      // the new page goes back to the allocator
      lower := false;
    }
  }

  lemma SupportedExcept(m: Map, paths: seq<seq<Page>>, page: Page, p: Page)
    requires AllSupported(m, paths, {})
    ensures AllSupported(m[page := p], paths, {page})
  {
    var more := m[page := p];
    forall x | x in more && x != page
      ensures Supported(more, paths, x)
    {
      SupportedGrows(m, more, paths, x);
    }
  }

  // ---------------------------------------------------------------- closed under parents

  /** `path` goes down the tree from its root. */
  ghost predicate PathOf(t: Shape, path: seq<Page>)
    decreases path
  {
    && path != [] && path[0] == t.page
    && (|path| > 1 ==> exists i :: 0 <= i < |t.subs| && PathOf(t.subs[i], path[1..]))
  }

  lemma {:induction false} PathPages(t: Shape, path: seq<Page>)
    requires PathOf(t, path)
    ensures path[|path| - 1] in Pages(t)
    decreases path
  {
    if |path| > 1 {
      var i :| 0 <= i < |t.subs| && PathOf(t.subs[i], path[1..]);
      PathPages(t.subs[i], path[1..]);
    }
  }

  /** Every mapped page of the tree can be reached through mapped pages. */
  ghost predicate Led(t: Shape, m: Map) {
    forall x :: x in Pages(t) && x in m ==> LedTo(t, m, x)
  }

  ghost predicate LedTo(t: Shape, m: Map, x: Page) {
    exists path :: PathTo(t, path, x) && Mapped(path, m)
  }

  ghost predicate Mapped(path: seq<Page>, m: Map) {
    forall q :: q in path ==> q in m
  }

  ghost predicate PathTo(t: Shape, path: seq<Page>, x: Page) {
    PathOf(t, path) && path[|path| - 1] == x
  }

  /** The way to a page of one subtree goes through that subtree. */
  lemma PathBelow(t: Shape, i: nat, x: Page, path: seq<Page>)
    requires Apart(t) && i < |t.subs| && x in Pages(t.subs[i]) && PathTo(t, path, x)
    ensures |path| > 1 && PathTo(t.subs[i], path[1..], x)
  {
    assert x != t.page;
    var j :| 0 <= j < |t.subs| && PathOf(t.subs[j], path[1..]);
    PathPages(t.subs[j], path[1..]);
    assert i == j;
  }

  lemma LedToBelow(t: Shape, m: Map, i: nat, x: Page)
    requires LedTo(t, m, x) && Apart(t) && i < |t.subs| && x in Pages(t.subs[i])
    ensures LedTo(t.subs[i], m, x)
  {
    var path :| PathTo(t, path, x) && Mapped(path, m);
    PathBelow(t, i, x, path);
    assert Mapped(path[1..], m);
  }

  lemma LedBelow(t: Shape, m: Map, i: nat)
    requires Led(t, m) && Apart(t) && i < |t.subs|
    ensures Led(t.subs[i], m)
  {
    SubPages(t, i);
    forall x | x in Pages(t.subs[i]) && x in m
      ensures LedTo(t.subs[i], m, x)
    {
      LedToBelow(t, m, i, x);
    }
  }

  lemma {:induction false} LedIsClosed(t: Shape, m: Map)
    requires Led(t, m) && Apart(t)
    ensures ClosedUp(t, m)
    decreases t
  {
    forall i | 0 <= i < |t.subs|
      ensures ClosedUp(t.subs[i], m)
    {
      LedBelow(t, m, i);
      LedIsClosed(t.subs[i], m);
    }
    if x :| x in Pages(t) && x in m {
      assert LedTo(t, m, x);
      var path :| PathTo(t, path, x) && Mapped(path, m);
      assert path[0] in path;
    }
  }

  lemma {:induction false} PathPrefix(t: Shape, path: seq<Page>, n: nat)
    requires PathOf(t, path) && n < |path|
    ensures PathOf(t, path[..n + 1])
    decreases path
  {
    if n > 0 {
      var i :| 0 <= i < |t.subs| && PathOf(t.subs[i], path[1..]);
      PathPrefix(t.subs[i], path[1..], n - 1);
      assert path[1..][..n] == path[..n + 1][1..];
    }
  }

  lemma PathPage(t: Shape, path: seq<Page>, q: Page)
    requires PathOf(t, path) && q in path
    ensures q in Pages(t)
  {
    var n :| 0 <= n < |path| && path[n] == q;
    PathPrefix(t, path, n);
    PathPages(t, path[..n + 1]);
  }

  // ---------------------------------------------------------------- all trees of the database

  /** Tables, master trees and system trees: no page is in two of them. */
  ghost predicate IsForest(ts: seq<Shape>) {
    && (forall i :: 0 <= i < |ts| ==> Apart(ts[i]))
    && (forall i, j :: 0 <= i < j < |ts| ==> Pages(ts[i]) !! Pages(ts[j]))
  }

  /** Every path goes down one of the trees. */
  ghost predicate PathsOf(ts: seq<Shape>, paths: seq<seq<Page>>) {
    forall k :: 0 <= k < |paths| ==> InForest(ts, paths[k])
  }

  ghost predicate InForest(ts: seq<Shape>, path: seq<Page>) {
    exists i :: 0 <= i < |ts| && PathOf(ts[i], path)
  }

  lemma OneTree(ts: seq<Shape>, i: nat, j: nat, x: Page)
    requires IsForest(ts) && i < |ts| && j < |ts| && x in Pages(ts[i]) && x in Pages(ts[j])
    ensures i == j
  {
  }

  lemma SupportedIsLed(ts: seq<Shape>, m: Map, paths: seq<seq<Page>>, i: nat, x: Page)
    requires IsForest(ts) && PathsOf(ts, paths) && i < |ts| && x in Pages(ts[i]) && Supported(m, paths, x)
    ensures LedTo(ts[i], m, x)
  {
    var k, n :| Reaches(paths, k, n, x) && Covered(paths[k], n, m);
    assert InForest(ts, paths[k]);
    var j :| 0 <= j < |ts| && PathOf(ts[j], paths[k]);
    PrefixLeads(ts[j], paths[k], n, m);
    OneTree(ts, i, j, x);
  }

  lemma PrefixLeads(t: Shape, path: seq<Page>, n: nat, m: Map)
    requires PathOf(t, path) && n < |path| && Covered(path, n, m)
    ensures path[n] in Pages(t) && LedTo(t, m, path[n])
  {
    PathPrefix(t, path, n);
    PathPages(t, path[..n + 1]);
    assert PathTo(t, path[..n + 1], path[n]) && Mapped(path[..n + 1], m);
  }

  /** A map built from paths of the trees moves no page of any of them without its parents. */
  lemma BuiltIsClosed(ts: seq<Shape>, m: Map, paths: seq<seq<Page>>, i: nat)
    requires IsForest(ts) && AllSupported(m, paths, {}) && PathsOf(ts, paths) && i < |ts|
    ensures ClosedUp(ts[i], m)
  {
    forall x | x in Pages(ts[i]) && x in m
      ensures LedTo(ts[i], m, x)
    {
      assert Supported(m, paths, x);
      SupportedIsLed(ts, m, paths, i, x);
    }
    LedIsClosed(ts[i], m);
  }

  ghost function ForestPages(ts: seq<Shape>): set<Page> {
    set i, p | 0 <= i < |ts| && p in Pages(ts[i]) :: p
  }

  /** The old pages the first `n` trees give up. */
  ghost function ReplacedIn(ts: seq<Shape>, m: Map, n: nat): set<Page>
    requires n <= |ts|
  {
    set i, p | 0 <= i < n && p in Replaced(ts[i], m) :: p
  }

  /** The first `n` trees are at their new pages, the others where they were. */
  ghost predicate Halfway(h: Heap, ts: seq<Shape>, m: Map, n: nat) {
    && (forall i :: 0 <= i < n && i < |ts| ==> Stored(h, Moved(ts[i], m)))
    && (forall i :: n <= i < |ts| ==> Stored(h, ts[i]))
  }

  lemma HalfwayNext(h: Heap, k: Heap, ts: seq<Shape>, m: Map, n: nat)
    requires IsForest(ts) && Injective(m) && m.Values !! ForestPages(ts) && n < |ts|
    requires Halfway(h, ts, m, n) && Framed(h, k, Pages(ts[n]), m) && Stored(k, Moved(ts[n], m))
    ensures Halfway(k, ts, m, n + 1)
  {
    forall i | 0 <= i < |ts| && i != n
      ensures Stored(k, if i < n then Moved(ts[i], m) else ts[i])
    {
      OtherTree(h, k, ts, m, n, i);
    }
  }

  lemma OtherTree(h: Heap, k: Heap, ts: seq<Shape>, m: Map, n: nat, i: nat)
    requires IsForest(ts) && Injective(m) && m.Values !! ForestPages(ts) && n < |ts| && i < |ts| && i != n
    requires Framed(h, k, Pages(ts[n]), m)
    ensures Stored(h, ts[i]) ==> Stored(k, ts[i])
    ensures Stored(h, Moved(ts[i], m)) ==> Stored(k, Moved(ts[i], m))
  {
    var written := Image(Pages(ts[n]), m);
    assert Pages(ts[i]) <= ForestPages(ts) && written <= m.Values;
    assert Pages(ts[i]) !! Pages(ts[n]);
    MovedPages(ts[i], m);
    DisjointImages(m, Pages(ts[i]), Pages(ts[n]));
    if Stored(h, ts[i]) {
      StoredFrame(h, k, ts[i], written);
    }
    if Stored(h, Moved(ts[i], m)) {
      StoredFrame(h, k, Moved(ts[i], m), written);
    }
  }

  lemma ForestFreed(ts: seq<Shape>, m: Map, n: nat, freed: set<Page>)
    requires IsForest(ts) && n < |ts| && freed == ReplacedIn(ts, m, n)
    ensures freed !! Pages(ts[n])
    ensures freed + Replaced(ts[n], m) == ReplacedIn(ts, m, n + 1)
  {
    forall p | p in freed
      ensures p !in Pages(ts[n])
    {
      var i :| 0 <= i < n && p in Replaced(ts[i], m);
      ReplacedPages(ts[i], m);
      assert Pages(ts[i]) !! Pages(ts[n]);
    }
  }

  /** With all trees closed, what is given up is every mapped page of the database. */
  lemma ForestReplaced(ts: seq<Shape>, m: Map)
    requires forall i :: 0 <= i < |ts| ==> ClosedUp(ts[i], m)
    ensures ReplacedIn(ts, m, |ts|) == ForestPages(ts) * m.Keys
  {
    forall i | 0 <= i < |ts|
      ensures Replaced(ts[i], m) == Pages(ts[i]) * m.Keys
    {
      ReplacedAll(ts[i], m);
    }
    forall p | p in ForestPages(ts) && p in m
      ensures p in ReplacedIn(ts, m, |ts|)
    {
      var i :| 0 <= i < |ts| && p in Pages(ts[i]);
      assert p in Replaced(ts[i], m);
    }
    forall p | p in ReplacedIn(ts, m, |ts|)
      ensures p in ForestPages(ts) && p in m
    {
      var i :| 0 <= i < |ts| && p in Replaced(ts[i], m);
      assert p in Pages(ts[i]);
    }
  }

  ghost function MovedAll(ts: seq<Shape>, m: Map): seq<Shape> {
    seq(|ts|, i requires 0 <= i < |ts| => Moved(ts[i], m))
  }

  /** The moved trees stand on the old pages that stay and on the new ones, and share none. */
  lemma ForestMoved(ts: seq<Shape>, m: Map)
    requires IsForest(ts) && Injective(m) && m.Values !! ForestPages(ts)
    requires forall i :: 0 <= i < |ts| ==> ClosedUp(ts[i], m)
    ensures IsForest(MovedAll(ts, m))
    ensures ForestPages(MovedAll(ts, m)) == (ForestPages(ts) - m.Keys) + Image(ForestPages(ts), m)
  {
    var moved := MovedAll(ts, m);
    forall i | 0 <= i < |ts|
      ensures Apart(moved[i]) && Pages(moved[i]) == (Pages(ts[i]) - m.Keys) + Image(Pages(ts[i]), m)
    {
      TreePages(ts, i);
      MovedApart(ts[i], m);
      MovedExactly(ts[i], m);
    }
    forall i, j | 0 <= i < j < |ts|
      ensures Pages(moved[i]) !! Pages(moved[j])
    {
      TreePages(ts, i);
      TreePages(ts, j);
      MovedDisjoint(ts[i], ts[j], m);
    }
    ForestImages(ts, moved, m);
  }

  lemma ForestImages(ts: seq<Shape>, moved: seq<Shape>, m: Map)
    requires |moved| == |ts|
    requires forall i :: 0 <= i < |ts| ==> Pages(moved[i]) == (Pages(ts[i]) - m.Keys) + Image(Pages(ts[i]), m)
    ensures ForestPages(moved) == (ForestPages(ts) - m.Keys) + Image(ForestPages(ts), m)
  {
    forall q | q in ForestPages(ts)
      ensures q !in m ==> q in ForestPages(moved)
      ensures q in m ==> m[q] in ForestPages(moved)
    {
      var i :| 0 <= i < |ts| && q in Pages(ts[i]);
      TreePages(moved, i);
    }
    forall p | p in ForestPages(moved)
      ensures p in (ForestPages(ts) - m.Keys) + Image(ForestPages(ts), m)
    {
      var i :| 0 <= i < |moved| && p in Pages(moved[i]);
      TreePages(ts, i);
    }
  }

  /** `relocate_tables`: one tree after the other with the one map. */
  method RelocateAll(store: PageStore, roots: seq<Page>, m: Map, ghost ts: seq<Shape>) returns (rs: seq<Page>)
    requires IsForest(ts) && |roots| == |ts| && store.freed == []
    requires forall i :: 0 <= i < |ts| ==> roots[i] == ts[i].page && Stored(store.pages, ts[i])
    requires Injective(m) && m.Values !! ForestPages(ts)
    modifies store
    ensures |rs| == |ts|
    ensures forall i :: 0 <= i < |ts| ==> rs[i] == Moved(ts[i], m).page && Stored(store.pages, Moved(ts[i], m))
    ensures NoDuplicates(store.freed) && Elements(store.freed) == ReplacedIn(ts, m, |ts|)
  {
    rs := [];
    assert Elements(store.freed) == ReplacedIn(ts, m, 0);
    for n := 0 to |roots|
      invariant |rs| == n && forall i :: 0 <= i < n ==> rs[i] == Moved(ts[i], m).page
      invariant Halfway(store.pages, ts, m, n)
      invariant NoDuplicates(store.freed) && Elements(store.freed) == ReplacedIn(ts, m, n)
    {
      var r := RelocateTree(store, roots[n], m, ts, n);
      rs := rs + [r];
    }
  }

  method RelocateTree(store: PageStore, root: Page, m: Map, ghost ts: seq<Shape>, ghost n: nat) returns (r: Page)
    requires IsForest(ts) && n < |ts| && root == ts[n].page && Halfway(store.pages, ts, m, n)
    requires Injective(m) && m.Values !! ForestPages(ts)
    requires NoDuplicates(store.freed) && Elements(store.freed) == ReplacedIn(ts, m, n)
    modifies store
    ensures r == Moved(ts[n], m).page && Halfway(store.pages, ts, m, n + 1)
    ensures NoDuplicates(store.freed) && Elements(store.freed) == ReplacedIn(ts, m, n + 1)
  {
    ghost var h := store.pages;
    ForestFreed(ts, m, n, Elements(store.freed));
    TreePages(ts, n);
    r := store.Relocate(root, m, ts[n]);
    HalfwayNext(h, store.pages, ts, m, n);
  }

  lemma TreePages(ts: seq<Shape>, n: nat)
    requires n < |ts|
    ensures Pages(ts[n]) <= ForestPages(ts)
  {
  }

  /**
   `compact_pages`: one map for all trees, then every tree is moved with it.  Each keeps its
   meaning, and exactly the mapped pages are freed, each once.
   */
  method Compact(store: PageStore, alloc0: set<Page>, paths: seq<seq<Page>>, roots: seq<Page>, ghost ts: seq<Shape>)
    returns (rs: seq<Page>, m: Map, alloc: set<Page>, j: nat)
    requires IsForest(ts) && |roots| == |ts| && store.freed == [] && PathsOf(ts, paths) && ForestPages(ts) <= alloc0
    requires forall i :: 0 <= i < |ts| ==> roots[i] == ts[i].page && Stored(store.pages, ts[i])
    modifies store
    ensures |rs| == |ts|
    ensures forall i :: 0 <= i < |ts| ==> rs[i] == Moved(ts[i], m).page && Stored(store.pages, Moved(ts[i], m))
    ensures forall i :: 0 <= i < |ts| ==> MeaningOf(Moved(ts[i], m)) == MeaningOf(ts[i])
    ensures NoDuplicates(store.freed) && Elements(store.freed) == ForestPages(ts) * m.Keys
    ensures Injective(m) && m.Values !! alloc0 && alloc == alloc0 + m.Values
    ensures IsForest(MovedAll(ts, m)) && ForestPages(MovedAll(ts, m)) !! Elements(store.freed)
    ensures ForestPages(MovedAll(ts, m)) == (ForestPages(ts) - m.Keys) + Image(ForestPages(ts), m)
    ensures Lowers(m, paths) && MovedUntil(m, alloc, paths, j) && Packed(m, alloc)
  {
    PathsAllocated(ts, paths, alloc0);
    m, alloc, j := BuildMap(alloc0, paths);
    forall i | 0 <= i < |ts|
      ensures ClosedUp(ts[i], m) && MeaningOf(Moved(ts[i], m)) == MeaningOf(ts[i])
    {
      BuiltIsClosed(ts, m, paths, i);
      MovedMeaning(ts[i], m);
    }
    ForestReplaced(ts, m);
    ForestMoved(ts, m);
    rs := RelocateAll(store, roots, m, ts);
  }

  lemma PathsAllocated(ts: seq<Shape>, paths: seq<seq<Page>>, alloc: set<Page>)
    requires PathsOf(ts, paths) && ForestPages(ts) <= alloc
    ensures forall k :: 0 <= k < |paths| ==> |paths[k]| > 0 && forall q :: q in paths[k] ==> q in alloc
  {
    forall k | 0 <= k < |paths|
      ensures |paths[k]| > 0 && forall q :: q in paths[k] ==> q in alloc
    {
      assert InForest(ts, paths[k]);
      var i :| 0 <= i < |ts| && PathOf(ts[i], paths[k]);
      forall q | q in paths[k]
        ensures q in alloc
      {
        PathPage(ts[i], paths[k], q);
        assert q in ForestPages(ts);
      }
    }
  }
}
