/**
 The multimap table: each key's values are kept inline in the entry or in a subtree of their
 own, and move between the two at half a page.
 */
module Multimap {
  import opened Ledgers
  import opened CodecBytes
  import opened CodecTypes
  import opened Codec
  import CodecProofs

  type Key = seq<Byte>
  type Value = seq<Byte>

  const MAX_VALUE_LENGTH: nat := 3 * 1024 * 1024 * 1024
  const MAX_PAIR_LENGTH: nat := 3 * 1024 * 1024 * 1024 + 768 * 1024 * 1024

  // ---------------------------------------------------------------- leaves

  type Cmp = (Value, Value) -> Ordering

  /** What `Key::compare` promises on the values of a type: a total order. */
  ghost predicate Lawful(cmp: Cmp, dom: iset<Value>) {
    && (forall a, b :: a in dom && b in dom ==> cmp(b, a) == Flip(cmp(a, b)) && (cmp(a, b) == Equal <==> a == b))
    && (forall a, b, c :: a in dom && b in dom && c in dom && cmp(a, b) == Less && cmp(b, c) == Less ==>
        cmp(a, c) == Less)
  }

  /** `V::compare`; on encodings of a key type it never panics. */
  function Comparer(ty: Ty): Cmp {
    (a: Value, b: Value) => var r := CompareRaw(ty, a, b); if r.Some? then r.value else Equal
  }

  ghost predicate IsEncoding(ty: Ty, b: Value) {
    exists v :: HasType(v, ty) && Encode(ty, v) == Some(b)
  }

  ghost function Encodings(ty: Ty): iset<Value> {
    iset b | IsEncoding(ty, b)
  }

  lemma ComparerTotal(ty: Ty, a: Value, b: Value)
    requires IsKey(ty) && a in Encodings(ty) && b in Encodings(ty)
    ensures CompareRaw(ty, a, b).Some?
    ensures Comparer(ty)(b, a) == Flip(Comparer(ty)(a, b)) && (Comparer(ty)(a, b) == Equal <==> a == b)
  {
    var v :| HasType(v, ty) && Encode(ty, v) == Some(a);
    var w :| HasType(w, ty) && Encode(ty, w) == Some(b);
    CodecProofs.CompareRawTotal(ty, v, w);
  }

  lemma ComparerTransitive(ty: Ty, a: Value, b: Value, c: Value)
    requires IsKey(ty) && a in Encodings(ty) && b in Encodings(ty) && c in Encodings(ty)
    requires Comparer(ty)(a, b) == Less && Comparer(ty)(b, c) == Less
    ensures Comparer(ty)(a, c) == Less
  {
    var u :| HasType(u, ty) && Encode(ty, u) == Some(a);
    var v :| HasType(v, ty) && Encode(ty, v) == Some(b);
    var w :| HasType(w, ty) && Encode(ty, w) == Some(c);
    ComparerTotal(ty, a, b);
    ComparerTotal(ty, b, c);
    CodecProofs.CompareRawTransitive(ty, u, v, w);
  }

  /** Every key type of the universe keeps the promise. */
  lemma KeyTypeLawful(ty: Ty)
    requires IsKey(ty)
    ensures Lawful(Comparer(ty), Encodings(ty))
  {
    var cmp, dom := Comparer(ty), Encodings(ty);
    forall a, b | a in dom && b in dom
      ensures cmp(b, a) == Flip(cmp(a, b)) && (cmp(a, b) == Equal <==> a == b)
    {
      ComparerTotal(ty, a, b);
    }
    forall a, b, c | a in dom && b in dom && c in dom && cmp(a, b) == Less && cmp(b, c) == Less
      ensures cmp(a, c) == Less
    {
      ComparerTransitive(ty, a, b, c);
    }
  }

  ghost predicate Sorted(cmp: Cmp, dom: iset<Value>, vs: seq<Value>) {
    && (forall i :: 0 <= i < |vs| ==> vs[i] in dom)
    && (forall i, j :: 0 <= i < j < |vs| ==> cmp(vs[i], vs[j]) == Less)
  }

  function Length(vs: seq<Value>): nat {
    if vs == [] then 0 else |vs[0]| + Length(vs[1..])
  }

  /** `RawLeafBuilder::required_bytes` for unit values; `fixed` says whether keys carry no offsets. */
  function Required(fixed: bool, vs: seq<Value>): nat {
    4 + (if fixed then 0 else 4 * |vs|) + Length(vs)
  }

  lemma {:induction false} LengthSplit(a: seq<Value>, b: seq<Value>)
    ensures Length(a + b) == Length(a) + Length(b)
  {
    if a == [] {
      assert a + b == b;
    } else {
      assert (a + b)[1..] == a[1..] + b;
      LengthSplit(a[1..], b);
    }
  }

  lemma RequiredInsert(fixed: bool, vs: seq<Value>, i: nat, v: Value)
    requires i <= |vs|
    ensures Required(fixed, vs[..i] + [v] + vs[i..]) == Required(fixed, vs) + |v| + if fixed then 0 else 4
  {
    assert vs == vs[..i] + vs[i..];
    LengthSplit(vs[..i], vs[i..]);
    LengthSplit(vs[..i] + [v], vs[i..]);
    LengthSplit(vs[..i], [v]);
    assert [v][1..] == [];
  }

  lemma RequiredRemove(fixed: bool, vs: seq<Value>, i: nat)
    requires i < |vs|
    ensures Required(fixed, vs[..i] + vs[i + 1..]) <= Required(fixed, vs)
  {
    assert vs == vs[..i] + [vs[i]] + vs[i + 1..];
    LengthSplit(vs[..i] + [vs[i]], vs[i + 1..]);
    LengthSplit(vs[..i], [vs[i]]);
    LengthSplit(vs[..i], vs[i + 1..]);
  }

  lemma LessTrans(cmp: Cmp, dom: iset<Value>, a: Value, b: Value, c: Value)
    requires Lawful(cmp, dom) && a in dom && b in dom && c in dom && cmp(a, b) == Less && cmp(b, c) == Less
    ensures cmp(a, c) == Less
  {
  }

  lemma Compared(cmp: Cmp, dom: iset<Value>, a: Value, b: Value)
    requires Lawful(cmp, dom) && a in dom && b in dom
    ensures cmp(b, a) == Flip(cmp(a, b)) && (cmp(a, b) == Equal <==> a == b)
  {
  }

  /** Everything before `i` is smaller than `v`, everything from `i` on is larger. */
  ghost predicate Splits(cmp: Cmp, dom: iset<Value>, vs: seq<Value>, i: nat, v: Value) {
    && i <= |vs| && v in dom
    && (forall k :: 0 <= k < i ==> cmp(vs[k], v) == Less)
    && (forall k :: i <= k < |vs| ==> cmp(v, vs[k]) == Less)
  }

  lemma NotThere(cmp: Cmp, dom: iset<Value>, vs: seq<Value>, i: nat, v: Value)
    requires Lawful(cmp, dom) && Splits(cmp, dom, vs, i, v)
    ensures v !in vs
  {
    Compared(cmp, dom, v, v);
  }

  /** `LeafAccessor::position`, the binary search */
  method Position(cmp: Cmp, ghost dom: iset<Value>, vs: seq<Value>, v: Value) returns (i: nat, found: bool)
    requires Lawful(cmp, dom) && Sorted(cmp, dom, vs) && v in dom
    ensures found ==> i < |vs| && vs[i] == v
    ensures !found ==> Splits(cmp, dom, vs, i, v)
    ensures found <==> v in vs
  {
    var low, high := 0, |vs|;
    while low < high
      invariant 0 <= low <= high <= |vs|
      invariant forall k :: 0 <= k < low ==> cmp(vs[k], v) == Less
      invariant forall k :: high <= k < |vs| ==> cmp(v, vs[k]) == Less
    {
      var mid := (low + high) / 2;
      Compared(cmp, dom, v, vs[mid]);
      match cmp(v, vs[mid])
      case Less =>
        forall k | mid < k < |vs|
          ensures cmp(v, vs[k]) == Less
        {
          LessTrans(cmp, dom, v, vs[mid], vs[k]);
        }
        high := mid;
      case Equal => return mid, true;
      case Greater =>
        forall k | 0 <= k < mid
          ensures cmp(vs[k], v) == Less
        {
          LessTrans(cmp, dom, vs[k], vs[mid], v);
        }
        low := mid + 1;
    }
    NotThere(cmp, dom, vs, low, v);
    return low, false;
  }

  lemma SortedInsert(cmp: Cmp, dom: iset<Value>, vs: seq<Value>, i: nat, v: Value)
    requires Sorted(cmp, dom, vs) && Splits(cmp, dom, vs, i, v)
    ensures Sorted(cmp, dom, vs[..i] + [v] + vs[i..])
  {
  }

  lemma SortedRemove(cmp: Cmp, dom: iset<Value>, vs: seq<Value>, i: nat)
    requires Lawful(cmp, dom) && Sorted(cmp, dom, vs) && i < |vs|
    ensures Sorted(cmp, dom, vs[..i] + vs[i + 1..])
    ensures vs[i] !in vs[..i] + vs[i + 1..]
  {
    Compared(cmp, dom, vs[i], vs[i]);
  }

  /** The builder loop of an inline insert. */
  method BuildInserted(vs: seq<Value>, position: nat, v: Value) returns (r: seq<Value>)
    requires position <= |vs|
    ensures r == vs[..position] + [v] + vs[position..]
  {
    r := [];
    for i := 0 to |vs|
      invariant r == if i <= position then vs[..i] else vs[..position] + [v] + vs[position..i]
    {
      if i == position {
        r := r + [v];
      }
      r := r + [vs[i]];
    }
    if position == |vs| {
      r := r + [v];
    }
  }

  /** The builder loop of an inline remove. */
  method BuildRemoved(vs: seq<Value>, position: nat) returns (r: seq<Value>)
    requires position < |vs|
    ensures r == vs[..position] + vs[position + 1..]
  {
    r := [];
    for i := 0 to |vs|
      invariant r == if i <= position then vs[..i] else vs[..position] + vs[position + 1..i]
    {
      if i != position {
        r := r + [vs[i]];
      }
    }
  }

  // ---------------------------------------------------------------- subtrees

  datatype Root = Leaf | Branch

  /** A B-tree of values: what kind of page its root is, its contents and the length in its header. */
  datatype Subtree = Subtree(root: Root, values: seq<Value>, length: nat)

  function Elements(vs: seq<Value>): set<Value> {
    set v | v in vs
  }

  lemma ElementsLast(cmp: Cmp, dom: iset<Value>, vs: seq<Value>)
    requires Lawful(cmp, dom) && Sorted(cmp, dom, vs) && vs != []
    ensures vs[|vs| - 1] !in Elements(vs[..|vs| - 1])
    ensures Elements(vs) == Elements(vs[..|vs| - 1]) + {vs[|vs| - 1]}
  {
    Compared(cmp, dom, vs[|vs| - 1], vs[|vs| - 1]);
    assert vs == vs[..|vs| - 1] + [vs[|vs| - 1]];
  }

  lemma {:induction false} SortedSize(cmp: Cmp, dom: iset<Value>, vs: seq<Value>)
    requires Lawful(cmp, dom) && Sorted(cmp, dom, vs)
    ensures |Elements(vs)| == |vs|
    decreases |vs|
  {
    if vs == [] {
      assert Elements(vs) == {};
    } else {
      SortedSize(cmp, dom, vs[..|vs| - 1]);
      ElementsLast(cmp, dom, vs);
    }
  }

  /** `BtreeMut::insert`: a leaf root may split, a branch root stays one. */
  method SubtreeInsert(cmp: Cmp, ghost dom: iset<Value>, t: Option<Subtree>, v: Value, split: bool)
    returns (r: Subtree, existed: bool)
    requires Lawful(cmp, dom) && v in dom
    requires t.Some? ==> Sorted(cmp, dom, t.value.values) && t.value.length == |t.value.values|
    ensures Sorted(cmp, dom, r.values) && r.length == |r.values|
    ensures existed == (t.Some? && v in t.value.values)
    ensures Elements(r.values) == (if t.Some? then Elements(t.value.values) else {}) + {v}
    ensures r.root.Leaf? ==> t.None? || t.value.root.Leaf?
    ensures r.root.Branch? ==> split || (t.Some? && t.value.root.Branch?)
    ensures forall fixed :: Required(fixed, r.values) ==
              if t.None? then Required(fixed, [v])
              else if existed then Required(fixed, t.value.values)
              else Required(fixed, t.value.values) + |v| + if fixed then 0 else 4
  {
    if t.None? {
      return Subtree(Leaf, [v], 1), false;
    }
    var vs := t.value.values;
    var i, found := Position(cmp, dom, vs, v);
    if found {
      return t.value, true;
    }
    SortedInsert(cmp, dom, vs, i, v);
    forall fixed
      ensures Required(fixed, vs[..i] + [v] + vs[i..]) == Required(fixed, vs) + |v| + if fixed then 0 else 4
    {
      RequiredInsert(fixed, vs, i, v);
    }
    InsertElements(vs, i, v);
    return Subtree(if split then Branch else t.value.root, vs[..i] + [v] + vs[i..], t.value.length + 1), false;
  }

  lemma InsertElements(vs: seq<Value>, i: nat, v: Value)
    requires i <= |vs|
    ensures Elements(vs[..i] + [v] + vs[i..]) == Elements(vs) + {v}
  {
    assert vs == vs[..i] + vs[i..];
  }

  lemma RemoveElements(cmp: Cmp, dom: iset<Value>, vs: seq<Value>, i: nat)
    requires Lawful(cmp, dom) && i < |vs| && Sorted(cmp, dom, vs)
    ensures Elements(vs[..i] + vs[i + 1..]) == Elements(vs) - {vs[i]}
  {
    assert vs == vs[..i] + [vs[i]] + vs[i + 1..];
    SortedRemove(cmp, dom, vs, i);
  }

  /** `BtreeMut::remove`: whatever kind of root is left, or none when nothing is. */
  method SubtreeRemove(cmp: Cmp, ghost dom: iset<Value>, t: Subtree, v: Value, left: Root)
    returns (r: Option<Subtree>, existed: bool)
    requires Lawful(cmp, dom) && v in dom && Sorted(cmp, dom, t.values) && t.length == |t.values| > 0
    ensures existed == (v in t.values)
    ensures r.None? <==> Elements(t.values) - {v} == {}
    ensures r.Some? ==> Sorted(cmp, dom, r.value.values) && r.value.length == |r.value.values| > 0
    ensures r.Some? ==> Elements(r.value.values) == Elements(t.values) - {v}
    ensures !existed ==> r == Some(t)
    ensures existed && r.Some? ==> r.value.root == left
  {
    var i, found := Position(cmp, dom, t.values, v);
    if !found {
      assert t.values[0] in Elements(t.values) - {v};
      return Some(t), false;
    }
    RemoveElements(cmp, dom, t.values, i);
    var vs := t.values[..i] + t.values[i + 1..];
    SortedRemove(cmp, dom, t.values, i);
    if vs == [] {
      assert Elements(vs) == {};
      return None, true;
    }
    assert vs[0] in Elements(vs);
    return Some(Subtree(left, vs, t.length - 1)), true;
  }

  // ---------------------------------------------------------------- the table

  datatype Collection = Inline(values: seq<Value>) | Tree(tree: Subtree)

  function Contents(c: Collection): seq<Value> {
    if c.Inline? then c.values else c.tree.values
  }

  /** Inline below half a page; a subtree of a single leaf at or above it. */
  ghost predicate CollectionOk(cmp: Cmp, dom: iset<Value>, c: Collection, half: nat, fixed: bool) {
    && Sorted(cmp, dom, Contents(c)) && Contents(c) != []
    && (c.Inline? ==> Required(fixed, c.values) < half)
    && (c.Tree? ==> c.tree.length == |c.tree.values|)
    && (c.Tree? && c.tree.root.Leaf? ==> Required(fixed, c.tree.values) >= half)
  }

  /** `get_num_values` */
  function NumValues(c: Collection): nat {
    if c.Inline? then |c.values| else c.tree.length
  }

  type Tree = map<Key, Collection>

  /** The relation the table stands for. */
  ghost function Pairs(tree: Tree): set<(Key, Value)> {
    set k, v | k in tree && v in Elements(Contents(tree[k])) :: (k, v)
  }

  /** The same as a map; no key has an empty set. */
  ghost function Abstract(tree: Tree): map<Key, set<Value>> {
    map k | k in tree :: Elements(Contents(tree[k]))
  }

  ghost predicate TreeOk(cmp: Cmp, dom: iset<Value>, tree: Tree, half: nat, fixed: bool) {
    forall k :: k in tree ==> CollectionOk(cmp, dom, tree[k], half, fixed)
  }

  /** The two trees differ at most in the entry of one key. */
  ghost predicate OnlyAt(a: Tree, b: Tree, key: Key) {
    && (forall k :: k in a && k != key ==> k in b && b[k] == a[k])
    && (forall k :: k in b && k != key ==> k in a)
  }

  function At(tree: Tree, key: Key): Option<Collection> {
    if key in tree then Some(tree[key]) else None
  }

  function With(tree: Tree, key: Key, c: Option<Collection>): Tree {
    if c.None? then tree - {key} else tree[key := c.value]
  }

  lemma OnlyAtUpdate(tree: Tree, key: Key, c: Option<Collection>)
    ensures OnlyAt(tree, With(tree, key, c), key) && At(With(tree, key, c), key) == c
  {
  }

  /** After an insert: inline exactly if it was, or is new, and still fits; several pages only after a split. */
  ghost predicate GrownFrom(c: Option<Collection>, d: Collection, split: bool, half: nat, fixed: bool) {
    && (d.Inline? <==> (c.None? || c.value.Inline?) && Required(fixed, Contents(d)) < half)
    && (d.Tree? && d.tree.root.Branch? ==> split || (c.Some? && c.value.Tree? && c.value.tree.root.Branch?))
  }

  /** After a remove: inline exactly if it was, or if a single leaf is left that fits. */
  ghost predicate ShrunkFrom(c: Collection, d: Collection, left: Root, half: nat, fixed: bool) {
    d.Inline? <==> c.Inline? || (left.Leaf? && Required(fixed, Contents(d)) < half)
  }

  lemma NonEmptySets(cmp: Cmp, dom: iset<Value>, tree: Tree, half: nat, fixed: bool, k: Key)
    requires Lawful(cmp, dom) && TreeOk(cmp, dom, tree, half, fixed) && k in tree
    ensures Abstract(tree)[k] == Elements(Contents(tree[k])) != {}
    ensures |Elements(Contents(tree[k]))| == |Contents(tree[k])| == NumValues(tree[k])
  {
    SortedSize(cmp, dom, Contents(tree[k]));
    assert Contents(tree[k])[0] in Elements(Contents(tree[k]));
  }

  lemma PairsDrop(tree: Tree, k: Key)
    requires k in tree
    ensures Pairs(tree - {k}) == Pairs(tree) - Tagged(k, Elements(Contents(tree[k])))
    ensures Tagged(k, Elements(Contents(tree[k]))) <= Pairs(tree)
  {
  }

  ghost function Tagged(k: Key, vs: set<Value>): set<(Key, Value)> {
    set v | v in vs :: (k, v)
  }

  lemma {:induction false} TaggedSize(k: Key, vs: set<Value>)
    ensures |Tagged(k, vs)| == |vs|
    decreases vs
  {
    if vs != {} {
      var v :| v in vs;
      TaggedSize(k, vs - {v});
      assert Tagged(k, vs) == Tagged(k, vs - {v}) + {(k, v)};
    }
  }

  lemma PairsMember(tree: Tree, k: Key, v: Value)
    ensures (k, v) in Pairs(tree) <==> k in tree && v in Contents(tree[k])
  {
  }

  lemma PairsInsert(tree: Tree, k: Key, c: Collection, v: Value)
    requires Elements(Contents(c)) == (if k in tree then Elements(Contents(tree[k])) else {}) + {v}
    ensures Pairs(tree[k := c]) == Pairs(tree) + {(k, v)}
  {
  }

  lemma PairsRemove(tree: Tree, k: Key, c: Collection, v: Value)
    requires k in tree && Elements(Contents(c)) == Elements(Contents(tree[k])) - {v}
    ensures Pairs(tree[k := c]) == Pairs(tree) - {(k, v)}
  {
  }

  lemma PairsRemoveLast(tree: Tree, k: Key, v: Value)
    requires k in tree && Elements(Contents(tree[k])) == {v}
    ensures Pairs(tree - {k}) == Pairs(tree) - {(k, v)}
  {
  }

  lemma OneMore<T>(s: set<T>, x: T)
    ensures |s + {x}| == |s| + if x in s then 0 else 1
  {
    assert x in s ==> s + {x} == s;
  }

  lemma OneLess<T>(s: set<T>, x: T)
    ensures |s - {x}| == |s| - if x in s then 1 else 0
  {
    assert x !in s ==> s - {x} == s;
  }

  /** What inserting one value does to the relation and its size. */
  lemma InsertPairs(tree: Tree, k: Key, c: Collection, v: Value)
    requires Elements(Contents(c)) == (if k in tree then Elements(Contents(tree[k])) else {}) + {v}
    ensures Pairs(tree[k := c]) == Pairs(tree) + {(k, v)}
    ensures |Pairs(tree[k := c])| == |Pairs(tree)| + if (k, v) in Pairs(tree) then 0 else 1
    ensures (k, v) in Pairs(tree) <==> k in tree && v in Contents(tree[k])
  {
    PairsInsert(tree, k, c, v);
    OneMore(Pairs(tree), (k, v));
    PairsMember(tree, k, v);
  }

  lemma RemovePairs(tree: Tree, k: Key, c: Option<Collection>, v: Value, now: Tree)
    requires k in tree && Elements(Contents(tree[k])) != {}
    requires c.None? <==> Elements(Contents(tree[k])) - {v} == {}
    requires c.Some? ==> Elements(Contents(c.value)) == Elements(Contents(tree[k])) - {v}
    requires now == With(tree, k, c)
    ensures Pairs(now) == Pairs(tree) - {(k, v)}
    ensures |Pairs(now)| == |Pairs(tree)| - if (k, v) in Pairs(tree) then 1 else 0
    ensures (k, v) in Pairs(tree) <==> v in Contents(tree[k])
  {
    if c.None? {
      OnlyValue(Elements(Contents(tree[k])), v);
      PairsRemoveLast(tree, k, v);
    } else {
      PairsRemove(tree, k, c.value, v);
    }
    OneLess(Pairs(tree), (k, v));
    PairsMember(tree, k, v);
  }

  lemma DropPairs(tree: Tree, k: Key, n: nat)
    requires k in tree && |Elements(Contents(tree[k]))| == n
    ensures Pairs(tree - {k}) == Pairs(tree) - Tagged(k, Elements(Contents(tree[k])))
    ensures |Pairs(tree - {k})| == |Pairs(tree)| - n
  {
    PairsDrop(tree, k);
    TaggedSize(k, Elements(Contents(tree[k])));
  }

  lemma TreeOkUpdate(cmp: Cmp, dom: iset<Value>, tree: Tree, half: nat, fixed: bool, k: Key, c: Collection)
    requires TreeOk(cmp, dom, tree, half, fixed) && CollectionOk(cmp, dom, c, half, fixed)
    ensures TreeOk(cmp, dom, tree[k := c], half, fixed)
  {
  }

  lemma TreeOkWith(cmp: Cmp, dom: iset<Value>, tree: Tree, half: nat, fixed: bool, k: Key, c: Option<Collection>)
    requires TreeOk(cmp, dom, tree, half, fixed) && (c.Some? ==> CollectionOk(cmp, dom, c.value, half, fixed))
    ensures TreeOk(cmp, dom, With(tree, k, c), half, fixed)
  {
    if c.Some? {
      TreeOkUpdate(cmp, dom, tree, half, fixed, k, c.value);
    } else {
      TreeOkDrop(cmp, dom, tree, half, fixed, k);
    }
  }

  lemma TreeOkDrop(cmp: Cmp, dom: iset<Value>, tree: Tree, half: nat, fixed: bool, k: Key)
    requires TreeOk(cmp, dom, tree, half, fixed)
    ensures TreeOk(cmp, dom, tree - {k}, half, fixed)
  {
  }

  lemma AbsentDrop(tree: Tree, k: Key)
    requires k !in tree
    ensures tree - {k} == tree && Pairs(tree) - Tagged(k, Elements([])) == Pairs(tree)
  {
    assert Elements([]) == {};
    assert Tagged(k, Elements([])) == {};
  }

  datatype Outcome = Ok(existed: bool) | ValueTooLarge

  class MultimapTable {
    const pageSize: nat
    const fixed: bool
    const cmp: Cmp
    /** The encodings of the values of the value type. */
    ghost const dom: iset<Value>
    var tree: Tree
    var numValues: nat

    ghost predicate Valid()
      reads this
    {
      Lawful(cmp, dom) && TreeOk(cmp, dom, tree, pageSize / 2, fixed) && numValues == |Pairs(tree)|
    }

    /** A table whose values are of the key type `ty`, in the order its `compare` gives. */
    constructor (pageSize: nat, ty: Ty)
      requires IsKey(ty)
      ensures Valid() && tree == map[] && numValues == 0 && this.pageSize == pageSize
      ensures dom == Encodings(ty) && cmp == Comparer(ty) && fixed == Width(ty).Some?
    {
      KeyTypeLawful(ty);
      this.pageSize, fixed, tree, numValues := pageSize, Width(ty).Some?, map[], 0;
      cmp, dom := Comparer(ty), Encodings(ty);
    }

    /** The collection after an insert, inline or in a subtree. */
    method Added(c: Option<Collection>, v: Value, split: bool) returns (r: Collection, existed: bool)
      requires Lawful(cmp, dom) && v in dom
      requires c.Some? ==> CollectionOk(cmp, dom, c.value, pageSize / 2, fixed)
      ensures CollectionOk(cmp, dom, r, pageSize / 2, fixed)
      ensures existed == (c.Some? && v in Contents(c.value))
      ensures Elements(Contents(r)) == (if c.Some? then Elements(Contents(c.value)) else {}) + {v}
      ensures GrownFrom(c, r, split, pageSize / 2, fixed)
    {
      if c.None? {
        if Required(fixed, [v]) < pageSize / 2 {
          return Inline([v]), false;
        }
        var t, _ := SubtreeInsert(cmp, dom, None, v, split);
        assert Required(fixed, t.values) == Required(fixed, [v]);
        assert v in Elements(t.values);
        return Tree(t), false;
      }
      if c.value.Tree? {
        var t, was := SubtreeInsert(cmp, dom, Some(c.value.tree), v, split);
        assert Required(fixed, t.values) >= Required(fixed, c.value.tree.values);
        assert v in Elements(t.values);
        return Tree(t), was;
      }
      var vs := c.value.values;
      var i, found := Position(cmp, dom, vs, v);
      if found {
        assert v in Elements(vs);
        return c.value, true;
      }
      SortedInsert(cmp, dom, vs, i, v);
      InsertElements(vs, i, v);
      RequiredInsert(fixed, vs, i, v);
      var needed := Required(fixed, vs) + |v| + if fixed then 0 else 4;
      if needed < pageSize / 2 {
        var more := BuildInserted(vs, i, v);
        return Inline(more), false;
      }
      // convert into a subtree: the leaf becomes a page, and the value goes through the B-tree
      var t, was := SubtreeInsert(cmp, dom, Some(Subtree(Leaf, vs, |vs|)), v, split);
      assert Required(fixed, t.values) == needed;
      assert v in Elements(t.values);
      return Tree(t), was;
    }

    method Insert(key: Key, value: Value, split: bool) returns (r: Outcome)
      requires Valid() && value in dom
      modifies this
      ensures Valid()
      ensures r.ValueTooLarge? <==>
                |value| > MAX_VALUE_LENGTH || |key| > MAX_VALUE_LENGTH || |value| + |key| > MAX_PAIR_LENGTH
      ensures r.Ok? ==>
                r.existed == ((key, value) in old(Pairs(tree))) && Pairs(tree) == old(Pairs(tree)) + {(key, value)}
      ensures r.ValueTooLarge? ==> tree == old(tree)
      ensures OnlyAt(old(tree), tree, key)
      ensures r.Ok? ==> key in tree && GrownFrom(At(old(tree), key), tree[key], split, pageSize / 2, fixed)
    {
      if |value| > MAX_VALUE_LENGTH || |key| > MAX_VALUE_LENGTH || |value| + |key| > MAX_PAIR_LENGTH {
        return ValueTooLarge;
      }
      var d, existed := Added(At(tree, key), value, split);
      InsertPairs(tree, key, d, value);
      Replace(key, Some(d), if existed then numValues else numValues + 1);
      return Ok(existed);
    }

    /** The collection after a remove; none when it was the last value. */
    method Removed(c: Collection, v: Value, left: Root) returns (r: Option<Collection>, existed: bool)
      requires Lawful(cmp, dom) && v in dom && CollectionOk(cmp, dom, c, pageSize / 2, fixed)
      ensures existed == (v in Contents(c))
      ensures r.None? <==> Elements(Contents(c)) - {v} == {}
      ensures r.Some? ==>
                && CollectionOk(cmp, dom, r.value, pageSize / 2, fixed)
                && Elements(Contents(r.value)) == Elements(Contents(c)) - {v}
                && (!existed ==> r.value == c)
                && (existed ==> ShrunkFrom(c, r.value, left, pageSize / 2, fixed))
    {
      if c.Inline? {
        var i, found := Position(cmp, dom, c.values, v);
        if !found {
          assert c.values[0] in Elements(c.values) - {v};
          return Some(c), false;
        }
        RemoveElements(cmp, dom, c.values, i);
        if |c.values| == 1 {
          assert Elements(c.values) == {v};
          return None, true;
        }
        SortedRemove(cmp, dom, c.values, i);
        RequiredRemove(fixed, c.values, i);
        var fewer := BuildRemoved(c.values, i);
        assert fewer[0] in Elements(fewer);
        return Some(Inline(fewer)), true;
      }
      var t, was := SubtreeRemove(cmp, dom, c.tree, v, left);
      if t.None? {
        return None, was;
      }
      if t.value.root.Leaf? && Required(fixed, t.value.values) < pageSize / 2 {
        return Some(Inline(t.value.values)), was;
      }
      assert Elements(t.value.values) != {} by { assert t.value.values[0] in Elements(t.value.values); }
      return Some(Tree(t.value)), was;
    }

    method Remove(key: Key, value: Value, left: Root) returns (existed: bool)
      requires Valid() && value in dom
      modifies this
      ensures Valid()
      ensures existed == ((key, value) in old(Pairs(tree)))
      ensures Pairs(tree) == old(Pairs(tree)) - {(key, value)}
      ensures OnlyAt(old(tree), tree, key) && (!existed ==> At(tree, key) == At(old(tree), key))
      ensures existed && key in tree ==>
                key in old(tree) && ShrunkFrom(old(tree)[key], tree[key], left, pageSize / 2, fixed)
    {
      if key !in tree {
        return false;
      }
      var c;
      c, existed := Removed(tree[key], value, left);
      NonEmptySets(cmp, dom, tree, pageSize / 2, fixed, key);
      RemovePairs(tree, key, c, value, With(tree, key, c));
      Replace(key, c, if existed then numValues - 1 else numValues);
    }

    /** One entry is replaced or taken out, and the count set. */
    method Replace(key: Key, c: Option<Collection>, n: nat)
      requires Valid() && (c.Some? ==> CollectionOk(cmp, dom, c.value, pageSize / 2, fixed))
      requires n == |Pairs(With(tree, key, c))|
      modifies this
      ensures Valid() && tree == With(old(tree), key, c) && OnlyAt(old(tree), tree, key) && At(tree, key) == c
    {
      TreeOkWith(cmp, dom, tree, pageSize / 2, fixed, key, c);
      OnlyAtUpdate(tree, key, c);
      tree, numValues := With(tree, key, c), n;
    }

    /** The values come back in ascending order, as many as the counter drops by. */
    method RemoveAll(key: Key) returns (values: seq<Value>)
      requires Valid()
      modifies this
      ensures Valid() && Sorted(cmp, dom, values)
      ensures values == if key in old(tree) then Contents(old(tree)[key]) else []
      ensures Pairs(tree) == old(Pairs(tree)) - Tagged(key, Elements(values))
      ensures tree == old(tree) - {key}
      ensures numValues + |values| == old(numValues)
    {
      if key !in tree {
        AbsentDrop(tree, key);
        return [];
      }
      var c := tree[key];
      values := Contents(c);
      NonEmptySets(cmp, dom, tree, pageSize / 2, fixed, key);
      DropPairs(tree, key, NumValues(c));
      TreeOkDrop(cmp, dom, tree, pageSize / 2, fixed, key);
      tree := tree - {key};
      numValues := numValues - NumValues(c);
    }

    method Get(key: Key) returns (it: ValueIter)
      requires Valid()
      ensures fresh(it) && it.Valid() && it.front == [] && it.back == []
      ensures it.all == if key in tree then Contents(tree[key]) else []
    {
      if key in tree {
        NonEmptySets(cmp, dom, tree, pageSize / 2, fixed, key);
        SortedSize(cmp, dom, Contents(tree[key]));
        it := new ValueIter(Contents(tree[key]), NumValues(tree[key]));
      } else {
        it := new ValueIter([], 0);
      }
    }
  }

  lemma OnlyValue(vs: set<Value>, v: Value)
    requires vs - {v} == {} && vs != {}
    ensures vs == {v}
  {
    var w :| w in vs;
    assert w != v ==> w in vs - {v};
  }

  // ---------------------------------------------------------------- iterating from both ends

  function Reversed(vs: seq<Value>): seq<Value> {
    if vs == [] then [] else Reversed(vs[1..]) + [vs[0]]
  }

  lemma {:induction false} ReversedAdd(vs: seq<Value>, v: Value)
    ensures Reversed(vs + [v]) == [v] + Reversed(vs)
  {
    if vs != [] {
      ReversedAdd(vs[1..], v);
      assert (vs + [v])[1..] == vs[1..] + [v];
    } else {
      assert vs + [v] == [v];
    }
  }

  /** `MultimapValue` over a leaf: what came out in front, what is left, what came out at the back. */
  class ValueIter {
    const all: seq<Value>
    var start: int
    var end: int
    var remaining: nat
    ghost var front: seq<Value>
    ghost var back: seq<Value>

    ghost predicate Valid()
      reads this
    {
      && 0 <= start <= end + 1 <= |all|
      && remaining == end + 1 - start
      && front == all[..start]
      && Reversed(back) == all[end + 1..]
      && all == front + all[start..end + 1] + Reversed(back)
    }

    constructor (values: seq<Value>, count: nat)
      requires count == |values|
      ensures Valid() && all == values && front == [] && back == []
    {
      all, start, end, remaining, front, back := values, 0, |values| - 1, count, [], [];
    }

    method Next() returns (r: Option<Value>)
      requires Valid()
      modifies this
      ensures Valid() && back == old(back)
      ensures r.None? <==> old(remaining) == 0
      ensures r.Some? ==> front == old(front) + [r.value] && remaining == old(remaining) - 1
      ensures r.None? ==> front == old(front) && remaining == 0
    {
      if end < start {
        return None;
      }
      start := start + 1;
      remaining := remaining - 1;
      front := front + [all[start - 1]];
      return Some(all[start - 1]);
    }

    method NextBack() returns (r: Option<Value>)
      requires Valid()
      modifies this
      ensures Valid() && front == old(front)
      ensures r.None? <==> old(remaining) == 0
      ensures r.Some? ==> back == old(back) + [r.value] && remaining == old(remaining) - 1
      ensures r.None? ==> back == old(back) && remaining == 0
    {
      if end < start {
        return None;
      }
      ReversedAdd(back, all[end]);
      end := end - 1;
      remaining := remaining - 1;
      back := back + [all[end + 1]];
      return Some(all[end + 1]);
    }

    /** Once both directions are exhausted, every value came out exactly once. */
    lemma Exhausted()
      requires Valid() && remaining == 0
      ensures all == front + Reversed(back)
    {
      assert all[start..end + 1] == [];
    }
  }
}
