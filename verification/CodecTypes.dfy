/**
 The universe of storable types: what a table's key or value type can be built from, the values
 of each type, and the order of values of key types.
 */
module CodecTypes {
  import opened Ledgers
  import opened CodecBytes

  datatype Ty =
    | Unit
    | Bool
    | Char
    | Unsigned(bytes: nat)
    | Signed(bytes: nat)
    | Bytes
    | FixedBytes(n: nat)
    | Opt(elem: Ty)
    | Vec(elem: Ty)
    | Array(n: nat, elem: Ty)
    | Tuple(elems: seq<Ty>)

  datatype Val =
    | Nothing
    | Truth(b: bool)
    | Int(i: int)
    | Raw(bytes: seq<Byte>)
    | Absent
    | Present(v: Val)
    | List(vs: seq<Val>)

  /** Types with a `Key` instance. */
  ghost predicate IsKey(ty: Ty) {
    match ty
    case Opt(t) => IsKey(t)
    case Vec(_) => false
    case Array(_, t) => IsKey(t)
    case Tuple(ts) => forall t :: t in ts ==> IsKey(t)
    case _ => true
  }

  /** A Unicode scalar value. */
  predicate IsScalar(i: int) {
    0 <= i < 0xD800 || 0xE000 <= i <= 0x10FFFF
  }

  function Copies(n: nat, t: Ty): (ts: seq<Ty>)
    ensures |ts| == n && forall i :: 0 <= i < n ==> ts[i] == t
  {
    seq(n, _ => t)
  }

  /** Every element type is a part of `ty`. */
  ghost predicate Parts(ty: Ty, ts: seq<Ty>) {
    forall i :: 0 <= i < |ts| ==> ts[i] < ty
  }

  ghost predicate HasType(v: Val, ty: Ty)
    decreases ty, 1, 0
  {
    match ty
    case Unit => v == Nothing
    case Bool => v.Truth?
    case Char => v.Int? && IsScalar(v.i)
    case Unsigned(w) => v.Int? && 0 <= v.i < Pow256(w)
    case Signed(w) => v.Int? && 0 <= 2 * v.i + Pow256(w) < 2 * Pow256(w)
    case Bytes => v.Raw?
    case FixedBytes(n) => v.Raw? && |v.bytes| == n
    case Opt(t) => v == Absent || (v.Present? && HasType(v.v, t))
    case Vec(t) => v.List? && HaveTypes(ty, v.vs, Copies(|v.vs|, t))
    case Array(n, t) => v.List? && |v.vs| == n && HaveTypes(ty, v.vs, Copies(n, t))
    case Tuple(ts) => v.List? && |v.vs| == |ts| && HaveTypes(ty, v.vs, ts)
  }

  ghost predicate HaveTypes(of: Ty, vs: seq<Val>, ts: seq<Ty>)
    requires |vs| == |ts| && Parts(of, ts)
    decreases of, 0, |ts|
  {
    ts != [] ==> HasType(vs[0], ts[0]) && HaveTypes(of, vs[1..], ts[1..])
  }

  /** `fixed_width` */
  function Width(ty: Ty): Option<nat>
    decreases ty, 1, 0
  {
    match ty
    case Unit => Some(0)
    case Bool => Some(1)
    case Char => Some(3)
    case Unsigned(w) => Some(w)
    case Signed(w) => Some(w)
    case Bytes => None
    case FixedBytes(n) => Some(n)
    case Opt(t) => (match Width(t) case None => None case Some(w) => Some(w + 1))
    case Vec(_) => None
    case Array(n, t) => (match Width(t) case None => None case Some(w) => Some(w * n))
    case Tuple(ts) => WidthSum(ty, ts)
  }

  function WidthSum(ghost of: Ty, ts: seq<Ty>): Option<nat>
    requires Parts(of, ts)
    decreases of, 0, |ts|
  {
    if ts == [] then Some(0)
    else
      var rest := WidthSum(of, ts[1..]);
      match Width(ts[0])
      case None => None
      case Some(w) => if rest.None? then None else Some(w + rest.value)
  }

  // ---------------------------------------------------------------- the order of values

  /** The order a `BTreeMap` with these keys would use. */
  function Compare(ty: Ty, a: Val, b: Val): Ordering
    requires HasType(a, ty) && HasType(b, ty)
    decreases ty, 1, 0
  {
    match ty
    case Unit => Equal
    case Bool => if a.b == b.b then Equal else if b.b then Less else Greater
    case Char => CompareInt(a.i, b.i)
    case Unsigned(_) => CompareInt(a.i, b.i)
    case Signed(_) => CompareInt(a.i, b.i)
    case Bytes => CompareBytes(a.bytes, b.bytes)
    case FixedBytes(_) => CompareBytes(a.bytes, b.bytes)
    case Opt(t) =>
      if a == Absent then if b == Absent then Equal else Less
      else if b == Absent then Greater else Compare(t, a.v, b.v)
    case Vec(t) => Equal
    case Array(n, t) => CompareAll(ty, Copies(n, t), a.vs, b.vs)
    case Tuple(ts) => CompareAll(ty, ts, a.vs, b.vs)
  }

  /** Lexicographic: the first element that differs decides. */
  function CompareAll(ghost of: Ty, ts: seq<Ty>, a: seq<Val>, b: seq<Val>): Ordering
    requires |a| == |b| == |ts| && Parts(of, ts) && HaveTypes(of, a, ts) && HaveTypes(of, b, ts)
    decreases of, 0, |ts|
  {
    if ts == [] then Equal
    else
      var first := Compare(ts[0], a[0], b[0]);
      if first != Equal then first else CompareAll(of, ts[1..], a[1..], b[1..])
  }

  lemma {:induction false} CompareTotal(ty: Ty, a: Val, b: Val)
    requires IsKey(ty) && HasType(a, ty) && HasType(b, ty)
    ensures Compare(ty, a, b) == Equal <==> a == b
    ensures Compare(ty, b, a) == Flip(Compare(ty, a, b))
    decreases ty, 1, 0
  {
    match ty
    case Bytes => CompareBytesTotal(a.bytes, b.bytes);
    case FixedBytes(_) => CompareBytesTotal(a.bytes, b.bytes);
    case Opt(t) => if a.Present? && b.Present? { CompareTotal(t, a.v, b.v); }
    case Array(n, t) => CompareAllTotal(ty, Copies(n, t), a.vs, b.vs);
    case Tuple(ts) => CompareAllTotal(ty, ts, a.vs, b.vs);
    case _ =>
  }

  lemma {:induction false} CompareAllTotal(of: Ty, ts: seq<Ty>, a: seq<Val>, b: seq<Val>)
    requires |a| == |b| == |ts| && Parts(of, ts) && HaveTypes(of, a, ts) && HaveTypes(of, b, ts)
    requires forall t :: t in ts ==> IsKey(t)
    ensures CompareAll(of, ts, a, b) == Equal <==> a == b
    ensures CompareAll(of, ts, b, a) == Flip(CompareAll(of, ts, a, b))
    decreases of, 0, |ts|
  {
    if ts != [] {
      CompareTotal(ts[0], a[0], b[0]);
      CompareAllTotal(of, ts[1..], a[1..], b[1..]);
      assert a == [a[0]] + a[1..] && b == [b[0]] + b[1..];
    }
  }

  lemma {:induction false} CompareTransitive(ty: Ty, a: Val, b: Val, c: Val)
    requires IsKey(ty) && HasType(a, ty) && HasType(b, ty) && HasType(c, ty)
    requires Compare(ty, a, b) == Less && Compare(ty, b, c) == Less
    ensures Compare(ty, a, c) == Less
    decreases ty, 1, 0
  {
    match ty
    case Bytes => CompareBytesTransitive(a.bytes, b.bytes, c.bytes);
    case FixedBytes(_) => CompareBytesTransitive(a.bytes, b.bytes, c.bytes);
    case Opt(t) => if a.Present? { CompareTransitive(t, a.v, b.v, c.v); }
    case Array(n, t) => CompareAllTransitive(ty, Copies(n, t), a.vs, b.vs, c.vs);
    case Tuple(ts) => CompareAllTransitive(ty, ts, a.vs, b.vs, c.vs);
    case _ =>
  }

  lemma {:induction false} CompareAllTransitive(of: Ty, ts: seq<Ty>, a: seq<Val>, b: seq<Val>, c: seq<Val>)
    requires |a| == |b| == |c| == |ts| && Parts(of, ts)
    requires HaveTypes(of, a, ts) && HaveTypes(of, b, ts) && HaveTypes(of, c, ts)
    requires forall t :: t in ts ==> IsKey(t)
    requires CompareAll(of, ts, a, b) == Less && CompareAll(of, ts, b, c) == Less
    ensures CompareAll(of, ts, a, c) == Less
    decreases of, 0, |ts|
  {
    CompareTotal(ts[0], a[0], b[0]);
    CompareTotal(ts[0], b[0], c[0]);
    if a[0] == b[0] && b[0] == c[0] {
      CompareTotal(ts[0], a[0], c[0]);
      CompareAllTransitive(of, ts[1..], a[1..], b[1..], c[1..]);
    } else if a[0] != b[0] && b[0] != c[0] {
      CompareTransitive(ts[0], a[0], b[0], c[0]);
    }
  }
}
