/**
 `as_bytes`, `from_bytes` and `compare` over the universe of types.  `None` stands for a panic:
 a length that does not fit its field, a slice out of range, or an impossible tag.
 */
module Codec {
  import opened Ledgers
  import opened CodecBytes
  import opened CodecTypes

  // ---------------------------------------------------------------- laying out encoded elements

  function Flatten(ps: seq<seq<Byte>>): seq<Byte> {
    if ps == [] then [] else ps[0] + Flatten(ps[1..])
  }

  function Append(a: Option<seq<Byte>>, b: Option<seq<Byte>>): Option<seq<Byte>> {
    if a.None? || b.None? then None else Some(a.value + b.value)
  }

  /** The elements of a `Vec`, each after its length unless the width is fixed. */
  function VecBody(fixed: bool, ps: seq<seq<Byte>>): Option<seq<Byte>> {
    if ps == [] then Some([])
    else
      Append(Append(if fixed then Some([]) else EncodeVarint(|ps[0]|), Some(ps[0])), VecBody(fixed, ps[1..]))
  }

  /** 32-bit end offsets of the elements of an array, counted from the start of the encoding. */
  function Offsets(start: nat, ps: seq<seq<Byte>>): Option<seq<Byte>>
    decreases |ps|
  {
    if ps == [] then Some([])
    else
      var end := start + |ps[0]|;
      Append(if end <= U32_MAX then Some(ToLe(end, 4)) else None, Offsets(end, ps[1..]))
  }

  /** Lengths of the elements of variable width, the last element left out. */
  function TupleLens(ws: seq<Option<nat>>, ps: seq<seq<Byte>>): Option<seq<Byte>>
    requires |ws| == |ps|
  {
    if |ps| <= 1 then Some([])
    else Append(if ws[0].Some? then Some([]) else EncodeVarint(|ps[0]|), TupleLens(ws[1..], ps[1..]))
  }

  function Widths(ts: seq<Ty>): (ws: seq<Option<nat>>)
    ensures |ws| == |ts| && forall i :: 0 <= i < |ts| ==> ws[i] == Width(ts[i])
  {
    seq(|ts|, i requires 0 <= i < |ts| => Width(ts[i]))
  }

  // ---------------------------------------------------------------- encoding

  function Zeros(n: nat): (s: seq<Byte>)
    ensures |s| == n
  {
    seq(n, _ => 0)
  }

  /** `as_bytes` */
  function Encode(ty: Ty, v: Val): Option<seq<Byte>>
    requires HasType(v, ty)
    decreases ty, 1, 0
  {
    match ty
    case Unit => Some([])
    case Bool => Some([if v.b then 1 else 0])
    case Char => Some(ToLe(v.i, 3))
    case Unsigned(w) => Some(ToLe(v.i, w))
    case Signed(w) => Some(ToLe(if v.i < 0 then v.i + Pow256(w) else v.i, w))
    case Bytes => Some(v.bytes)
    case FixedBytes(_) => Some(v.bytes)
    case Opt(t) =>
      if v == Absent then Some([0] + Zeros(if Width(t).Some? then Width(t).value else 0))
      else Append(Some([1]), Encode(t, v.v))
    case Vec(t) =>
      (match EncodeEach(ty, Copies(|v.vs|, t), v.vs)
       case None => None
       case Some(ps) => Append(EncodeVarint(|ps|), VecBody(Width(t).Some?, ps)))
    case Array(n, t) =>
      (match EncodeEach(ty, Copies(n, t), v.vs)
       case None => None
       case Some(ps) => if Width(t).Some? then Some(Flatten(ps)) else Append(Offsets(4 * n, ps), Some(Flatten(ps))))
    case Tuple(ts) =>
      (match EncodeEach(ty, ts, v.vs)
       case None => None
       case Some(ps) => if Width(ty).Some? then Some(Flatten(ps))
         else Append(TupleLens(Widths(ts), ps), Some(Flatten(ps))))
  }

  function EncodeEach(ghost of: Ty, ts: seq<Ty>, vs: seq<Val>): (ps: Option<seq<seq<Byte>>>)
    requires |vs| == |ts| && Parts(of, ts) && HaveTypes(of, vs, ts)
    ensures ps.Some? ==> |ps.value| == |ts|
    decreases of, 0, |ts|
  {
    if ts == [] then Some([])
    else
      var rest := EncodeEach(of, ts[1..], vs[1..]);
      var first := Encode(ts[0], vs[0]);
      if first.None? || rest.None? then None else Some([first.value] + rest.value)
  }

  // ---------------------------------------------------------------- taking encodings apart

  datatype Pieces = Pieces(ps: seq<seq<Byte>>, rest: seq<Byte>)

  /** Slices of the given lengths from the front of the data. */
  function Cut(lens: seq<nat>, data: seq<Byte>): (r: Option<Pieces>)
    ensures r.Some? ==> |r.value.ps| == |lens|
  {
    if lens == [] then Some(Pieces([], data))
    else if |data| < lens[0] then None
    else
      var r := Cut(lens[1..], data[lens[0]..]);
      if r.None? then None else Some(Pieces([data[..lens[0]]] + r.value.ps, r.value.rest))
  }

  /** The elements of a `Vec`; nothing may be left over. */
  function ParseVec(width: Option<nat>, n: nat, data: seq<Byte>): (r: Option<seq<seq<Byte>>>)
    ensures r.Some? ==> |r.value| == n
  {
    if n == 0 then if data == [] then Some([]) else None
    else
      var head := if width.Some? then Some(Varint(width.value, 0)) else DecodeVarint(data);
      if head.None? || |data| < head.value.consumed + head.value.len then None
      else
        var end := head.value.consumed + head.value.len;
        var r := ParseVec(width, n - 1, data[end..]);
        if r.None? then None else Some([data[head.value.consumed..end]] + r.value)
  }

  /** The elements `i` to `n - 1` of an array by their end offsets, the first starting at `start`. */
  function ParseOffsets(n: nat, i: nat, start: nat, data: seq<Byte>): (r: Option<seq<seq<Byte>>>)
    requires i <= n
    ensures r.Some? ==> |r.value| == n - i
    decreases n - i
  {
    if i == n then Some([])
    else if |data| < 4 * (i + 1) then None
    else
      var end := FromLe(data[4 * i..4 * (i + 1)]);
      if !(start <= end <= |data|) then None
      else
        var r := ParseOffsets(n, i + 1, end, data);
        if r.None? then None else Some([data[start..end]] + r.value)
  }

  datatype Lens = Lens(offset: nat, lens: seq<nat>)

  /** `parse_lens` from `offset` on. */
  function ParseLens(ws: seq<Option<nat>>, data: seq<Byte>, offset: nat): (r: Option<Lens>)
    requires offset <= |data|
    ensures r.Some? ==> |r.value.lens| == |ws| && r.value.offset <= |data|
  {
    if ws == [] then Some(Lens(offset, []))
    else
      var head := if ws[0].Some? then Some(Varint(ws[0].value, 0)) else DecodeVarint(data[offset..]);
      if head.None? then None
      else
        var r := ParseLens(ws[1..], data, offset + head.value.consumed);
        if r.None? then None else Some(Lens(r.value.offset, [head.value.len] + r.value.lens))
  }

  /** The elements of a tuple of variable width; the last one takes what is left. */
  function ParseTuple(ws: seq<Option<nat>>, data: seq<Byte>): (r: Option<seq<seq<Byte>>>)
    requires |ws| > 0
    ensures r.Some? ==> |r.value| == |ws|
  {
    var lens := ParseLens(ws[..|ws| - 1], data, 0);
    if lens.None? then None
    else
      var cut := Cut(lens.value.lens, data[lens.value.offset..]);
      if cut.None? then None else Some(cut.value.ps + [cut.value.rest])
  }

  function FixedLens(ws: seq<Option<nat>>): (lens: seq<nat>)
    ensures |lens| == |ws|
  {
    seq(|ws|, i requires 0 <= i < |ws| => if ws[i].Some? then ws[i].value else 0)
  }

  function ParseFixed(ws: seq<Option<nat>>, data: seq<Byte>): (r: Option<seq<seq<Byte>>>)
    ensures r.Some? ==> |r.value| == |ws|
  {
    var cut := Cut(FixedLens(ws), data);
    if cut.None? then None else Some(cut.value.ps)
  }

  function ParseArray(n: nat, t: Ty, data: seq<Byte>): (r: Option<seq<seq<Byte>>>)
    ensures r.Some? ==> |r.value| == n
  {
    if Width(t).Some? then ParseFixed(Widths(Copies(n, t)), data) else ParseOffsets(n, 0, 4 * n, data)
  }

  function ParseElems(ty: Ty, data: seq<Byte>): (r: Option<seq<seq<Byte>>>)
    requires ty.Tuple?
    ensures r.Some? ==> |r.value| == |ty.elems|
  {
    assert ty.elems == [] ==> WidthSum(ty, ty.elems) == Some(0);
    if Width(ty).Some? then ParseFixed(Widths(ty.elems), data) else ParseTuple(Widths(ty.elems), data)
  }

  // ---------------------------------------------------------------- decoding

  /** `from_bytes` */
  function Decode(ty: Ty, data: seq<Byte>): Option<Val>
    decreases ty, 1, 0
  {
    match ty
    case Unit => Some(Nothing)
    case Bool => if data == [] || data[0] > 1 then None else Some(Truth(data[0] == 1))
    case Char => if |data| < 3 || !IsScalar(FromLe(data[..3])) then None else Some(Int(FromLe(data[..3])))
    case Unsigned(w) => if |data| != w then None else Some(Int(FromLe(data)))
    case Signed(w) =>
      if |data| != w then None
      else if 2 * FromLe(data) >= Pow256(w) then Some(Int(FromLe(data) - Pow256(w))) else Some(Int(FromLe(data)))
    case Bytes => Some(Raw(data))
    case FixedBytes(n) => if |data| != n then None else Some(Raw(data))
    case Opt(t) =>
      if data == [] || data[0] > 1 then None
      else if data[0] == 0 then Some(Absent)
      else (match Decode(t, data[1..]) case None => None case Some(v) => Some(Present(v)))
    case Vec(t) =>
      (match DecodeVarint(data)
       case None => None
       case Some(head) =>
         if |data| < head.consumed then None
         else DecodeEach(ty, Copies(head.len, t), ParseVec(Width(t), head.len, data[head.consumed..])))
    case Array(n, t) => DecodeEach(ty, Copies(n, t), ParseArray(n, t, data))
    case Tuple(ts) => DecodeEach(ty, ts, ParseElems(ty, data))
  }

  function DecodeEach(ghost of: Ty, ts: seq<Ty>, ps: Option<seq<seq<Byte>>>): Option<Val>
    requires Parts(of, ts) && (ps.Some? ==> |ps.value| == |ts|)
    decreases of, 0, |ts| + 1
  {
    if ps.None? then None
    else
      match DecodeList(of, ts, ps.value)
      case None => None
      case Some(vs) => Some(List(vs))
  }

  function DecodeList(ghost of: Ty, ts: seq<Ty>, ps: seq<seq<Byte>>): Option<seq<Val>>
    requires Parts(of, ts) && |ps| == |ts|
    decreases of, 0, |ts|
  {
    if ts == [] then Some([])
    else
      var first := Decode(ts[0], ps[0]);
      var rest := DecodeList(of, ts[1..], ps[1..]);
      if first.None? || rest.None? then None else Some([first.value] + rest.value)
  }

  // ---------------------------------------------------------------- comparing encodings

  function CompareDecoded(ty: Ty, a: seq<Byte>, b: seq<Byte>): Option<Ordering> {
    match (Decode(ty, a), Decode(ty, b))
    case (Some(Int(i)), Some(Int(j))) => Some(CompareInt(i, j))
    case (Some(Truth(x)), Some(Truth(y))) => Some(if x == y then Equal else if y then Less else Greater)
    case _ => None
  }

  /** `Key::compare` */
  function CompareRaw(ty: Ty, a: seq<Byte>, b: seq<Byte>): Option<Ordering>
    decreases ty, 1, 0
  {
    match ty
    case Unit => Some(Equal)
    case Bool => CompareDecoded(ty, a, b)
    case Char => CompareDecoded(ty, a, b)
    case Unsigned(_) => CompareDecoded(ty, a, b)
    case Signed(_) => CompareDecoded(ty, a, b)
    case Bytes => Some(CompareBytes(a, b))
    case FixedBytes(_) => Some(CompareBytes(a, b))
    case Opt(t) =>
      if a == [] || b == [] then None
      else if a[0] == 0 then Some(if b[0] == 0 then Equal else Less)
      else if b[0] == 0 then Some(Greater)
      else CompareRaw(t, a[1..], b[1..])
    case Vec(_) => None
    case Array(n, t) => CompareEach(ty, Copies(n, t), ParseArray(n, t, a), ParseArray(n, t, b))
    case Tuple(ts) => CompareEach(ty, ts, ParseElems(ty, a), ParseElems(ty, b))
  }

  function CompareEach(ghost of: Ty, ts: seq<Ty>, a: Option<seq<seq<Byte>>>,
                       b: Option<seq<seq<Byte>>>): Option<Ordering>
    requires Parts(of, ts) && (a.Some? ==> |a.value| == |ts|) && (b.Some? ==> |b.value| == |ts|)
    decreases of, 0, |ts| + 1
  {
    if a.None? || b.None? then None else CompareList(of, ts, a.value, b.value)
  }

  function CompareList(ghost of: Ty, ts: seq<Ty>, a: seq<seq<Byte>>, b: seq<seq<Byte>>): Option<Ordering>
    requires Parts(of, ts) && |a| == |b| == |ts|
    decreases of, 0, |ts|
  {
    if ts == [] then Some(Equal)
    else
      var first := CompareRaw(ts[0], a[0], b[0]);
      if first != Some(Equal) then first else CompareList(of, ts[1..], a[1..], b[1..])
  }
}
