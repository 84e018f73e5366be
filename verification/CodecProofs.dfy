/**
 Decoding undoes encoding for every type of the universe, fixed-width types keep their width,
 and comparing encodings is comparing values.
 */
module CodecProofs {
  import opened Ledgers
  import opened CodecBytes
  import opened CodecTypes
  import opened Codec

  /** The encodings have the widths their types declare. */
  ghost predicate Sized(ws: seq<Option<nat>>, ps: seq<seq<Byte>>) {
    |ws| == |ps| && forall i :: 0 <= i < |ps| && ws[i].Some? ==> |ps[i]| == ws[i].value
  }

  function Lengths(ps: seq<seq<Byte>>): (lens: seq<nat>)
    ensures |lens| == |ps| && forall i :: 0 <= i < |ps| ==> lens[i] == |ps[i]|
  {
    seq(|ps|, i requires 0 <= i < |ps| => |ps[i]|)
  }

  // ---------------------------------------------------------------- each layout parses back

  lemma CutStep(p: seq<Byte>, tail: seq<Byte>, lens: seq<nat>, qs: seq<seq<Byte>>, rest: seq<Byte>)
    requires Cut(lens, tail) == Some(Pieces(qs, rest))
    ensures Cut([|p|] + lens, p + tail) == Some(Pieces([p] + qs, rest))
  {
    assert (p + tail)[..|p|] == p && (p + tail)[|p|..] == tail;
    assert ([|p|] + lens)[1..] == lens;
  }

  lemma {:induction false} CutFlatten(ps: seq<seq<Byte>>, rest: seq<Byte>)
    ensures Cut(Lengths(ps), Flatten(ps) + rest) == Some(Pieces(ps, rest))
  {
    if ps == [] {
      assert Flatten(ps) + rest == rest;
    } else {
      CutFlatten(ps[1..], rest);
      CutStep(ps[0], Flatten(ps[1..]) + rest, Lengths(ps[1..]), ps[1..], rest);
      assert Flatten(ps) + rest == ps[0] + (Flatten(ps[1..]) + rest);
      assert Lengths(ps) == [|ps[0]|] + Lengths(ps[1..]);
      assert ps == [ps[0]] + ps[1..];
    }
  }

  lemma FixedParses(ws: seq<Option<nat>>, ps: seq<seq<Byte>>)
    requires Sized(ws, ps) && forall i :: 0 <= i < |ws| ==> ws[i].Some?
    ensures ParseFixed(ws, Flatten(ps)) == Some(ps)
  {
    CutFlatten(ps, []);
    assert Flatten(ps) + [] == Flatten(ps);
    assert FixedLens(ws) == Lengths(ps);
  }

  lemma VecStep(width: Option<nat>, head: seq<Byte>, p: seq<Byte>, tail: seq<Byte>, n: nat, qs: seq<seq<Byte>>)
    requires ParseVec(width, n, tail) == Some(qs)
    requires width.Some? ==> head == [] && width.value == |p|
    requires width.None? ==> EncodeVarint(|p|) == Some(head)
    ensures ParseVec(width, n + 1, head + p + tail) == Some([p] + qs)
  {
    var data, end := head + p + tail, |head| + |p|;
    VarintRoundTrip(|p|, p + tail);
    assert data == head + (p + tail);
    assert data[|head|..end] == p && data[end..] == tail;
  }

  lemma {:induction false} VecParses(width: Option<nat>, ps: seq<seq<Byte>>)
    requires forall i :: 0 <= i < |ps| && width.Some? ==> |ps[i]| == width.value
    requires VecBody(width.Some?, ps).Some?
    ensures ParseVec(width, |ps|, VecBody(width.Some?, ps).value) == Some(ps)
  {
    if ps != [] {
      VecParses(width, ps[1..]);
      var head := if width.Some? then [] else EncodeVarint(|ps[0]|).value;
      VecStep(width, head, ps[0], VecBody(width.Some?, ps[1..]).value, |ps| - 1, ps[1..]);
      assert ps == [ps[0]] + ps[1..];
    }
  }

  lemma {:induction false} OffsetsLength(start: nat, ps: seq<seq<Byte>>)
    requires Offsets(start, ps).Some?
    ensures |Offsets(start, ps).value| == 4 * |ps|
    decreases |ps|
  {
    if ps != [] {
      OffsetsLength(start + |ps[0]|, ps[1..]);
    }
  }

  lemma OffsetsHead(start: nat, ps: seq<seq<Byte>>)
    requires ps != [] && Offsets(start, ps).Some?
    ensures var end := start + |ps[0]|;
            && end <= U32_MAX && Offsets(end, ps[1..]).Some?
            && Offsets(start, ps).value == ToLe(end, 4) + Offsets(end, ps[1..]).value
            && FromLe(ToLe(end, 4)) == end
  {
    assert Pow256(4) == 65536 * 65536 by { assert Pow256(3) == 256 * Pow256(2) && Pow256(2) == 256 * Pow256(1); }
    LeRoundTrip(start + |ps[0]|, 4);
  }

  /** With the first `i` offsets and elements passed, the others are found. */
  lemma {:induction false} OffsetsParse(n: nat, i: nat, data: seq<Byte>, front: seq<Byte>, start: nat, offs: seq<Byte>,
                                        mid: seq<Byte>, ps: seq<seq<Byte>>)
    requires |ps| == n - i && i <= n && |front| == 4 * i && Offsets(start, ps) == Some(offs)
    requires data == front + offs + (mid + Flatten(ps)) && |front| + |offs| + |mid| == start
    ensures ParseOffsets(n, i, start, data) == Some(ps)
    decreases |ps|
  {
    if ps != [] {
      OffsetsHead(start, ps);
      var end := start + |ps[0]|;
      var tail := Offsets(end, ps[1..]).value;
      var at, next := 4 * i, i + 1;
      OffsetsSplit(front, ToLe(end, 4), tail, mid, ps[0], Flatten(ps[1..]), data, at, start, end);
      OffsetsParse(n, next, data, front + ToLe(end, 4), end, tail, mid + ps[0], ps[1..]);
      OffsetsStep(n, i, next, at, start, end, data, ps);
    }
  }

  lemma OffsetsStep(n: nat, i: nat, next: nat, at: nat, start: nat, end: nat, data: seq<Byte>, ps: seq<seq<Byte>>)
    requires i < n && next == i + 1 && at == 4 * i && ps != [] && |data| >= at + 4 && FromLe(data[at..at + 4]) == end
    requires start <= end <= |data| && data[start..end] == ps[0]
    requires ParseOffsets(n, next, end, data) == Some(ps[1..])
    ensures ParseOffsets(n, i, start, data) == Some(ps)
  {
    assert ps == [ps[0]] + ps[1..];
  }

  lemma OffsetsSplit(front: seq<Byte>, le: seq<Byte>, tail: seq<Byte>, mid: seq<Byte>, p: seq<Byte>, rest: seq<Byte>,
                     data: seq<Byte>, at: nat, start: nat, end: nat)
    requires data == front + (le + tail) + (mid + (p + rest))
    requires |front| == at && |le| == 4 && start == |front| + |le + tail| + |mid| && end == start + |p|
    ensures |data| >= at + 4 && data[at..at + 4] == le
    ensures end <= |data| && data[start..end] == p
    ensures data == front + le + tail + (mid + p + rest)
  {
    assert data == front + le + tail + mid + p + rest;
  }

  lemma ArrayParses(n: nat, ps: seq<seq<Byte>>)
    requires |ps| == n && Offsets(4 * n, ps).Some?
    ensures ParseOffsets(n, 0, 4 * n, Offsets(4 * n, ps).value + Flatten(ps)) == Some(ps)
  {
    OffsetsLength(4 * n, ps);
    var offs := Offsets(4 * n, ps).value;
    assert offs + Flatten(ps) == [] + offs + ([] + Flatten(ps));
    OffsetsParse(n, 0, offs + Flatten(ps), [], 4 * n, offs, [], ps);
  }

  lemma LensStep(w: Option<nat>, ws: seq<Option<nat>>, data: seq<Byte>, front: seq<Byte>, head: seq<Byte>,
                 more: seq<Byte>, p: seq<Byte>, end: nat, lens: seq<nat>)
    requires data == front + head + more
    requires w.Some? ==> head == [] && w.value == |p|
    requires w.None? ==> EncodeVarint(|p|) == Some(head)
    requires ParseLens(ws, data, |front + head|) == Some(Lens(end, lens))
    ensures ParseLens([w] + ws, data, |front|) == Some(Lens(end, [|p|] + lens))
  {
    VarintRoundTrip(|p|, more);
    assert data[|front|..] == head + more;
    assert ([w] + ws)[1..] == ws;
  }

  /** The length prefix of a tuple reads back as the lengths of all elements but the last. */
  lemma {:induction false} LensParse(ws: seq<Option<nat>>, ps: seq<seq<Byte>>, data: seq<Byte>, front: seq<Byte>,
                                     lens: seq<Byte>, rest: seq<Byte>, n: nat)
    requires Sized(ws, ps) && |ps| == n + 1 && TupleLens(ws, ps) == Some(lens)
    requires data == front + lens + rest
    ensures ParseLens(ws[..n], data, |front|) == Some(Lens(|front| + |lens|, Lengths(ps[..n])))
    decreases n
  {
    if n > 0 {
      var head := if ws[0].Some? then [] else EncodeVarint(|ps[0]|).value;
      var tail := TupleLens(ws[1..], ps[1..]).value;
      Regroup(front, head, tail, rest);
      LensParse(ws[1..], ps[1..], data, front + head, tail, rest, n - 1);
      LensStep(ws[0], ws[1..][..n - 1], data, front, head, tail + rest, ps[0],
               |front| + |lens|, Lengths(ps[1..][..n - 1]));
      LensNames(ws, ps, n);
    }
  }

  lemma Regroup(a: seq<Byte>, b: seq<Byte>, c: seq<Byte>, d: seq<Byte>)
    ensures a + (b + c) + d == a + b + c + d == a + b + (c + d)
  {
  }

  lemma LensNames(ws: seq<Option<nat>>, ps: seq<seq<Byte>>, n: nat)
    requires |ws| == |ps| == n + 1 && n > 0
    ensures ws[..n] == [ws[0]] + ws[1..][..n - 1]
    ensures Lengths(ps[..n]) == [|ps[0]|] + Lengths(ps[1..][..n - 1])
  {
  }

  lemma {:induction false} FlattenLast(ps: seq<seq<Byte>>)
    requires |ps| > 0
    ensures Flatten(ps) == Flatten(ps[..|ps| - 1]) + ps[|ps| - 1]
  {
    if |ps| > 1 {
      FlattenLast(ps[1..]);
      assert ps[1..][..|ps| - 2] == ps[..|ps| - 1][1..];
    }
  }

  lemma CutLast(ps: seq<seq<Byte>>, n: nat)
    requires |ps| == n + 1
    ensures Cut(Lengths(ps[..n]), Flatten(ps)) == Some(Pieces(ps[..n], ps[n]))
  {
    FlattenLast(ps);
    CutFlatten(ps[..n], ps[n]);
  }

  lemma LensParseAll(ws: seq<Option<nat>>, ps: seq<seq<Byte>>, lens: seq<Byte>, rest: seq<Byte>, n: nat)
    requires Sized(ws, ps) && |ps| == n + 1 && TupleLens(ws, ps) == Some(lens)
    ensures ParseLens(ws[..n], lens + rest, 0) == Some(Lens(|lens|, Lengths(ps[..n])))
    ensures (lens + rest)[|lens|..] == rest
  {
    assert lens + rest == [] + lens + rest;
    LensParse(ws, ps, lens + rest, [], lens, rest, n);
  }

  lemma TupleParses(ws: seq<Option<nat>>, ps: seq<seq<Byte>>)
    requires Sized(ws, ps) && |ps| > 0 && TupleLens(ws, ps).Some?
    ensures ParseTuple(ws, TupleLens(ws, ps).value + Flatten(ps)) == Some(ps)
  {
    var n := |ps| - 1;
    LensParseAll(ws, ps, TupleLens(ws, ps).value, Flatten(ps), n);
    CutLast(ps, n);
    assert ps == ps[..n] + [ps[n]];
  }

  // ---------------------------------------------------------------- widths

  lemma {:induction false} FlattenLength(of: Ty, ts: seq<Ty>, ps: seq<seq<Byte>>)
    requires Parts(of, ts) && Sized(Widths(ts), ps) && WidthSum(of, ts).Some?
    ensures |Flatten(ps)| == WidthSum(of, ts).value
    ensures forall i :: 0 <= i < |ts| ==> Width(ts[i]).Some?
    decreases |ts|
  {
    if ts != [] {
      assert Widths(ts)[1..] == Widths(ts[1..]);
      FlattenLength(of, ts[1..], ps[1..]);
    }
  }

  lemma {:induction false} FlattenCopies(n: nat, w: nat, ps: seq<seq<Byte>>)
    requires |ps| == n && forall i :: 0 <= i < n ==> |ps[i]| == w
    ensures |Flatten(ps)| == w * n
  {
    if n > 0 {
      FlattenCopies(n - 1, w, ps[1..]);
    }
  }

  // ---------------------------------------------------------------- the round trip

  lemma CharRoundTrip(v: Val)
    requires HasType(v, Char)
    ensures Encode(Char, v).Some? && Decode(Char, Encode(Char, v).value) == Some(v)
  {
    assert Pow256(3) == 256 * 65536 by { assert Pow256(2) == 256 * Pow256(1); }
    LeRoundTrip(v.i, 3);
    assert ToLe(v.i, 3)[..3] == ToLe(v.i, 3);
  }

  lemma UnsignedRoundTrip(w: nat, v: Val)
    requires HasType(v, Unsigned(w))
    ensures Encode(Unsigned(w), v).Some? && Decode(Unsigned(w), Encode(Unsigned(w), v).value) == Some(v)
  {
    LeRoundTrip(v.i, w);
  }

  /** Two's complement */
  lemma SignedRoundTrip(w: nat, v: Val)
    requires HasType(v, Signed(w))
    ensures Encode(Signed(w), v).Some? && Decode(Signed(w), Encode(Signed(w), v).value) == Some(v)
  {
    var u := if v.i < 0 then v.i + Pow256(w) else v.i;
    LeRoundTrip(u, w);
    assert Encode(Signed(w), v) == Some(ToLe(u, w));
  }

  /** The other way round for integers: every string of the right width is the encoding of what it decodes to. */
  lemma IntegerBytes(ty: Ty, data: seq<Byte>, v: Val)
    requires (ty.Unsigned? || ty.Signed?) && Decode(ty, data) == Some(v)
    ensures HasType(v, ty) && Encode(ty, v) == Some(data)
  {
    LeRoundTripBack(data);
  }

  /** Decoding undoes encoding, and a fixed-width type always takes its declared width. */
  lemma {:induction false} RoundTrip(ty: Ty, v: Val)
    requires HasType(v, ty) && Encode(ty, v).Some?
    ensures Decode(ty, Encode(ty, v).value) == Some(v)
    ensures Width(ty).Some? ==> |Encode(ty, v).value| == Width(ty).value
    decreases ty, 1, 0
  {
    match ty
    case Char => CharRoundTrip(v);
    case Unsigned(w) => UnsignedRoundTrip(w, v);
    case Signed(w) => SignedRoundTrip(w, v);
    case Opt(t) => OptRoundTrip(ty, v);
    case Vec(t) => VecRoundTrip(ty, v);
    case Array(n, t) => ArrayRoundTrip(ty, v);
    case Tuple(ts) => TupleRoundTrip(ty, v);
    case _ =>
  }

  lemma {:induction false} OptRoundTrip(ty: Ty, v: Val)
    requires ty.Opt? && HasType(v, ty) && Encode(ty, v).Some?
    ensures Decode(ty, Encode(ty, v).value) == Some(v)
    ensures Width(ty).Some? ==> |Encode(ty, v).value| == Width(ty).value
    decreases ty, 0, 0
  {
    if v.Present? {
      RoundTrip(ty.elem, v.v);
      var e := Encode(ty.elem, v.v).value;
      assert ([1] + e)[1..] == e;
    }
  }

  lemma {:induction false} EachRoundTrip(of: Ty, ts: seq<Ty>, vs: seq<Val>)
    requires |vs| == |ts| && Parts(of, ts) && HaveTypes(of, vs, ts) && EncodeEach(of, ts, vs).Some?
    ensures DecodeList(of, ts, EncodeEach(of, ts, vs).value) == Some(vs)
    ensures Sized(Widths(ts), EncodeEach(of, ts, vs).value)
    decreases of, 0, |ts|
  {
    if ts != [] {
      RoundTrip(ts[0], vs[0]);
      EachRoundTrip(of, ts[1..], vs[1..]);
      var ps := EncodeEach(of, ts, vs).value;
      assert ps == [ps[0]] + ps[1..] && vs == [vs[0]] + vs[1..];
      assert Widths(ts)[1..] == Widths(ts[1..]);
      assert forall i :: 1 <= i < |ps| ==> ps[i] == ps[1..][i - 1] && Widths(ts)[i] == Widths(ts[1..])[i - 1];
    }
  }

  lemma {:induction false} VecRoundTrip(ty: Ty, v: Val)
    requires ty.Vec? && HasType(v, ty) && Encode(ty, v).Some?
    ensures Decode(ty, Encode(ty, v).value) == Some(v)
    decreases ty, 0, |v.vs| + 1
  {
    var t, ts := ty.elem, Copies(|v.vs|, ty.elem);
    EachRoundTrip(ty, ts, v.vs);
    var ps := EncodeEach(ty, ts, v.vs).value;
    assert forall i :: 0 <= i < |ps| ==> Widths(ts)[i] == Width(t);
    VecParses(Width(t), ps);
    var head, body := EncodeVarint(|ps|).value, VecBody(Width(t).Some?, ps).value;
    VarintRoundTrip(|ps|, body);
    assert (head + body)[|head|..] == body;
  }

  lemma {:induction false} ArrayRoundTrip(ty: Ty, v: Val)
    requires ty.Array? && HasType(v, ty) && Encode(ty, v).Some?
    ensures Decode(ty, Encode(ty, v).value) == Some(v)
    ensures Width(ty).Some? ==> |Encode(ty, v).value| == Width(ty).value
    ensures ParseArray(ty.n, ty.elem, Encode(ty, v).value) == EncodeEach(ty, Copies(ty.n, ty.elem), v.vs)
    decreases ty, 0, |v.vs| + 1
  {
    var t, ts := ty.elem, Copies(ty.n, ty.elem);
    EachRoundTrip(ty, ts, v.vs);
    var ps := EncodeEach(ty, ts, v.vs).value;
    if Width(t).Some? {
      FixedParses(Widths(ts), ps);
      FlattenCopies(ty.n, Width(t).value, ps);
    } else {
      ArrayParses(ty.n, ps);
    }
  }

  lemma EmptyTuple(ty: Ty)
    requires ty.Tuple? && Width(ty).None?
    ensures |ty.elems| > 0
  {
  }

  lemma {:induction false} TupleRoundTrip(ty: Ty, v: Val)
    requires ty.Tuple? && HasType(v, ty) && Encode(ty, v).Some?
    ensures Decode(ty, Encode(ty, v).value) == Some(v)
    ensures Width(ty).Some? ==> |Encode(ty, v).value| == Width(ty).value
    ensures ParseElems(ty, Encode(ty, v).value) == EncodeEach(ty, ty.elems, v.vs)
    decreases ty, 0, |v.vs| + 1
  {
    EachRoundTrip(ty, ty.elems, v.vs);
    var ps := EncodeEach(ty, ty.elems, v.vs).value;
    if Width(ty).Some? {
      FlattenLength(ty, ty.elems, ps);
      FixedParses(Widths(ty.elems), ps);
    } else {
      EmptyTuple(ty);
      TupleParses(Widths(ty.elems), ps);
    }
  }

  /** Two values with the same encoding are the same value. */
  lemma EncodeInjective(ty: Ty, v: Val, w: Val)
    requires HasType(v, ty) && HasType(w, ty) && Encode(ty, v).Some? && Encode(ty, v) == Encode(ty, w)
    ensures v == w
  {
    RoundTrip(ty, v);
    RoundTrip(ty, w);
  }

  // ---------------------------------------------------------------- the order

  /** Comparing encodings of a key type is comparing the values. */
  lemma {:induction false} CompareAgrees(ty: Ty, v: Val, w: Val)
    requires IsKey(ty) && HasType(v, ty) && HasType(w, ty) && Encode(ty, v).Some? && Encode(ty, w).Some?
    ensures CompareRaw(ty, Encode(ty, v).value, Encode(ty, w).value) == Some(Compare(ty, v, w))
    decreases ty, 1, 0
  {
    match ty
    case Char => ScalarsAgree(ty, v, w);
    case Unsigned(_) => ScalarsAgree(ty, v, w);
    case Signed(_) => ScalarsAgree(ty, v, w);
    case Opt(t) => OptionsAgree(ty, v, w);
    case Array(n, t) =>
      ArrayRoundTrip(ty, v);
      ArrayRoundTrip(ty, w);
      CompareEachAgrees(ty, Copies(n, t), v.vs, w.vs);
    case Tuple(ts) =>
      TupleRoundTrip(ty, v);
      TupleRoundTrip(ty, w);
      CompareEachAgrees(ty, ts, v.vs, w.vs);
    case _ =>
  }

  lemma ScalarsAgree(ty: Ty, v: Val, w: Val)
    requires ty.Char? || ty.Unsigned? || ty.Signed?
    requires HasType(v, ty) && HasType(w, ty)
    ensures Encode(ty, v).Some? && Encode(ty, w).Some?
    ensures CompareRaw(ty, Encode(ty, v).value, Encode(ty, w).value) == Some(Compare(ty, v, w))
  {
    RoundTrip(ty, v);
    RoundTrip(ty, w);
  }

  lemma {:induction false} OptionsAgree(ty: Ty, v: Val, w: Val)
    requires IsKey(ty) && ty.Opt? && HasType(v, ty) && HasType(w, ty) && Encode(ty, v).Some? && Encode(ty, w).Some?
    ensures CompareRaw(ty, Encode(ty, v).value, Encode(ty, w).value) == Some(Compare(ty, v, w))
    decreases ty, 0, 0
  {
    if v.Present? && w.Present? {
      var a, b := Encode(ty.elem, v.v).value, Encode(ty.elem, w.v).value;
      CompareAgrees(ty.elem, v.v, w.v);
      assert ([1] + a)[1..] == a && ([1] + b)[1..] == b;
    }
  }

  lemma {:induction false} CompareEachAgrees(of: Ty, ts: seq<Ty>, vs: seq<Val>, ws: seq<Val>)
    requires |vs| == |ws| == |ts| && Parts(of, ts) && HaveTypes(of, vs, ts) && HaveTypes(of, ws, ts)
    requires forall t :: t in ts ==> IsKey(t)
    requires EncodeEach(of, ts, vs).Some? && EncodeEach(of, ts, ws).Some?
    ensures CompareList(of, ts, EncodeEach(of, ts, vs).value, EncodeEach(of, ts, ws).value)
            == Some(CompareAll(of, ts, vs, ws))
    decreases of, 0, |ts|
  {
    if ts != [] {
      CompareAgrees(ts[0], vs[0], ws[0]);
      CompareEachAgrees(of, ts[1..], vs[1..], ws[1..]);
    }
  }

  /** The byte order of a key type is total: antisymmetric, and equal only on equal keys. */
  lemma CompareRawTotal(ty: Ty, v: Val, w: Val)
    requires IsKey(ty) && HasType(v, ty) && HasType(w, ty) && Encode(ty, v).Some? && Encode(ty, w).Some?
    ensures var (a, b) := (Encode(ty, v).value, Encode(ty, w).value);
            && CompareRaw(ty, a, b).Some?
            && CompareRaw(ty, b, a) == Some(Flip(CompareRaw(ty, a, b).value))
            && (CompareRaw(ty, a, b) == Some(Equal) <==> a == b)
  {
    CompareAgrees(ty, v, w);
    CompareAgrees(ty, w, v);
    CompareTotal(ty, v, w);
    if Encode(ty, v) == Encode(ty, w) {
      EncodeInjective(ty, v, w);
    }
  }

  lemma CompareRawTransitive(ty: Ty, u: Val, v: Val, w: Val)
    requires IsKey(ty) && HasType(u, ty) && HasType(v, ty) && HasType(w, ty)
    requires Encode(ty, u).Some? && Encode(ty, v).Some? && Encode(ty, w).Some?
    requires CompareRaw(ty, Encode(ty, u).value, Encode(ty, v).value) == Some(Less)
    requires CompareRaw(ty, Encode(ty, v).value, Encode(ty, w).value) == Some(Less)
    ensures CompareRaw(ty, Encode(ty, u).value, Encode(ty, w).value) == Some(Less)
  {
    CompareAgrees(ty, u, v);
    CompareAgrees(ty, v, w);
    CompareAgrees(ty, u, w);
    CompareTransitive(ty, u, v, w);
  }

  // ---------------------------------------------------------------- when encoding panics

  /** A type of fixed width has no length to overflow: every value of it can be encoded. */
  lemma {:induction false} FixedEncodes(ty: Ty, v: Val)
    requires HasType(v, ty) && Width(ty).Some?
    ensures Encode(ty, v).Some?
    decreases ty, 1, 0
  {
    match ty
    case Opt(t) => if v.Present? { FixedEncodes(t, v.v); }
    case Array(n, t) => FixedEncodesEach(ty, Copies(n, t), v.vs);
    case Tuple(ts) =>
      WidthsOfParts(ty, ts);
      FixedEncodesEach(ty, ts, v.vs);
    case _ =>
  }

  lemma {:induction false} WidthsOfParts(of: Ty, ts: seq<Ty>)
    requires Parts(of, ts) && WidthSum(of, ts).Some?
    ensures forall i :: 0 <= i < |ts| ==> Width(ts[i]).Some?
    decreases |ts|
  {
    if ts != [] {
      WidthsOfParts(of, ts[1..]);
      assert forall i :: 1 <= i < |ts| ==> ts[i] == ts[1..][i - 1];
    }
  }

  lemma {:induction false} FixedEncodesEach(of: Ty, ts: seq<Ty>, vs: seq<Val>)
    requires |vs| == |ts| && Parts(of, ts) && HaveTypes(of, vs, ts)
    requires forall i :: 0 <= i < |ts| ==> Width(ts[i]).Some?
    ensures EncodeEach(of, ts, vs).Some?
    decreases of, 0, |ts|
  {
    if ts != [] {
      FixedEncodes(ts[0], vs[0]);
      FixedEncodesEach(of, ts[1..], vs[1..]);
    }
  }
}
