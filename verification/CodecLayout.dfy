/**
 Where the bytes are: the stored format byte by byte, for files that were written by others.
 */
module CodecLayout {
  import opened Ledgers
  import opened CodecBytes
  import opened CodecTypes
  import opened Codec
  import CodecProofs

  // ---------------------------------------------------------------- numbers

  /** Byte `i` is the digit of weight 256 to the `i`. */
  lemma {:induction false} LeDigit(n: nat, w: nat, i: nat)
    requires i < w
    ensures ToLe(n, w)[i] == n / Pow256(i) % 256
  {
    if i > 0 {
      LeDigit(n / 256, w - 1, i - 1);
      DivideTwice(n, Pow256(i - 1));
    }
  }

  lemma DivideTwice(n: nat, p: nat)
    requires p > 0
    ensures n / 256 / p == n / (256 * p)
  {
    var q, r := n / 256, n % 256;
    var a, b := q / p, q % p;
    assert n == 256 * (a * p + b) + r == (256 * p) * a + (256 * b + r);
    assert 256 * b + r < 256 * p;
    Quotient(n, 256 * p, a, 256 * b + r);
  }

  lemma Quotient(n: nat, d: nat, q: nat, r: nat)
    requires n == d * q + r && r < d
    ensures n / d == q
  {
    var x := n / d - q;
    assert d * x == r - n % d by {
      assert n == d * (n / d) + n % d;
      assert d * x == d * (n / d) - d * q;
    }
    assert x >= 1 ==> d * x >= d;
    assert x <= -1 ==> d * x + d <= 0;
  }

  /** Two's complement: a negative number has the digits of its distance to 256 to the `w`. */
  lemma NumberBytes(ty: Ty, k: int, i: nat)
    requires (ty.Unsigned? || ty.Signed?) && HasType(Int(k), ty) && i < ty.bytes
    ensures Encode(ty, Int(k)).Some? && |Encode(ty, Int(k)).value| == ty.bytes
    ensures Encode(ty, Int(k)).value[i] == (if k < 0 then k + Pow256(ty.bytes) else k) / Pow256(i) % 256
  {
    LeDigit(if k < 0 then k + Pow256(ty.bytes) else k, ty.bytes, i);
  }

  /** A truth value is one byte, a character three. */
  lemma BoolBytes(b: bool)
    ensures Encode(Bool, Truth(b)) == if b then Some([1]) else Some([0])
  {
  }

  lemma CharBytes(k: int, i: nat)
    requires HasType(Int(k), Char) && i < 3
    ensures Encode(Char, Int(k)).Some? && |Encode(Char, Int(k)).value| == 3
    ensures Encode(Char, Int(k)).value[i] == k / Pow256(i) % 256
  {
    LeDigit(k, 3, i);
  }

  /** One byte below 254; else a marker and two or four bytes. */
  lemma VarintShape(len: nat)
    requires len <= U32_MAX
    ensures EncodeVarint(len).Some?
    ensures var e := EncodeVarint(len).value;
            && |e| == (if len < 254 then 1 else if len < 65536 then 3 else 5)
            && e[0] == (if len < 254 then len else if len < 65536 then 254 else 255)
            && forall i :: 1 <= i < |e| ==> e[i] == len / Pow256(i - 1) % 256
  {
    var e := EncodeVarint(len).value;
    forall i | 1 <= i < |e|
      ensures e[i] == len / Pow256(i - 1) % 256
    {
      LeDigit(len, |e| - 1, i - 1);
    }
  }

  // ---------------------------------------------------------------- options, arrays, pairs

  /** The tag tells absent from present; absent is padded to the width. */
  lemma OptionBytes(t: Ty, v: Val)
    requires HasType(v, t) && Encode(t, v).Some?
    ensures var some := Encode(Opt(t), Present(v));
            some.Some? && some.value != [] && some.value[0] == 1 && some.value[1..] == Encode(t, v).value
    ensures var none := Encode(Opt(t), Absent);
            && none.Some? && none.value != [] && (forall i :: 0 <= i < |none.value| ==> none.value[i] == 0)
            && |none.value| == 1 + (if Width(t).Some? then Width(t).value else 0)
  {
  }

  function Total(ps: seq<seq<Byte>>): nat {
    if ps == [] then 0 else Total(ps[..|ps| - 1]) + |ps[|ps| - 1]|
  }

  lemma {:induction false} TotalFront(p: seq<Byte>, ps: seq<seq<Byte>>)
    ensures Total([p] + ps) == |p| + Total(ps)
  {
    var all := [p] + ps;
    if ps == [] {
      assert all[..0] == [];
    } else {
      assert all[..|all| - 1] == [p] + ps[..|ps| - 1];
      TotalFront(p, ps[..|ps| - 1]);
    }
  }

  /** Offset `i` of an array is where element `i` ends, counted from the start of the encoding. */
  lemma {:induction false} OffsetAt(start: nat, ps: seq<seq<Byte>>, i: nat)
    requires Offsets(start, ps).Some? && i < |ps|
    ensures var offs := Offsets(start, ps).value;
            && |offs| == 4 * |ps| && start + Total(ps[..i + 1]) <= U32_MAX
            && offs[4 * i..4 * i + 4] == ToLe(start + Total(ps[..i + 1]), 4)
    decreases |ps|
  {
    var end := start + |ps[0]|;
    var rest := Offsets(end, ps[1..]).value;
    var offs := Offsets(start, ps).value;
    assert offs == ToLe(end, 4) + rest;
    CodecProofs.OffsetsLength(end, ps[1..]);
    if i == 0 {
      TotalFront(ps[0], []);
      assert ps[..1] == [ps[0]] + [];
    } else {
      OffsetAt(end, ps[1..], i - 1);
      assert ps[..i + 1] == [ps[0]] + ps[1..][..i];
      TotalFront(ps[0], ps[1..][..i]);
      assert offs[4 * i..4 * i + 4] == rest[4 * (i - 1)..4 * (i - 1) + 4];
    }
  }

  /** Element `i` of the flattened elements lies between the ends of `i - 1` and `i`. */
  lemma {:induction false} ElementAt(ps: seq<seq<Byte>>, i: nat)
    requires i < |ps|
    ensures Total(ps[..i]) + |ps[i]| == Total(ps[..i + 1]) <= |Flatten(ps)|
    ensures Flatten(ps)[Total(ps[..i])..Total(ps[..i + 1])] == ps[i]
    decreases |ps|
  {
    assert ps[..i + 1][..i] == ps[..i];
    var rest := Flatten(ps[1..]);
    if i == 0 {
      assert Flatten(ps)[0..|ps[0]|] == ps[0];
    } else {
      ElementAt(ps[1..], i - 1);
      assert ps[..i] == [ps[0]] + ps[1..][..i - 1] && ps[..i + 1] == [ps[0]] + ps[1..][..i];
      TotalFront(ps[0], ps[1..][..i - 1]);
      TotalFront(ps[0], ps[1..][..i]);
      ShiftedSlice(ps[0], rest, Total(ps[1..][..i - 1]), Total(ps[1..][..i]));
    }
  }

  lemma ShiftedSlice(head: seq<Byte>, rest: seq<Byte>, a: nat, b: nat)
    requires a <= b <= |rest|
    ensures (head + rest)[|head| + a..|head| + b] == rest[a..b]
  {
  }

  /** An array of variable width: end offsets of four bytes each, then the elements. */
  lemma ArrayBytes(n: nat, t: Ty, v: Val, ps: seq<seq<Byte>>, i: nat)
    requires HasType(v, Array(n, t)) && Width(t).None? && i < n
    requires EncodeEach(Array(n, t), Copies(n, t), v.vs) == Some(ps) && Encode(Array(n, t), v).Some?
    ensures var data := Encode(Array(n, t), v).value;
            var start, end := 4 * n + Total(ps[..i]), 4 * n + Total(ps[..i + 1]);
            && start <= end <= |data| && data[4 * i..4 * i + 4] == ToLe(end, 4) && data[start..end] == ps[i]
  {
    var data, head := Encode(Array(n, t), v).value, 4 * n;
    assert data == Offsets(head, ps).value + Flatten(ps);
    CodecProofs.OffsetsLength(head, ps);
    OffsetAt(head, ps, i);
    ElementAt(ps, i);
    Behind(Offsets(head, ps).value, Flatten(ps), data, 4 * i, head, Total(ps[..i]), Total(ps[..i + 1]));
  }

  lemma Behind(offs: seq<Byte>, flat: seq<Byte>, data: seq<Byte>, at: nat, head: nat, a: nat, b: nat)
    requires data == offs + flat && |offs| == head && at + 4 <= head && a <= b <= |flat|
    ensures data[at..at + 4] == offs[at..at + 4] && data[head + a..head + b] == flat[a..b]
  {
  }

  /** A pair: the length of the first element unless its width is known, then both elements. */
  lemma PairBytes(t: Ty, u: Ty, vs: seq<Val>, ps: seq<seq<Byte>>)
    requires |vs| == 2 && HasType(List(vs), Tuple([t, u])) && EncodeEach(Tuple([t, u]), [t, u], vs) == Some(ps)
    requires Encode(Tuple([t, u]), List(vs)).Some?
    ensures Width(t).Some? ==> Encode(Tuple([t, u]), List(vs)).value == ps[0] + ps[1]
    ensures Width(t).None? && |ps[0]| < 254 ==>
              Encode(Tuple([t, u]), List(vs)).value == [|ps[0]|] + (ps[0] + ps[1])
  {
    var ty := Tuple([t, u]);
    PairFlat(ps);
    PairWidth(ty, t, u);
    PairLens(Widths([t, u]), ps);
    assert [] + Flatten(ps) == Flatten(ps);
  }

  /** A vector: how many elements, then each one, after its length unless the width is known. */
  lemma VecBytes(t: Ty, vs: seq<Val>, ps: seq<seq<Byte>>)
    requires |vs| < 254 && HasType(List(vs), Vec(t)) && EncodeEach(Vec(t), Copies(|vs|, t), vs) == Some(ps)
    requires forall i :: 0 <= i < |ps| ==> |ps[i]| < 254
    ensures Encode(Vec(t), List(vs)) == Some([|vs|] + Flatten(if Width(t).Some? then ps else Prefixed(ps)))
  {
    VecBodyBytes(Width(t).Some?, ps);
  }

  /** Every piece after a byte with its length. */
  function Prefixed(ps: seq<seq<Byte>>): seq<seq<Byte>>
    requires forall i :: 0 <= i < |ps| ==> |ps[i]| < 254
  {
    seq(|ps|, i requires 0 <= i < |ps| => [|ps[i]|] + ps[i])
  }

  lemma {:induction false} VecBodyBytes(fixed: bool, ps: seq<seq<Byte>>)
    requires forall i :: 0 <= i < |ps| ==> |ps[i]| < 254
    ensures VecBody(fixed, ps) == Some(Flatten(if fixed then ps else Prefixed(ps)))
  {
    if ps != [] {
      VecBodyBytes(fixed, ps[1..]);
      var all := if fixed then ps else Prefixed(ps);
      assert all[1..] == if fixed then ps[1..] else Prefixed(ps[1..]);
      assert [] + ps[0] == ps[0];
      assert Flatten(all) == all[0] + Flatten(all[1..]);
    } else {
      assert Prefixed(ps) == [];
    }
  }

  lemma PairFlat(ps: seq<seq<Byte>>)
    requires |ps| == 2
    ensures Flatten(ps) == ps[0] + ps[1]
  {
    var last: seq<seq<Byte>> := ps[1..];
    assert last[0] == ps[1] && |last[1..]| == 0;
    assert Flatten(last) == ps[1] + Flatten(last[1..]) == ps[1];
  }

  lemma PairLens(ws: seq<Option<nat>>, ps: seq<seq<Byte>>)
    requires |ws| == |ps| == 2
    ensures TupleLens(ws, ps) == if ws[0].Some? then Some([]) else EncodeVarint(|ps[0]|)
  {
    assert TupleLens(ws[1..], ps[1..]) == Some([]);
    assert forall s: seq<Byte> :: s + [] == s;
  }

  lemma PairWidth(ty: Ty, t: Ty, u: Ty)
    requires ty == Tuple([t, u])
    ensures Width(ty).Some? <==> Width(t).Some? && Width(u).Some?
  {
    assert [t, u][1..] == [u] && [u][1..] == [];
    assert WidthSum(ty, [u]).Some? <==> Width(u).Some?;
  }
}
