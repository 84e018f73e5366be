/**
 What the comparison of keys means: the order of the values themselves, said without the
 comparison functions.
 */
module CodecOrder {
  import opened Ledgers
  import opened CodecBytes
  import opened CodecTypes
  import opened Codec
  import CodecProofs

  /** `a` and `b` are alike up to `k`, where `a` ends or has the smaller byte. */
  ghost predicate BytesBelowAt(a: seq<Byte>, b: seq<Byte>, k: nat) {
    && k <= |a| && k < |b| && (forall i :: 0 <= i < k ==> a[i] == b[i])
    && (k < |a| ==> a[k] < b[k])
  }

  ghost predicate BytesBelow(a: seq<Byte>, b: seq<Byte>) {
    exists k :: BytesBelowAt(a, b, k)
  }

  /**
   Numbers by size, false before true, absent before present, strings by their first difference
   or the end of the shorter one, arrays and tuples by their first different element.
   */
  ghost predicate Precedes(ty: Ty, a: Val, b: Val)
    requires HasType(a, ty) && HasType(b, ty)
    decreases ty, 1, 0
  {
    match ty
    case Unit => false
    case Bool => !a.b && b.b
    case Char => a.i < b.i
    case Unsigned(_) => a.i < b.i
    case Signed(_) => a.i < b.i
    case Bytes => BytesBelow(a.bytes, b.bytes)
    case FixedBytes(_) => BytesBelow(a.bytes, b.bytes)
    case Opt(t) => b.Present? && (a.Present? ==> Precedes(t, a.v, b.v))
    case Vec(_) => false
    case Array(n, t) => ListPrecedes(ty, Copies(n, t), a.vs, b.vs)
    case Tuple(ts) => ListPrecedes(ty, ts, a.vs, b.vs)
  }

  ghost predicate ListPrecedes(of: Ty, ts: seq<Ty>, a: seq<Val>, b: seq<Val>)
    requires |a| == |b| == |ts| && Parts(of, ts)
    decreases of, 0, 1
  {
    exists k :: PrecedesAt(of, ts, a, b, k)
  }

  /** `a` and `b` are alike up to `k`, where the element of `a` comes first. */
  ghost predicate PrecedesAt(of: Ty, ts: seq<Ty>, a: seq<Val>, b: seq<Val>, k: nat)
    requires |a| == |b| == |ts| && Parts(of, ts)
    decreases of, 0, 0
  {
    && k < |ts| && (forall i :: 0 <= i < k ==> a[i] == b[i])
    && HasType(a[k], ts[k]) && HasType(b[k], ts[k]) && Precedes(ts[k], a[k], b[k])
  }

  lemma {:induction false} BytesOrder(a: seq<Byte>, b: seq<Byte>)
    ensures CompareBytes(a, b) == Less <==> BytesBelow(a, b)
  {
    if a == [] || b == [] || a[0] != b[0] {
      assert BytesBelowAt(a, b, 0) <==> CompareBytes(a, b) == Less;
    } else {
      BytesOrder(a[1..], b[1..]);
      if k: nat :| BytesBelowAt(a[1..], b[1..], k) {
        BytesUp(a, b, k);
      }
      if k: nat :| BytesBelowAt(a, b, k) {
        assert BytesBelowAt(a[1..], b[1..], k - 1);
      }
    }
  }

  lemma BytesUp(a: seq<Byte>, b: seq<Byte>, k: nat)
    requires a != [] && b != [] && a[0] == b[0] && BytesBelowAt(a[1..], b[1..], k)
    ensures BytesBelowAt(a, b, k + 1)
  {
    forall i | 0 <= i < k + 1
      ensures a[i] == b[i]
    {
      assert i > 0 ==> a[1..][i - 1] == b[1..][i - 1];
    }
  }

  lemma {:induction false} ValueOrder(ty: Ty, a: Val, b: Val)
    requires IsKey(ty) && HasType(a, ty) && HasType(b, ty)
    ensures Compare(ty, a, b) == Less <==> Precedes(ty, a, b)
    decreases ty, 1, 0
  {
    match ty
    case Bytes => BytesOrder(a.bytes, b.bytes);
    case FixedBytes(_) => BytesOrder(a.bytes, b.bytes);
    case Opt(t) => if a.Present? && b.Present? { ValueOrder(t, a.v, b.v); }
    case Array(n, t) =>
      ListOrder(ty, Copies(n, t), a.vs, b.vs);
    case Tuple(ts) => ListOrder(ty, ts, a.vs, b.vs);
    case _ =>
  }

  lemma {:induction false} ListOrder(of: Ty, ts: seq<Ty>, a: seq<Val>, b: seq<Val>)
    requires |a| == |b| == |ts| && Parts(of, ts) && HaveTypes(of, a, ts) && HaveTypes(of, b, ts)
    requires forall t :: t in ts ==> IsKey(t)
    ensures CompareAll(of, ts, a, b) == Less <==> ListPrecedes(of, ts, a, b)
    decreases of, 0, |ts|
  {
    if ts != [] {
      ValueOrder(ts[0], a[0], b[0]);
      CompareTotal(ts[0], a[0], b[0]);
      ListOrder(of, ts[1..], a[1..], b[1..]);
      if a[0] == b[0] {
        if k: nat :| PrecedesAt(of, ts[1..], a[1..], b[1..], k) {
          ListUp(of, ts, a, b, k);
        }
        if k: nat :| PrecedesAt(of, ts, a, b, k) {
          ListDown(of, ts, a, b, k);
        }
      } else {
        assert PrecedesAt(of, ts, a, b, 0) <==> Precedes(ts[0], a[0], b[0]);
        assert forall k: nat :: PrecedesAt(of, ts, a, b, k) ==> k == 0;
      }
    }
  }

  lemma ListUp(of: Ty, ts: seq<Ty>, a: seq<Val>, b: seq<Val>, k: nat)
    requires |a| == |b| == |ts| > 0 && Parts(of, ts) && Parts(of, ts[1..]) && a[0] == b[0]
    requires PrecedesAt(of, ts[1..], a[1..], b[1..], k)
    ensures ListPrecedes(of, ts, a, b)
  {
    forall i | 0 <= i < k + 1
      ensures a[i] == b[i]
    {
      assert i > 0 ==> a[1..][i - 1] == b[1..][i - 1];
    }
    assert PrecedesAt(of, ts, a, b, k + 1);
  }

  lemma ListDown(of: Ty, ts: seq<Ty>, a: seq<Val>, b: seq<Val>, k: nat)
    requires |a| == |b| == |ts| > 0 && Parts(of, ts) && Parts(of, ts[1..]) && PrecedesAt(of, ts, a, b, k)
    requires HasType(a[0], ts[0]) && HasType(b[0], ts[0]) && !Precedes(ts[0], a[0], b[0])
    ensures ListPrecedes(of, ts[1..], a[1..], b[1..])
  {
    assert PrecedesAt(of, ts[1..], a[1..], b[1..], k - 1);
  }

  /** `Key::compare` on the stored bytes is the order of the values. */
  lemma KeyOrder(ty: Ty, a: Val, b: Val)
    requires IsKey(ty) && HasType(a, ty) && HasType(b, ty) && Encode(ty, a).Some? && Encode(ty, b).Some?
    ensures CompareRaw(ty, Encode(ty, a).value, Encode(ty, b).value)
         == Some(if Precedes(ty, a, b) then Less else if a == b then Equal else Greater)
  {
    CodecProofs.CompareAgrees(ty, a, b);
    ValueOrder(ty, a, b);
    CompareTotal(ty, a, b);
  }

  /** For numbers: less exactly if smaller. */
  lemma NumberOrder(ty: Ty, i: int, j: int)
    requires (ty.Unsigned? || ty.Signed? || ty.Char?) && HasType(Int(i), ty) && HasType(Int(j), ty)
    ensures Encode(ty, Int(i)).Some? && Encode(ty, Int(j)).Some?
    ensures CompareRaw(ty, Encode(ty, Int(i)).value, Encode(ty, Int(j)).value) == Some(Less) <==> i < j
  {
    CodecProofs.ScalarsAgree(ty, Int(i), Int(j));
    KeyOrder(ty, Int(i), Int(j));
  }
}
