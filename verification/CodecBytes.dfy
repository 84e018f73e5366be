/**
 Bytes, little-endian integers and the variable-length integers that carry lengths.
 */
module CodecBytes {
  import opened Ledgers

  type Byte = b: nat | b < 256

  datatype Ordering = Less | Equal | Greater

  const U16_MAX: nat := 0xFFFF
  const U32_MAX: nat := 0xFFFF_FFFF

  // ---------------------------------------------------------------- little endian

  function Pow256(w: nat): (p: nat)
    ensures p > 0
  {
    if w == 0 then 1 else 256 * Pow256(w - 1)
  }

  /** The `w` low bytes of `n`, least significant first. */
  function ToLe(n: nat, w: nat): (s: seq<Byte>)
    ensures |s| == w
  {
    if w == 0 then [] else [n % 256] + ToLe(n / 256, w - 1)
  }

  function FromLe(s: seq<Byte>): (n: nat)
    ensures n < Pow256(|s|)
  {
    if s == [] then 0 else s[0] + 256 * FromLe(s[1..])
  }

  lemma {:induction false} LeRoundTrip(n: nat, w: nat)
    requires n < Pow256(w)
    ensures FromLe(ToLe(n, w)) == n
  {
    if w > 0 {
      LeRoundTrip(n / 256, w - 1);
      assert ToLe(n, w)[1..] == ToLe(n / 256, w - 1);
    }
  }

  lemma {:induction false} LeRoundTripBack(s: seq<Byte>)
    ensures ToLe(FromLe(s), |s|) == s
  {
    if s != [] {
      LeRoundTripBack(s[1..]);
      assert s == [s[0]] + s[1..];
    }
  }

  // ---------------------------------------------------------------- variable-length integers

  /** `encode_varint_len`; a length that does not fit in 32 bits panics. */
  function EncodeVarint(len: nat): Option<seq<Byte>> {
    if len < 254 then Some([len])
    else if len <= U16_MAX then Some([254] + ToLe(len, 2))
    else if len <= U32_MAX then Some([255] + ToLe(len, 4))
    else None
  }

  datatype Varint = Varint(len: nat, consumed: nat)

  /** `decode_varint_len`; reading past the end of the data panics. */
  function DecodeVarint(data: seq<Byte>): Option<Varint> {
    if |data| == 0 then None
    else if data[0] < 254 then Some(Varint(data[0], 1))
    else if data[0] == 254 then
      if |data| < 3 then None else Some(Varint(FromLe(data[1..3]), 3))
    else
      if |data| < 5 then None else Some(Varint(FromLe(data[1..5]), 5))
  }

  /** A length reads back whatever follows it, on both sides of the 254 and 65536 boundaries. */
  lemma VarintRoundTrip(len: nat, rest: seq<Byte>)
    ensures EncodeVarint(len).Some? <==> len <= U32_MAX
    ensures EncodeVarint(len).Some? ==>
              var e := EncodeVarint(len).value;
              DecodeVarint(e + rest) == Some(Varint(len, |e|))
  {
    assert Pow256(2) == 65536 by { assert Pow256(1) == 256 * Pow256(0); }
    assert Pow256(4) == 65536 * 65536 by { assert Pow256(3) == 256 * Pow256(2); }
    if 254 <= len <= U16_MAX {
      assert ([254] + ToLe(len, 2) + rest)[1..3] == ToLe(len, 2);
      LeRoundTrip(len, 2);
    } else if U16_MAX < len <= U32_MAX {
      assert ([255] + ToLe(len, 4) + rest)[1..5] == ToLe(len, 4);
      LeRoundTrip(len, 4);
    }
  }

  // ---------------------------------------------------------------- orders

  function CompareInt(a: int, b: int): Ordering {
    if a < b then Less else if a == b then Equal else Greater
  }

  /** Slice comparison: the first difference decides, a proper prefix is smaller. */
  function CompareBytes(a: seq<Byte>, b: seq<Byte>): Ordering {
    if a == [] then if b == [] then Equal else Less
    else if b == [] then Greater
    else if a[0] != b[0] then CompareInt(a[0], b[0])
    else CompareBytes(a[1..], b[1..])
  }

  function Flip(o: Ordering): Ordering {
    match o
    case Less => Greater
    case Equal => Equal
    case Greater => Less
  }

  lemma {:induction false} CompareBytesTotal(a: seq<Byte>, b: seq<Byte>)
    ensures CompareBytes(a, b) == Equal <==> a == b
    ensures CompareBytes(b, a) == Flip(CompareBytes(a, b))
  {
    if a != [] && b != [] {
      CompareBytesTotal(a[1..], b[1..]);
      assert a == [a[0]] + a[1..] && b == [b[0]] + b[1..];
    }
  }

  lemma {:induction false} CompareBytesTransitive(a: seq<Byte>, b: seq<Byte>, c: seq<Byte>)
    requires CompareBytes(a, b) == Less && CompareBytes(b, c) == Less
    ensures CompareBytes(a, c) == Less
  {
    if a != [] && b != [] && c != [] && a[0] == b[0] == c[0] {
      CompareBytesTransitive(a[1..], b[1..], c[1..]);
    }
  }
}
