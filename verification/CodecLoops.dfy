/**
 The loops of the codec, which push onto one buffer and move one offset, against the layouts
 they produce and consume.
 */
module CodecLoops {
  import opened Ledgers
  import opened CodecBytes
  import opened CodecTypes
  import opened Codec

  lemma AppendSome(a: seq<Byte>, b: seq<Byte>, c: Option<seq<Byte>>)
    ensures Append(Some(a + b), c) == Append(Some(a), Append(Some(b), c))
  {
    if c.Some? {
      assert a + b + c.value == a + (b + c.value);
    }
  }

  lemma AppendNothing(a: Option<seq<Byte>>)
    ensures Append(Some([]), a) == a && Append(a, Some([])) == a
  {
    if a.Some? {
      assert [] + a.value == a.value && a.value + [] == a.value;
    }
  }

  /** The loop of `Vec::as_bytes` over the serialized elements. */
  method VecAsBytes(fixed: bool, ps: seq<seq<Byte>>) returns (r: Option<seq<Byte>>)
    ensures r == Append(EncodeVarint(|ps|), VecBody(fixed, ps))
  {
    var head := EncodeVarint(|ps|);
    if head.None? {
      return None;
    }
    var result := head.value;
    for i := 0 to |ps|
      invariant Append(Some(result), VecBody(fixed, ps[i..])) == Append(head, VecBody(fixed, ps))
    {
      var len := if fixed then Some([]) else EncodeVarint(|ps[i]|);
      assert ps[i..][0] == ps[i] && ps[i..][1..] == ps[i + 1..];
      if len.None? {
        return None;
      }
      AppendSome(result, len.value + ps[i], VecBody(fixed, ps[i + 1..]));
      assert result + len.value + ps[i] == result + (len.value + ps[i]);
      result := result + len.value + ps[i];
    }
    AppendNothing(Some(result));
    return Some(result);
  }

  lemma FlattenNext(ps: seq<seq<Byte>>, i: nat, front: seq<Byte>)
    requires i < |ps|
    ensures front + Flatten(ps[i..]) == front + ps[i] + Flatten(ps[i + 1..])
  {
    assert ps[i..][0] == ps[i] && ps[i..][1..] == ps[i + 1..];
    assert front + (ps[i] + Flatten(ps[i + 1..])) == front + ps[i] + Flatten(ps[i + 1..]);
  }

  lemma OffsetsNext(ps: seq<seq<Byte>>, i: nat, start: nat, done: seq<Byte>)
    requires i < |ps|
    ensures var end := start + |ps[i]|;
            Append(Some(done), Offsets(start, ps[i..]))
            == if end > U32_MAX then None else Append(Some(done + ToLe(end, 4)), Offsets(end, ps[i + 1..]))
  {
    assert ps[i..][0] == ps[i] && ps[i..][1..] == ps[i + 1..];
    var end := start + |ps[i]|;
    if end <= U32_MAX {
      AppendSome(done, ToLe(end, 4), Offsets(end, ps[i + 1..]));
    }
  }

  /** Writes `le` over four bytes of the buffer. */
  lemma Patched(buffer: seq<Byte>, le: seq<Byte>, at: nat, low: nat)
    requires |le| == 4 && at + 4 <= low <= |buffer|
    ensures var b := buffer[..at] + le + buffer[at + 4..];
            |b| == |buffer| && b[..at + 4] == buffer[..at] + le && b[low..] == buffer[low..]
  {
  }

  /**
   The variable-width branch of `[T; N]::as_bytes`: offsets are reserved first, and each is
   patched in once its element has been appended.
   */
  method ArrayAsBytes(ps: seq<seq<Byte>>) returns (r: Option<seq<Byte>>)
    ensures r == Append(Offsets(4 * |ps|, ps), Some(Flatten(ps)))
  {
    var n := |ps|;
    var result := Zeros(4 * n);
    assert ps[0..] == ps && result[..0] == [] && result[4 * n..] == [] && [] + Flatten(ps) == Flatten(ps);
    AppendNothing(Offsets(4 * n, ps));
    for i := 0 to n
      invariant |result| >= 4 * n
      invariant Append(Some(result[..4 * i]), Offsets(|result|, ps[i..])) == Offsets(4 * n, ps)
      invariant result[4 * n..] + Flatten(ps[i..]) == Flatten(ps)
    {
      var end := |result| + |ps[i]|;
      OffsetsNext(ps, i, |result|, result[..4 * i]);
      FlattenNext(ps, i, result[4 * n..]);
      var longer := result + ps[i];
      assert longer[..4 * i] == result[..4 * i] && longer[4 * n..] == result[4 * n..] + ps[i];
      if end > U32_MAX {
        return None;
      }
      Patched(longer, ToLe(end, 4), 4 * i, 4 * n);
      result := longer[..4 * i] + ToLe(end, 4) + longer[4 * i + 4..];
    }
    AppendNothing(Some(result[..4 * n]));
    assert result[4 * n..] + [] == result[4 * n..] && result == result[..4 * n] + result[4 * n..];
    return Some(result);
  }

  function Joined(done: seq<nat>, more: Option<Lens>): Option<Lens> {
    if more.None? then None else Some(Lens(more.value.offset, done + more.value.lens))
  }

  lemma JoinedNext(done: seq<nat>, len: nat, more: Option<Lens>)
    ensures Joined(done + [len], more) == Joined(done, Joined([len], more))
  {
    if more.Some? {
      assert done + [len] + more.value.lens == done + ([len] + more.value.lens);
    }
  }

  lemma JoinedNothing(more: Option<Lens>)
    ensures Joined([], more) == more
  {
    if more.Some? {
      assert [] + more.value.lens == more.value.lens;
    }
  }

  /** `parse_lens` */
  method ReadLens(ws: seq<Option<nat>>, data: seq<Byte>) returns (r: Option<Lens>)
    ensures r == ParseLens(ws, data, 0)
  {
    var lens: seq<nat>, offset: nat := [], 0;
    assert ws[0..] == ws;
    JoinedNothing(ParseLens(ws, data, 0));
    for i := 0 to |ws|
      invariant offset <= |data|
      invariant Joined(lens, ParseLens(ws[i..], data, offset)) == ParseLens(ws, data, 0)
    {
      assert ws[i..][0] == ws[i] && ws[i..][1..] == ws[i + 1..];
      var len := 0;
      if ws[i].Some? {
        len := ws[i].value;
        JoinedNext(lens, len, ParseLens(ws[i + 1..], data, offset));
      } else {
        var head := DecodeVarint(data[offset..]);
        if head.None? {
          return None;
        }
        len := head.value.len;
        offset := offset + head.value.consumed;
        JoinedNext(lens, len, ParseLens(ws[i + 1..], data, offset));
      }
      lens := lens + [len];
    }
    assert lens + [] == lens;
    return Some(Lens(offset, lens));
  }

  function After(done: seq<seq<Byte>>, more: Option<seq<seq<Byte>>>): Option<seq<seq<Byte>>> {
    if more.None? then None else Some(done + more.value)
  }

  lemma AfterNext(done: seq<seq<Byte>>, p: seq<Byte>, more: Option<seq<seq<Byte>>>)
    ensures After(done + [p], more) == After(done, After([p], more))
  {
    if more.Some? {
      assert done + [p] + more.value == done + ([p] + more.value);
    }
  }

  lemma AfterNothing(more: Option<seq<seq<Byte>>>)
    ensures After([], more) == more
  {
    if more.Some? {
      assert [] + more.value == more.value;
    }
  }

  /** The next element cannot be read. */
  lemma VecStuck(width: Option<nat>, n: nat, data: seq<Byte>, offset: nat, head: Option<Varint>)
    requires offset <= |data| && n > 0
    requires head == if width.Some? then Some(Varint(width.value, 0)) else DecodeVarint(data[offset..])
    requires head.None? || |data| < offset + head.value.consumed + head.value.len
    ensures ParseVec(width, n, data[offset..]) == None
  {
  }

  lemma VecUnfold(width: Option<nat>, n: nat, rest: nat, s: seq<Byte>, head: Varint, a: nat, b: nat)
    requires n == rest + 1 && a == head.consumed && b == a + head.len <= |s|
    requires Some(head) == if width.Some? then Some(Varint(width.value, 0)) else DecodeVarint(s)
    ensures ParseVec(width, n, s) == After([s[a..b]], ParseVec(width, rest, s[b..]))
  {
  }

  lemma SliceOfSuffix(data: seq<Byte>, offset: nat, s: seq<Byte>, a: nat, b: nat, start: nat, end: nat)
    requires offset <= |data| && s == data[offset..] && start == offset + a && end == offset + b
    requires a <= b <= |s|
    ensures s[a..b] == data[start..end] && s[b..] == data[end..]
  {
    assert forall k :: 0 <= k < b - a ==> s[a..b][k] == data[start..end][k];
    assert forall k :: 0 <= k < |s| - b ==> s[b..][k] == data[end..][k];
  }

  lemma VecStep(width: Option<nat>, n: nat, rest: nat, data: seq<Byte>, offset: nat, head: Varint, start: nat, end: nat)
    requires offset <= |data| && n == rest + 1 && start == offset + head.consumed && end == start + head.len <= |data|
    requires Some(head) == if width.Some? then Some(Varint(width.value, 0)) else DecodeVarint(data[offset..])
    ensures ParseVec(width, n, data[offset..]) == After([data[start..end]], ParseVec(width, rest, data[end..]))
  {
    var s, a, b := data[offset..], head.consumed, head.consumed + head.len;
    VecUnfold(width, n, rest, s, head, a, b);
    SliceOfSuffix(data, offset, s, a, b, start, end);
  }

  /** The next element reaches from `start` to `end`. */
  lemma VecNext(width: Option<nat>, n: nat, rest: nat, done: seq<seq<Byte>>, data: seq<Byte>, offset: nat, head: Varint,
                start: nat, end: nat)
    requires offset <= |data| && n == rest + 1 && start == offset + head.consumed && end == start + head.len <= |data|
    requires Some(head) == if width.Some? then Some(Varint(width.value, 0)) else DecodeVarint(data[offset..])
    ensures After(done, ParseVec(width, n, data[offset..])) ==
              After(done + [data[start..end]], ParseVec(width, rest, data[end..]))
  {
    VecStep(width, n, rest, data, offset, head, start, end);
    AfterNext(done, data[start..end], ParseVec(width, rest, data[end..]));
  }

  lemma VecDone(width: Option<nat>, result: seq<seq<Byte>>, data: seq<Byte>, offset: nat)
    requires offset <= |data|
    ensures After(result, ParseVec(width, 0, data[offset..])) == if offset == |data| then Some(result) else None
  {
    assert result + [] == result && (data[offset..] == [] <==> offset == |data|);
  }

  /** The loop of `Vec::from_bytes`, which must end at the end of the data. */
  method ReadVec(width: Option<nat>, n: nat, data: seq<Byte>, from: nat) returns (r: Option<seq<seq<Byte>>>)
    requires from <= |data|
    ensures r == ParseVec(width, n, data[from..])
  {
    var result: seq<seq<Byte>>, offset: nat := [], from;
    ghost var whole := ParseVec(width, n, data[from..]);
    AfterNothing(whole);
    var left: nat := n;
    while left > 0
      invariant left <= n && offset <= |data|
      invariant After(result, ParseVec(width, left, data[offset..])) == whole
    {
      var head := if width.Some? then Some(Varint(width.value, 0)) else DecodeVarint(data[offset..]);
      if head.None? || |data| < offset + head.value.consumed + head.value.len {
        VecStuck(width, left, data, offset, head);
        return None;
      }
      var start := offset + head.value.consumed;
      var end, rest: nat := start + head.value.len, left - 1;
      VecNext(width, left, rest, result, data, offset, head.value, start, end);
      result, offset, left := result + [data[start..end]], end, rest;
    }
    VecDone(width, result, data, offset);
    return if offset == |data| then Some(result) else None;
  }
}
