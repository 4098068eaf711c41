/**
 The codec as it runs: a writer that moves a cursor through a buffer of the
 precomputed size, and a reader that moves a cursor through the snapshot.
 */
module ValueIo {
  import opened Values
  import opened Wire
  import opened ValueCodec

  /** The buffer with `piece` written at `w`. */
  function Splice(b: Bytes, w: nat, piece: Bytes): (r: Bytes)
    requires w + |piece| <= |b|
    ensures |r| == |b| && Holds(r, w, piece)
  {
    var r := b[..w] + piece + b[w + |piece|..];
    assert r[w..w + |piece|] == piece;
    r
  }

  lemma SpliceSplit(b: Bytes, w: nat, x: Bytes, y: Bytes)
    requires w + |x| + |y| <= |b|
    ensures Splice(b, w, x + y) == Splice(Splice(b, w, x), w + |x|, y)
  {
    var s := Splice(b, w, x);
    assert s[..w + |x|] == b[..w] + x;
    assert s[w + |x| + |y|..] == b[w + |x| + |y|..];
  }

  lemma SpliceNothing(b: Bytes, w: nat)
    requires w <= |b|
    ensures Splice(b, w, []) == b
  {
  }

  method Copy(buf: array<Byte>, w: nat, piece: Bytes) returns (w': nat)
    requires w + |piece| <= buf.Length
    modifies buf
    ensures w' == w + |piece| && buf[..] == Splice(old(buf[..]), w, piece)
  {
    for i := 0 to |piece|
      invariant forall j | 0 <= j < i :: buf[w + j] == piece[j]
      invariant forall j | 0 <= j < buf.Length && !(w <= j < w + i) :: buf[j] == old(buf[j])
    {
      buf[w + i] := piece[i];
    }
    w' := w + |piece|;
  }

  /** Writes one value block; the caller has reserved `WireSize(v)` bytes for it. */
  method SerValue(buf: array<Byte>, w: nat, v: Value) returns (w': nat)
    requires w + WireSize(v) <= buf.Length
    modifies buf
    ensures w' == w + |Encode(v)| <= w + WireSize(v)
    ensures buf[..] == Splice(old(buf[..]), w, Encode(v))
    decreases v, 1
  {
    hide Encode, EncodeElems, WireSize, Splice, Int64, Word64, Int32, StrPart;
    SizeIsExact(v);
    WireSizeParts(v);
    ghost var was := buf[..];
    w' := SerHeader(buf, w, v);
    EncodeSplit(v);
    assert buf[..] == Splice(was, w, Header(v));
    SpliceSplit(was, w, Header(v), EncodeElems(v, 0));
    ElemsSizeIsExact(v, 0);
    var es := Elems(v);
    var i := 0;
    while i < |es|
      invariant i <= |es| && w' + ElemsSize(v, i) <= buf.Length
      invariant w' + |EncodeElems(v, i)| == w + |Encode(v)| <= buf.Length
      invariant Splice(buf[..], w', EncodeElems(v, i)) == Splice(was, w, Encode(v))
    {
      assert es[i] in es;
      ElemsStep(v, i);
      ghost var now, rest := buf[..], EncodeElems(v, i + 1);
      SpliceSplit(now, w', Int32(Tag(es[i])), Encode(es[i]) + rest);
      w' := Copy(buf, w', Int32(Tag(es[i])));
      SpliceSplit(buf[..], w', Encode(es[i]), rest);
      SizeIsExact(es[i]);
      w' := SerValue(buf, w', es[i]);
      i := i + 1;
    }
    EncodeElemsEnd(v);
    SpliceNothing(buf[..], w');
  }

  function Header(v: Value): Bytes {
    Int64(IntPart(v)) + Word64(FloatPart(v)) + Int32(BoolPart(v)) + Int32(StrLen(v)) + StrPart(v) + Int32(|Elems(v)|)
  }

  lemma EncodeSplit(v: Value)
    ensures Encode(v) == Header(v) + EncodeElems(v, 0)
  {
    hide Int64, Word64, Int32, EncodeElems;
  }

  lemma WireSizeParts(v: Value)
    ensures WireSize(v) == 28 + (if v.Str? then |v.s| else 0) + ElemsSize(v, 0)
    ensures |Header(v)| == 28 + |StrPart(v)| && (v.Str? ==> |StrPart(v)| <= |v.s|) && (!v.Str? ==> StrPart(v) == [])
  {
    hide Int64, Word64, Int32, EncodeElems;
  }

  lemma ElemsStep(v: Value, i: nat)
    requires i < |Elems(v)|
    ensures var e := Elems(v)[i];
            EncodeElems(v, i) == Int32(Tag(e)) + (Encode(e) + EncodeElems(v, i + 1)) &&
            ElemsSize(v, i) == 4 + WireSize(e) + ElemsSize(v, i + 1)
    ensures |EncodeElems(v, i + 1)| <= ElemsSize(v, i + 1)
  {
    hide Int32, Encode, WireSize;
    ElemsSizeIsExact(v, i + 1);
  }

  lemma EncodeElemsEnd(v: Value)
    ensures EncodeElems(v, |Elems(v)|) == []
  {
  }

  method SerHeader(buf: array<Byte>, w: nat, v: Value) returns (w': nat)
    requires w + |Header(v)| <= buf.Length
    modifies buf
    ensures w' == w + |Header(v)| && buf[..] == Splice(old(buf[..]), w, Header(v))
  {
    hide Splice, Int64, Word64, Int32, StrPart;
    var f1, f2, f3, f4 := Int64(IntPart(v)), Word64(FloatPart(v)), Int32(BoolPart(v)), Int32(StrLen(v));
    var s, f6 := StrPart(v), Int32(|Elems(v)|);
    ghost var was := buf[..];
    w' := Copy(buf, w, f1);
    SpliceSplit(was, w, f1, f2);
    w' := Copy(buf, w', f2);
    SpliceSplit(was, w, f1 + f2, f3);
    w' := Copy(buf, w', f3);
    SpliceSplit(was, w, f1 + f2 + f3, f4);
    w' := Copy(buf, w', f4);
    SpliceSplit(was, w, f1 + f2 + f3 + f4, s);
    w' := Copy(buf, w', s);
    SpliceSplit(was, w, f1 + f2 + f3 + f4 + s, f6);
    w' := Copy(buf, w', f6);
  }

  // ----- reading -----

  function Prepend(vs: seq<Value>, p: ParsedElems): ParsedElems {
    if p.MalformedElems? then p else ParsedElems(vs + p.vs, p.next)
  }

  /** Reads one value block as type `dt`; every access is in bounds whatever the bytes are. */
  method DeserValue(b: Bytes, r: nat, dt: int) returns (p: Parsed)
    ensures p == Parse(b, r, dt)
    decreases |b| - r, 0
  {
    hide ReadInt32, ReadInt64, ReadWord64, ParseElems;
    if r + FIXED > |b| { return Malformed; }
    var sl := ReadInt32(b, r + 20);
    if sl < 0 || r + FIXED + sl > |b| { return Malformed; }
    var out := Scalar(b, r, sl, dt);
    var cur := r + FIXED + sl;
    if cur + 4 > |b| { return Parsed(out, cur); }
    var n := ReadInt32(b, cur);
    if n < 0 || n > MAX_ELEMS { return Malformed; }
    var ps := DeserElems(b, cur + 4, n);
    if ps.MalformedElems? { return Malformed; }
    if n > 0 && dt == 7 {
      p := Parsed(Arr(ps.vs), ps.next);
    } else {
      p := Parsed(out, ps.next);
    }
  }

  method DeserElems(b: Bytes, r: nat, n: nat) returns (ps: ParsedElems)
    requires r <= |b|
    ensures ps == ParseElems(b, r, n)
    decreases |b| - r, n
  {
    hide Parse, ReadInt32;
    var data, cur, i := [], r, 0;
    while i < n
      invariant i <= n && r <= cur <= |b| && (i > 0 ==> r < cur)
      invariant ParseElems(b, r, n) == Prepend(data, ParseElems(b, cur, n - i))
    {
      if cur + 4 > |b| { return MalformedElems; }
      var p := DeserValue(b, cur + 4, ReadInt32(b, cur));
      if p.Malformed? { return MalformedElems; }
      ghost var rest := ParseElems(b, p.next, n - i - 1);
      assert rest.ParsedElems? ==> data + ([p.v] + rest.vs) == (data + [p.v]) + rest.vs;
      data, cur, i := data + [p.v], p.next, i + 1;
    }
    assert data + [] == data;
    ps := ParsedElems(data, cur);
  }
}
