/**
 One value of the snapshot format.  Every value block has the same fixed part
 whatever its type; only strings and arrays add bytes, and arrays nest.
 */
module ValueCodec {
  import opened Values
  import opened Wire

  const MAX_ELEMS := 65536
  const FIXED: nat := 24

  /** Values as the C types can hold them. */
  predicate Storable(v: Value) {
    match v
    case Int(i) => IsInt64(i)
    case Float(bits) => bits < TWO64
    case Bool(b) => IsInt32(b)
    case Str(s) => 0 !in s
    case Arr(es) => |es| < 0x8000_0000 && forall i | 0 <= i < |es| :: Storable(es[i])
    case _ => true
  }

  // ----- the serializer -----

  function IntPart(v: Value): int {
    if v.Int? then v.i else 0
  }

  function FloatPart(v: Value): nat {
    if v.Float? then v.bits else 0
  }

  function BoolPart(v: Value): int {
    if v.Bool? then v.b else 0
  }

  /** The string bytes written: the length goes through an `int32_t`. */
  function StrPart(v: Value): Name {
    if v.Str? && 0 < Wrap32(|v.s|) <= |v.s| then v.s[..Wrap32(|v.s|)] else []
  }

  function StrLen(v: Value): int {
    if v.Str? then Wrap32(|v.s|) else 0
  }

  function Elems(v: Value): (es: seq<Value>)
    ensures forall e | e in es :: e < v
  {
    if v.Arr? then v.elems else []
  }

  function Encode(v: Value): Bytes
    decreases v, 1
  {
    Int64(IntPart(v)) + Word64(FloatPart(v)) + Int32(BoolPart(v)) + Int32(StrLen(v))
    + StrPart(v) + Int32(|Elems(v)|) + EncodeElems(v, 0)
  }

  function EncodeElems(v: Value, i: nat): Bytes
    requires i <= |Elems(v)|
    decreases v, 0, |Elems(v)| - i
  {
    if i == |Elems(v)| then []
    else
      assert Elems(v)[i] in Elems(v);
      Int32(Tag(Elems(v)[i])) + Encode(Elems(v)[i]) + EncodeElems(v, i + 1)
  }

  function WireSize(v: Value): nat
    decreases v, 1
  {
    28 + (if v.Str? then |v.s| else 0) + ElemsSize(v, 0)
  }

  function ElemsSize(v: Value, i: nat): nat
    requires i <= |Elems(v)|
    decreases v, 0, |Elems(v)| - i
  {
    if i == |Elems(v)| then 0
    else
      assert Elems(v)[i] in Elems(v);
      4 + WireSize(Elems(v)[i]) + ElemsSize(v, i + 1)
  }

  /** No string is longer than an `int32_t` can say. */
  predicate ShortStrings(v: Value) {
    match v
    case Str(s) => |s| < 0x8000_0000
    case Arr(es) => forall i | 0 <= i < |es| :: ShortStrings(es[i])
    case _ => true
  }

  /** The precomputed size is enough, and it is exact unless a string is too long. */
  lemma {:induction false} SizeIsExact(v: Value)
    ensures |Encode(v)| <= WireSize(v)
    ensures |Encode(v)| == WireSize(v) <==> ShortStrings(v)
    decreases v, 1
  {
    hide EncodeElems, ElemsSize, Int64, Int32, Word64;
    ElemsSizeIsExact(v, 0);
    assert ShortStrings(v) <==>
      (v.Str? ==> |v.s| < 0x8000_0000) && forall j | 0 <= j < |Elems(v)| :: ShortStrings(Elems(v)[j]);
  }

  lemma {:induction false} ElemsSizeIsExact(v: Value, i: nat)
    requires i <= |Elems(v)|
    ensures |EncodeElems(v, i)| <= ElemsSize(v, i)
    ensures |EncodeElems(v, i)| == ElemsSize(v, i) <==> forall j | i <= j < |Elems(v)| :: ShortStrings(Elems(v)[j])
    decreases v, 0, |Elems(v)| - i
  {
    hide Encode, WireSize, ShortStrings, Int32, Tag;
    if i < |Elems(v)| {
      assert Elems(v)[i] in Elems(v);
      SizeIsExact(Elems(v)[i]);
      ElemsSizeIsExact(v, i + 1);
    }
  }

  // ----- the deserializer -----

  datatype Parsed = Parsed(v: Value, next: nat) | Malformed

  datatype ParsedElems = ParsedElems(vs: seq<Value>, next: nat) | MalformedElems

  /** What the fixed part and the string bytes say under type `dt`; arrays start out nil. */
  function Scalar(b: Bytes, r: nat, sl: nat, dt: int): Value
    requires r + FIXED + sl <= |b|
  {
    match dt
    case 1 => Int(ReadInt64(b, r))
    case 2 => Float(ReadWord64(b, r + 8))
    case 3 => Bool(ReadInt32(b, r + 16))
    case 4 => Str(CString(b[r + FIXED..r + FIXED + sl]))
    case _ => Nil
  }

  function Parse(b: Bytes, r: nat, dt: int): (p: Parsed)
    ensures p.Parsed? ==> r + FIXED <= p.next <= |b|
    decreases |b| - r, 0
  {
    if r + FIXED > |b| then Malformed
    else
      var sl := ReadInt32(b, r + 20);
      if sl < 0 || r + FIXED + sl > |b| then Malformed
      else
        var s, r1 := Scalar(b, r, sl, dt), r + FIXED + sl;
        if r1 + 4 > |b| then Parsed(s, r1)
        else
          var n := ReadInt32(b, r1);
          if n < 0 || n > MAX_ELEMS then Malformed
          else
            match ParseElems(b, r1 + 4, n)
            case MalformedElems => Malformed
            case ParsedElems(vs, r2) => Parsed(if dt == 7 && n > 0 then Arr(vs) else s, r2)
  }

  /** `n` tagged values in a row. */
  function ParseElems(b: Bytes, r: nat, n: nat): (p: ParsedElems)
    requires r <= |b|
    ensures p.ParsedElems? ==> |p.vs| == n && r <= p.next <= |b|
    decreases |b| - r, n
  {
    if n == 0 then ParsedElems([], r)
    else if r + 4 > |b| then MalformedElems
    else
      match Parse(b, r + 4, ReadInt32(b, r))
      case Malformed => MalformedElems
      case Parsed(v, r1) =>
        match ParseElems(b, r1, n - 1)
        case MalformedElems => MalformedElems
        case ParsedElems(vs, r2) => ParsedElems([v] + vs, r2)
  }

  /** Lengths and counts that are negative, too large or not backed by bytes are refused, under every type. */
  lemma BadLengthsRefused(b: Bytes, r: nat, dt: int)
    ensures r + 24 > |b| ==> Parse(b, r, dt).Malformed?
    ensures r + 24 <= |b| && (ReadInt32(b, r + 20) < 0 || r + 24 + ReadInt32(b, r + 20) > |b|) ==>
              Parse(b, r, dt).Malformed?
    ensures r + 24 <= |b| && ReadInt32(b, r + 20) >= 0 && r + 28 + ReadInt32(b, r + 20) <= |b| &&
            (ReadInt32(b, r + 24 + ReadInt32(b, r + 20)) < 0 || ReadInt32(b, r + 24 + ReadInt32(b, r + 20)) > 65536) ==>
              Parse(b, r, dt).Malformed?
  {
    hide ReadInt32, Scalar, ParseElems;
  }

  // ----- round trip -----

  /** What is left of a value that is written and then read as type `dt`. */
  function Coerce(dt: int, v: Value): Value
    decreases v
  {
    match dt
    case 1 => Int(IntPart(v))
    case 2 => Float(FloatPart(v))
    case 3 => Bool(BoolPart(v))
    case 4 => Str(if v.Str? then v.s else [])
    case 7 => if Elems(v) == [] then Nil else Arr(CoerceElems(v, 0))
    case _ => Nil
  }

  function CoerceElems(v: Value, i: nat): (vs: seq<Value>)
    requires i <= |Elems(v)|
    ensures |vs| == |Elems(v)| - i
    decreases v, 0, |Elems(v)| - i
  {
    if i == |Elems(v)| then []
    else
      assert Elems(v)[i] in Elems(v);
      [Coerce(Tag(Elems(v)[i]), Elems(v)[i])] + CoerceElems(v, i + 1)
  }

  /** Every array, at every depth, is within the deserializer's limit. */
  predicate SmallArrays(v: Value) {
    match v
    case Arr(es) => |es| <= MAX_ELEMS && forall i | 0 <= i < |es| :: SmallArrays(es[i])
    case _ => true
  }

  /** `piece` lies in the buffer at `r`. */
  predicate Holds(b: Bytes, r: nat, piece: Bytes) {
    r + |piece| <= |b| && b[r..r + |piece|] == piece
  }

  lemma HoldsSplit(b: Bytes, r: nat, x: Bytes, y: Bytes)
    requires Holds(b, r, x + y)
    ensures Holds(b, r, x) && Holds(b, r + |x|, y)
  {
    assert b[r..r + |x|] == (x + y)[..|x|] == x;
    assert b[r + |x|..r + |x| + |y|] == (x + y)[|x|..] == y;
  }

  /** The fields of a value block, read back where they were written. */
  lemma FieldsBack(b: Bytes, r: nat, v: Value, dt: int)
    requires Storable(v) && ShortStrings(v) && Holds(b, r, Encode(v))
    ensures r + FIXED + |StrPart(v)| + 4 <= |b| && ReadInt32(b, r + 20) == |StrPart(v)|
    ensures Scalar(b, r, |StrPart(v)|, dt) == if dt == 7 then Nil else Coerce(dt, v)
    ensures ReadInt32(b, r + FIXED + |StrPart(v)|) == |Elems(v)|
    ensures Holds(b, r + FIXED + |StrPart(v)| + 4, EncodeElems(v, 0))
  {
    hide Encode, EncodeElems, Int64, Word64, Int32, ReadInt32, ReadInt64, ReadWord64, Storable, ShortStrings;
    var s := StrPart(v);
    PartsInRange(v);
    var f1, f2, f3, f4 := Int64(IntPart(v)), Word64(FloatPart(v)), Int32(BoolPart(v)), Int32(StrLen(v));
    var f6, f7 := Int32(|Elems(v)|), EncodeElems(v, 0);
    EncodeParts(v);
    HoldsSplit(b, r, f1, f2 + (f3 + (f4 + (s + (f6 + f7)))));
    HoldsSplit(b, r + 8, f2, f3 + (f4 + (s + (f6 + f7))));
    HoldsSplit(b, r + 16, f3, f4 + (s + (f6 + f7)));
    HoldsSplit(b, r + 20, f4, s + (f6 + f7));
    HoldsSplit(b, r + FIXED, s, f6 + f7);
    HoldsSplit(b, r + FIXED + |s|, f6, f7);
    ReadInt64Back(b, r, IntPart(v));
    ReadWord64Back(b, r + 8, FloatPart(v));
    ReadInt32Back(b, r + 16, BoolPart(v));
    ReadInt32Back(b, r + 20, StrLen(v));
    ReadInt32Back(b, r + FIXED + |s|, |Elems(v)|);
    CStringOf(s, []);
    assert s + [] == s;
  }

  lemma EncodeParts(v: Value)
    ensures Encode(v) == Int64(IntPart(v)) + (Word64(FloatPart(v)) + (Int32(BoolPart(v)) + (Int32(StrLen(v))
                       + (StrPart(v) + (Int32(|Elems(v)|) + EncodeElems(v, 0))))))
  {
    hide Int64, Word64, Int32, EncodeElems;
  }

  lemma PartsInRange(v: Value)
    requires Storable(v) && ShortStrings(v)
    ensures IsInt64(IntPart(v)) && FloatPart(v) < TWO64 && IsInt32(BoolPart(v)) && IsInt32(|Elems(v)|)
    ensures StrLen(v) == |StrPart(v)| && IsInt32(StrLen(v)) && 0 !in StrPart(v) && (v.Str? ==> StrPart(v) == v.s)
    ensures !v.Str? ==> StrPart(v) == []
  {
  }

  /**
   Writing any value and reading it back under any type: the result is the
   value coerced to that type, unless some array is too long to be accepted.
   */
  lemma {:induction false} ParseEncode(b: Bytes, r: nat, v: Value, dt: int)
    requires Storable(v) && ShortStrings(v) && Holds(b, r, Encode(v))
    ensures Parse(b, r, dt) == if SmallArrays(v) then Parsed(Coerce(dt, v), r + |Encode(v)|) else Malformed
    decreases v, 1
  {
    hide Encode, EncodeElems, ReadInt32, Scalar, Holds, ParseElems, SmallArrays, Coerce, CoerceElems, StrPart;
    FieldsBack(b, r, v, dt);
    EncodeParts(v);
    ElemsProper(v);
    var r1 := r + FIXED + |StrPart(v)| + 4;
    if |Elems(v)| <= MAX_ELEMS {
      ParseEncodeElems(b, r1, v, 0);
      CoerceShape(dt, v);
    }
  }

  lemma ElemsProper(v: Value)
    requires Storable(v) && ShortStrings(v)
    ensures forall j | 0 <= j < |Elems(v)| :: Storable(Elems(v)[j]) && ShortStrings(Elems(v)[j])
    ensures SmallArrays(v) <==> |Elems(v)| <= MAX_ELEMS && forall j | 0 <= j < |Elems(v)| :: SmallArrays(Elems(v)[j])
  {
  }

  lemma CoerceShape(dt: int, v: Value)
    ensures dt == 7 ==> Coerce(dt, v) == if |Elems(v)| == 0 then Nil else Arr(CoerceElems(v, 0))
  {
  }

  lemma {:induction false} ParseEncodeElems(b: Bytes, r: nat, v: Value, i: nat)
    requires i <= |Elems(v)| && Holds(b, r, EncodeElems(v, i)) && r <= |b|
    requires forall j | 0 <= j < |Elems(v)| :: Storable(Elems(v)[j]) && ShortStrings(Elems(v)[j])
    ensures ParseElems(b, r, |Elems(v)| - i) ==
      if forall j | i <= j < |Elems(v)| :: SmallArrays(Elems(v)[j])
      then ParsedElems(CoerceElems(v, i), r + |EncodeElems(v, i)|) else MalformedElems
    decreases v, 0, |Elems(v)| - i
  {
    hide Encode, Parse, ReadInt32, Holds, Int32;
    if i < |Elems(v)| {
      var e := Elems(v)[i];
      assert e in Elems(v);
      var tag, rest := Int32(Tag(e)), EncodeElems(v, i + 1);
      assert EncodeElems(v, i) == tag + (Encode(e) + rest);
      HoldsSplit(b, r, tag, Encode(e) + rest);
      HoldsSplit(b, r + 4, Encode(e), rest);
      assert Holds(b, r, tag) && Holds(b, r + 4, Encode(e)) && Holds(b, r + 4 + |Encode(e)|, rest);
      TagBack(b, r, e);
      ParseEncode(b, r + 4, e, Tag(e));
      if SmallArrays(e) {
        HoldsFits(b, r + 4 + |Encode(e)|, rest);
        ParseEncodeElems(b, r + 4 + |Encode(e)|, v, i + 1);
      }
    }
  }

  lemma HoldsFits(b: Bytes, r: nat, piece: Bytes)
    requires Holds(b, r, piece)
    ensures r + |piece| <= |b|
  {
  }

  lemma TagBack(b: Bytes, r: nat, e: Value)
    requires Holds(b, r, Int32(Tag(e)))
    ensures r + 4 <= |b| && ReadInt32(b, r) == Tag(e)
  {
    ReadInt32Back(b, r, Tag(e));
  }

  // ----- what the round trip keeps -----

  /** Values the format carries as they are: no handles and no empty arrays, at any depth. */
  predicate Carried(v: Value) {
    match v
    case Handle(_, _) => false
    case Arr(es) => es != [] && forall i | 0 <= i < |es| :: Carried(es[i])
    case _ => true
  }

  /** A value comes back unchanged exactly when the format carries it; the rest turns nil. */
  lemma {:induction false} CoerceKeepsIff(v: Value)
    ensures Coerce(Tag(v), v) == v <==> Carried(v)
    decreases v, 1
  {
    if v.Arr? && v.elems != [] {
      CoerceElemsKeepIff(v, 0);
    }
  }

  lemma {:induction false} CoerceElemsKeepIff(v: Value, i: nat)
    requires v.Arr? && i <= |v.elems|
    ensures CoerceElems(v, i) == v.elems[i..] <==> forall j | i <= j < |v.elems| :: Carried(v.elems[j])
    decreases v, 0, |v.elems| - i
  {
    hide Carried, Coerce;
    if i < |v.elems| {
      var e := v.elems[i];
      assert e in Elems(v);
      CoerceKeepsIff(e);
      CoerceElemsKeepIff(v, i + 1);
      assert v.elems[i..] == [e] + v.elems[i + 1..];
      assert CoerceElems(v, i)[0] == Coerce(Tag(e), e) && CoerceElems(v, i)[1..] == CoerceElems(v, i + 1);
    }
  }

  /** Everything the deserializer can produce, from any bytes at all. */
  ghost predicate Normal(v: Value, dt: int) {
    Storable(v) && SmallArrays(v) && (Tag(v) == dt || v.Nil?) && Coerce(dt, v) == v
  }

  /** Whatever the bytes, a value that is accepted has its declared type or is nil, and re-reads as itself. */
  lemma {:induction false} ParsedIsNormal(b: Bytes, r: nat, dt: int)
    requires Parse(b, r, dt).Parsed?
    ensures Normal(Parse(b, r, dt).v, dt)
    decreases |b| - r, 0
  {
    hide ReadInt32, ReadInt64, ReadWord64, ParseElems;
    var sl := ReadInt32(b, r + 20);
    var r1 := r + FIXED + sl;
    if r1 + 4 <= |b| {
      var n := ReadInt32(b, r1);
      ParsedElemsAreNormal(b, r1 + 4, n);
      if dt == 7 && n > 0 {
        var p := ParseElems(b, r1 + 4, n);
        ArrIsNormal(p.vs);
      }
    }
  }

  lemma {:induction false} ParsedElemsAreNormal(b: Bytes, r: nat, n: nat)
    requires r <= |b| && ParseElems(b, r, n).ParsedElems?
    ensures forall v | v in ParseElems(b, r, n).vs :: Normal(v, Tag(v))
    decreases |b| - r, n
  {
    hide Parse, ReadInt32, Normal;
    if n > 0 {
      var dt := ReadInt32(b, r);
      ParsedIsNormal(b, r + 4, dt);
      var p := Parse(b, r + 4, dt);
      NormalIsOwnType(p.v, dt);
      ParsedElemsAreNormal(b, p.next, n - 1);
    }
  }

  lemma NormalIsOwnType(v: Value, dt: int)
    requires Normal(v, dt)
    ensures Normal(v, Tag(v))
  {
  }

  lemma {:induction false} ArrCoerced(vs: seq<Value>, i: nat)
    requires i <= |vs| && forall v | v in vs :: Normal(v, Tag(v))
    ensures CoerceElems(Arr(vs), i) == vs[i..]
    decreases |vs| - i
  {
    if i < |vs| {
      ArrCoerced(vs, i + 1);
      assert Normal(vs[i], Tag(vs[i]));
      assert vs[i..] == [vs[i]] + vs[i + 1..];
    }
  }

  lemma ArrIsNormal(vs: seq<Value>)
    requires 0 < |vs| <= MAX_ELEMS && forall v | v in vs :: Normal(v, Tag(v))
    ensures Normal(Arr(vs), 7)
  {
    ArrCoerced(vs, 0);
    forall i | 0 <= i < |vs| ensures Storable(vs[i]) && SmallArrays(vs[i]) {
      assert Normal(vs[i], Tag(vs[i]));
    }
  }
}
