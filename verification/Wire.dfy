/** Fixed-width integers as the little-endian bytes that `memcpy` moves. */
module Wire {
  import opened Values

  type Bytes = seq<Byte>

  function Little(n: nat, width: nat): (b: Bytes)
    ensures |b| == width
    decreases width
  {
    if width == 0 then [] else [n % 256] + Little(n / 256, width - 1)
  }

  function Number(b: Bytes): nat {
    if b == [] then 0 else b[0] + 256 * Number(b[1..])
  }

  predicate Fits(n: nat, width: nat)
    decreases width
  {
    if width == 0 then n == 0 else Fits(n / 256, width - 1)
  }

  lemma {:induction false} NumberLittle(n: nat, width: nat)
    requires Fits(n, width)
    ensures Number(Little(n, width)) == n
    decreases width
  {
    if width > 0 {
      NumberLittle(n / 256, width - 1);
      assert Little(n, width)[1..] == Little(n / 256, width - 1);
    }
  }

  lemma {:induction false} NumberFits(b: Bytes)
    ensures Fits(Number(b), |b|) && Little(Number(b), |b|) == b
  {
    if b != [] {
      NumberFits(b[1..]);
    }
  }

  /** The lowest byte comes first. */
  lemma LowestFirst(b: Byte, n: nat, width: nat, rest: Bytes)
    ensures Little(b + 256 * n, width + 1) == [b] + Little(n, width)
    ensures Number([b] + rest) == b + 256 * Number(rest)
  {
    assert (b + 256 * n) % 256 == b && (b + 256 * n) / 256 == n;
    assert ([b] + rest)[1..] == rest;
  }

  /** A number that fits in fewer bytes is padded with zeros. */
  lemma {:induction false} LittlePadded(n: nat, width: nat, more: nat)
    requires Fits(n, width)
    ensures Little(n, width + more) == Little(n, width) + Little(0, more)
    decreases width
  {
    if width > 0 {
      LittlePadded(n / 256, width - 1, more);
      assert [n % 256] + (Little(n / 256, width - 1) + Little(0, more))
          == ([n % 256] + Little(n / 256, width - 1)) + Little(0, more);
    }
  }

  const TWO32: nat := 0x1_0000_0000
  const TWO64: nat := 0x1_0000_0000_0000_0000

  /** The unsigned pattern of a C integer with `modulus` values. */
  function Pattern(i: int, modulus: nat): nat
    requires modulus > 0
  {
    i % modulus
  }

  /** Two's complement reading of a pattern. */
  function Signed(u: nat, modulus: nat): int {
    if u >= modulus / 2 then u - modulus else u
  }

  predicate IsInt32(i: int) {
    -0x8000_0000 <= i < 0x8000_0000
  }

  predicate IsInt64(i: int) {
    -0x8000_0000_0000_0000 <= i < 0x8000_0000_0000_0000
  }

  /** Conversion of a wider integer to `int32_t`. */
  function Wrap32(i: int): (r: int)
    ensures IsInt32(r) && (IsInt32(i) ==> r == i)
  {
    Signed(Pattern(i, TWO32), TWO32)
  }

  function Int32(i: int): (b: Bytes)
    ensures |b| == 4
  {
    Little(Pattern(i, TWO32), 4)
  }

  function Int64(i: int): (b: Bytes)
    ensures |b| == 8
  {
    Little(Pattern(i, TWO64), 8)
  }

  function Word64(n: nat): (b: Bytes)
    ensures |b| == 8
  {
    Little(n, 8)
  }

  function ReadInt32(b: Bytes, r: nat): (i: int)
    requires r + 4 <= |b|
    ensures IsInt32(i)
  {
    Fits32(b[r..r + 4]);
    Signed(Number(b[r..r + 4]), TWO32)
  }

  function ReadInt64(b: Bytes, r: nat): (i: int)
    requires r + 8 <= |b|
    ensures IsInt64(i)
  {
    Fits64(b[r..r + 8]);
    Signed(Number(b[r..r + 8]), TWO64)
  }

  function ReadWord64(b: Bytes, r: nat): (n: nat)
    requires r + 8 <= |b|
    ensures n < TWO64
  {
    Fits64(b[r..r + 8]);
    Number(b[r..r + 8])
  }

  lemma Fits32(b: Bytes)
    requires |b| == 4
    ensures Number(b) < TWO32
  {
    NumberFits(b);
    var n := Number(b);
    assert n / 256 / 256 / 256 / 256 == 0;
  }

  lemma Fits64(b: Bytes)
    requires |b| == 8
    ensures Number(b) < TWO64
  {
    NumberFits(b);
    var n := Number(b);
    FitsStep4(n, 8);
    FitsStep4(n / 256 / 256 / 256 / 256, 4);
  }

  lemma FitsStep4(n: nat, width: nat)
    requires width >= 4
    ensures Fits(n, width) == Fits(n / 256 / 256 / 256 / 256, width - 4)
  {
    assert Fits(n, width) == Fits(n / 256, width - 1) == Fits(n / 256 / 256, width - 2);
    assert Fits(n / 256 / 256, width - 2) == Fits(n / 256 / 256 / 256, width - 3);
  }

  lemma Bounded32(n: nat)
    requires n < TWO32
    ensures Fits(n, 4)
  {
    FitsStep4(n, 4);
  }

  lemma Bounded64(n: nat)
    requires n < TWO64
    ensures Fits(n, 8)
  {
    FitsStep4(n, 8);
    FitsStep4(n / 256 / 256 / 256 / 256, 4);
  }

  /** Reading back an `int32_t` gives the integer, truncated as the cast truncates it. */
  lemma ReadInt32Back(b: Bytes, r: nat, i: int)
    requires r + 4 <= |b| && b[r..r + 4] == Int32(i)
    ensures ReadInt32(b, r) == Wrap32(i)
  {
    Bounded32(Pattern(i, TWO32));
    NumberLittle(Pattern(i, TWO32), 4);
  }

  lemma ReadInt64Back(b: Bytes, r: nat, i: int)
    requires r + 8 <= |b| && b[r..r + 8] == Int64(i) && IsInt64(i)
    ensures ReadInt64(b, r) == i
  {
    Bounded64(Pattern(i, TWO64));
    NumberLittle(Pattern(i, TWO64), 8);
  }

  lemma ReadWord64Back(b: Bytes, r: nat, n: nat)
    requires r + 8 <= |b| && b[r..r + 8] == Word64(n) && n < TWO64
    ensures ReadWord64(b, r) == n
  {
    Bounded64(n);
    NumberLittle(n, 8);
  }

  /** A C string held in a buffer: the bytes before the first NUL. */
  function CString(b: Bytes): (s: Name)
    ensures |s| <= |b| && s <= b && 0 !in s && (|s| < |b| ==> b[|s|] == 0)
  {
    if b == [] || b[0] == 0 then []
    else
      var t := CString(b[1..]);
      [b[0]] + t
  }

  lemma {:induction false} CStringOf(s: Name, rest: Bytes)
    requires 0 !in s && (rest != [] ==> rest[0] == 0)
    ensures CString(s + rest) == s
  {
    if s == [] {
      assert s + rest == rest;
    } else {
      assert (s + rest)[1..] == s[1..] + rest;
      CStringOf(s[1..], rest);
    }
  }
}
