/** 32-bit words as bit vectors for hashing, and as little-endian bytes for storing. */
module BitWords {
  import opened Values
  import opened Wire

  function Nibble(n: int): bv32
    requires 0 <= n < 16
  {
    (n as bv4) as bv32
  }

  function ToNibble(x: bv32): (n: int)
    ensures 0 <= n < 16
  {
    ((x & 0xF) as bv4) as int
  }

  function OfByte(b: Byte): bv32 {
    (Nibble(b / 16) << 4) | Nibble(b % 16)
  }

  function ToByte(x: bv32): Byte {
    16 * ToNibble(x >> 4) + ToNibble(x)
  }

  function Word(b: Bytes): bv32
    requires |b| == 4
  {
    Joined(OfByte(b[0]), OfByte(b[1]), OfByte(b[2]), OfByte(b[3]))
  }

  function Joined(a: bv32, b: bv32, c: bv32, d: bv32): bv32 {
    a | (b << 8) | (c << 16) | (d << 24)
  }

  predicate OneByte(x: bv32) {
    x & 0xFFFF_FF00 == 0
  }

  function WordBytes(x: bv32): (b: Bytes)
    ensures |b| == 4
  {
    [ToByte(x), ToByte(x >> 8), ToByte(x >> 16), ToByte(x >> 24)]
  }

  /** The number a word stands for. */
  function Unsigned(x: bv32): (n: nat)
    ensures n < TWO32
  {
    Fits32(WordBytes(x));
    Number(WordBytes(x))
  }

  lemma NibbleBounded(n: int)
    requires 0 <= n < 16
    ensures Nibble(n) & 0xFFFF_FFF0 == 0
  {
  }

  lemma NibbleInjective(x: int, y: int)
    requires 0 <= x < 16 && 0 <= y < 16 && Nibble(x) == Nibble(y)
    ensures x == y
  {
    assert x as bv4 == y as bv4;
  }

  lemma NibbleBack(x: bv32)
    ensures Nibble(ToNibble(x)) == x & 0xF
  {
  }

  /** Two nibbles side by side. */
  lemma Halves(a: bv32, b: bv32, c: bv32, d: bv32)
    requires a & 0xFFFF_FFF0 == 0 && b & 0xFFFF_FFF0 == 0 && c & 0xFFFF_FFF0 == 0 && d & 0xFFFF_FFF0 == 0
    requires (a << 4) | b == (c << 4) | d
    ensures a == c && b == d
  {
  }

  lemma ByteInjective(x: Byte, y: Byte)
    requires OfByte(x) == OfByte(y)
    ensures x == y
  {
    hide Nibble;
    NibbleBounded(x / 16);
    NibbleBounded(x % 16);
    NibbleBounded(y / 16);
    NibbleBounded(y % 16);
    Halves(Nibble(x / 16), Nibble(x % 16), Nibble(y / 16), Nibble(y % 16));
    NibbleInjective(x / 16, y / 16);
    NibbleInjective(x % 16, y % 16);
  }

  lemma ByteBounded(b: Byte)
    ensures OneByte(OfByte(b))
  {
    hide Nibble;
    NibbleBounded(b / 16);
    NibbleBounded(b % 16);
    NibblesBounded(Nibble(b / 16), Nibble(b % 16));
  }

  lemma NibblesBounded(a: bv32, b: bv32)
    requires a & 0xFFFF_FFF0 == 0 && b & 0xFFFF_FFF0 == 0
    ensures OneByte((a << 4) | b)
  {
  }

  lemma ByteBack(x: bv32)
    ensures OfByte(ToByte(x)) == x & 0xFF
  {
    hide Nibble, ToNibble;
    var h, l := ToNibble(x >> 4), ToNibble(x);
    assert (16 * h + l) / 16 == h && (16 * h + l) % 16 == l;
    NibbleBack(x >> 4);
    NibbleBack(x);
    assert (((x >> 4) & 0xF) << 4) | (x & 0xF) == x & 0xFF;
  }

  lemma Quarters(a: bv32, b: bv32, c: bv32, d: bv32, a': bv32, b': bv32, c': bv32, d': bv32)
    requires OneByte(a) && OneByte(b) && OneByte(c) && OneByte(d)
    requires OneByte(a') && OneByte(b') && OneByte(c') && OneByte(d')
    requires Joined(a, b, c, d) == Joined(a', b', c', d')
    ensures a == a' && b == b' && c == c' && d == d'
  {
  }

  lemma WordInjective(x: Bytes, y: Bytes)
    requires |x| == |y| == 4 && Word(x) == Word(y)
    ensures x == y
  {
    hide OfByte, Joined, OneByte;
    forall i | 0 <= i < 4 ensures OneByte(OfByte(x[i])) && OneByte(OfByte(y[i])) {
      ByteBounded(x[i]);
      ByteBounded(y[i]);
    }
    Quarters(OfByte(x[0]), OfByte(x[1]), OfByte(x[2]), OfByte(x[3]),
             OfByte(y[0]), OfByte(y[1]), OfByte(y[2]), OfByte(y[3]));
    ByteInjective(x[0], y[0]);
    ByteInjective(x[1], y[1]);
    ByteInjective(x[2], y[2]);
    ByteInjective(x[3], y[3]);
  }

  /** A word is its bytes. */
  lemma WordBack(x: bv32)
    ensures Word(WordBytes(x)) == x
  {
    hide OfByte, ToByte, Joined;
    ByteBack(x);
    ByteBack(x >> 8);
    ByteBack(x >> 16);
    ByteBack(x >> 24);
    Reassembled(x);
  }

  lemma Reassembled(x: bv32)
    ensures Joined(x & 0xFF, (x >> 8) & 0xFF, (x >> 16) & 0xFF, (x >> 24) & 0xFF) == x
  {
  }

  /** Different words are different numbers. */
  lemma UnsignedInjective(x: bv32, y: bv32)
    requires Unsigned(x) == Unsigned(y)
    ensures x == y
  {
    hide Word, WordBytes;
    NumberFits(WordBytes(x));
    NumberFits(WordBytes(y));
    WordBack(x);
    WordBack(y);
  }

  /** The number of a word read from four bytes is the number those bytes stand for. */
  lemma UnsignedWord(b: Bytes)
    requires |b| == 4
    ensures Unsigned(Word(b)) == Number(b)
  {
    hide Word, WordBytes;
    WordBack(Word(b));
    WordInjective(WordBytes(Word(b)), b);
  }
}
