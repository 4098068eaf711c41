/**
 The pool of persistent variables: lookup and update by name, its checksum, and
 the snapshot it is written to and restored from.
 */
module PrstPool {
  import opened Values
  import opened Wire
  import opened BitWords
  import opened ValueCodec

  /** `declared` is the type recorded at the first declaration, `init` the declared initializer. */
  datatype Entry = Entry(name: Name, value: Value, init: Value, declared: int, offset: int)

  type Pool = seq<Entry>

  const NAME_MAX: nat := 255
  const MAX_ENTRIES := 65536
  /** Name field, declared type and stack offset. */
  const ENTRY_FIXED: nat := 264

  ghost predicate Distinct(p: Pool) {
    forall i, j | 0 <= i < j < |p| :: p[i].name != p[j].name
  }

  predicate Proper(s: Name) {
    |s| <= NAME_MAX && 0 !in s
  }

  // ----- lookup and update -----

  /** Index of the first entry of that name from `i` on. */
  function FindFrom(p: Pool, name: Name, i: nat): (r: Option<nat>)
    requires i <= |p|
    ensures r.None? ==> forall j | i <= j < |p| :: p[j].name != name
    ensures r.Some? ==> i <= r.value < |p| && p[r.value].name == name
                        && forall j | i <= j < r.value :: p[j].name != name
    decreases |p| - i
  {
    if i == |p| then None else if p[i].name == name then Some(i) else FindFrom(p, name, i + 1)
  }

  function Find(p: Pool, name: Name): Option<nat> {
    FindFrom(p, name, 0)
  }

  function Truncate(name: Name): Name {
    if |name| <= NAME_MAX then name else name[..NAME_MAX]
  }

  /** `None` is a type collision: the pool keeps its state. */
  function Set(p: Pool, name: Name, v: Value): Option<(Pool, nat)> {
    match Find(p, name)
    case Some(i) => if p[i].declared != Tag(v) then None else Some((p[i := p[i].(value := v)], i))
    case None => Some((p + [Entry(Truncate(name), v, v, Tag(v), -1)], |p|))
  }

  /**
   A value is refused exactly when the name is known with another type.  Otherwise
   it is what the name stands for from then on, and no other entry changes.
   */
  lemma SetIs(p: Pool, name: Name, v: Value)
    requires Proper(name)
    ensures Set(p, name, v).None? <==> exists i: nat :: Find(p, name) == Some(i) && p[i].declared != Tag(v)
    ensures Set(p, name, v).Some? ==>
              var (p', i) := Set(p, name, v).value;
              && i < |p'| && Find(p', name) == Some(i) && p'[i].value == v && p'[i].declared == Tag(v)
              && |p'| == (if Find(p, name).Some? then |p| else |p| + 1)
              && (Find(p, name).None? ==> p'[i].init == v)
              && (forall j | 0 <= j < |p| && j != i :: p'[j] == p[j])
  {
    if Find(p, name).Some? {
      assert Find(p, name) == Some(Find(p, name).value);
    }
    if Set(p, name, v).Some? {
      var (p', i) := Set(p, name, v).value;
      assert forall j | 0 <= j < i :: p'[j].name != name;
      assert p'[i].name == name;
      assert Find(p', name) == Some(i);
    }
  }

  /** A name that does not fit its field is cut, so it is never found again and every store adds an entry. */
  lemma LongNameLost(p: Pool, name: Name, v: Value)
    requires |name| > 255 && forall j | 0 <= j < |p| :: |p[j].name| <= 255
    ensures Set(p, name, v).Some?
    ensures var p' := Set(p, name, v).value.0;
            |p'| == |p| + 1 && p'[|p|].name == name[..255] && Find(p', name).None?
  {
    var p' := Set(p, name, v).value.0;
    assert forall j | 0 <= j < |p'| :: |p'[j].name| <= 255;
  }

  // ----- checksum -----

  const FNV_BASIS: bv32 := 2166136261

  function Flip(h: bv32, x: bv32): bv32 {
    h ^ x
  }

  /** One step of the hash; the prime is odd, so the step loses nothing. */
  function Mix(h: bv32, x: bv32): bv32 {
    (h ^ x) * 16777619
  }

  function Byte32(b: int): bv32 {
    OfByte(b % 256)
  }

  function HashName(h: bv32, s: Name): bv32
    decreases |s|
  {
    if s == [] then h else HashName(Mix(h, Byte32(s[0])), s[1..])
  }

  function Low(i: int): bv32 {
    Word(Int64(i)[..4])
  }

  function High(i: int): bv32 {
    Word(Int64(i)[4..])
  }

  function HashInt(h: bv32, i: int): bv32 {
    Mix(Mix(h, Low(i)), High(i))
  }

  /** The state after the name and the type. */
  function Tagged(h: bv32, name: Name, declared: int): bv32 {
    Mix(Flip(HashName(h, name), 0x1f), Byte32(declared))
  }

  function HashFields(h: bv32, name: Name, declared: int, i: Option<int>): bv32 {
    var h1 := Tagged(h, name, declared);
    Flip(match i case Some(x) => HashInt(h1, x) case None => h1, 0x1e)
  }

  function IntOf(v: Value): Option<int> {
    if v.Int? then Some(v.i) else None
  }

  /** Name, declared type and, for integers, the value. */
  function HashEntry(h: bv32, e: Entry): bv32 {
    HashFields(h, e.name, e.declared, IntOf(e.value))
  }

  function HashEntries(h: bv32, p: Pool): bv32
    decreases |p|
  {
    if p == [] then h else HashEntries(HashEntry(h, p[0]), p[1..])
  }

  function Checksum(p: Pool): bv32 {
    HashEntries(FNV_BASIS, p)
  }

  // ----- the snapshot -----

  /** The bytes of a name field past the terminator are whatever memory held. */
  predicate Pads(p: Pool, pads: seq<Bytes>) {
    |pads| == |p| && forall i | 0 <= i < |p| :: |p[i].name| + 1 + |pads[i]| == 256
  }

  function EntryBytes(e: Entry, pad: Bytes): Bytes {
    (e.name + [0] + pad) + Int32(e.declared) + Int32(e.offset) + Encode(e.value) + Encode(e.init)
  }

  function EntriesBytes(p: Pool, pads: seq<Bytes>, i: nat): Bytes
    requires i <= |p| == |pads|
    decreases |p| - i
  {
    if i == |p| then [] else EntryBytes(p[i], pads[i]) + EntriesBytes(p, pads, i + 1)
  }

  function Serialize(p: Pool, pads: seq<Bytes>): Bytes
    requires |p| == |pads|
  {
    Int32(|p|) + EntriesBytes(p, pads, 0)
  }

  /** The entry as restored: the stored value under the wire's type and offset. */
  function Restore(p: Pool, name: Name, v: Value, init: Value, dt: int, offset: int): Pool {
    match Set(p, name, v)
    case Some((p', i)) =>
      if i < |p'| then p'[i := p'[i].(declared := dt, offset := offset, init := init)] else p'
    case None => p
  }

  datatype Loaded = Loaded(pool: Pool, next: nat) | Rejected

  function LoadEntry(b: Bytes, r: nat, p: Pool): (l: Loaded)
    ensures l.Loaded? ==> r <= l.next <= |b|
  {
    if r + ENTRY_FIXED > |b| then Rejected
    else
      var name := CString(b[r..r + NAME_MAX]);
      var dt, offset := ReadInt32(b, r + 256), ReadInt32(b, r + 260);
      match Parse(b, r + ENTRY_FIXED, dt)
      case Malformed => Rejected
      case Parsed(v, r1) =>
        match Parse(b, r1, dt)
        case Malformed => Rejected
        case Parsed(init, r2) => Loaded(Restore(p, name, v, init, dt, offset), r2)
  }

  /** Success, and the pool as far as it was read. */
  function LoadEntries(b: Bytes, r: nat, n: nat, p: Pool): (bool, Pool)
    decreases n
  {
    if n == 0 then (true, p)
    else
      match LoadEntry(b, r, p)
      case Rejected => (false, p)
      case Loaded(p', r') => LoadEntries(b, r', n - 1, p')
  }

  function Deserialize(p: Pool, b: Bytes): (bool, Pool) {
    if |b| < 4 then (false, p)
    else
      var n := ReadInt32(b, 0);
      if n < 0 || n > MAX_ENTRIES then (false, p) else LoadEntries(b, 4, n, [])
  }

  // ----- round trip -----

  /** Pools the C structures can hold: distinct terminated names and values in range. */
  ghost predicate Sound(p: Pool) {
    && Distinct(p) && |p| < 0x8000_0000
    && forall i | 0 <= i < |p| :: SoundEntry(p[i])
  }

  predicate SoundEntry(e: Entry) {
    && Proper(e.name) && IsInt32(e.declared) && IsInt32(e.offset)
    && Storable(e.value) && ShortStrings(e.value) && Storable(e.init) && ShortStrings(e.init)
  }

  function Carry(e: Entry): Entry {
    e.(value := Coerce(e.declared, e.value), init := Coerce(e.declared, e.init))
  }

  /** Every entry of the pool, as the format carries it. */
  function CarryAll(p: Pool): Pool {
    seq(|p|, i requires 0 <= i < |p| => Carry(p[i]))
  }

  predicate SmallEntry(e: Entry) {
    SmallArrays(e.value) && SmallArrays(e.init)
  }

  lemma EntryBytesParts(e: Entry, pad: Bytes)
    ensures EntryBytes(e, pad) == (e.name + [0] + pad)
      + (Int32(e.declared) + (Int32(e.offset) + (Encode(e.value) + Encode(e.init))))
  {
    hide Encode, Int32;
  }

  /** The name a field gives back, whatever follows the terminator. */
  lemma NameBack(b: Bytes, r: nat, name: Name, pad: Bytes)
    requires Proper(name) && |name| + 1 + |pad| == 256 && Holds(b, r, name + [0] + pad)
    ensures r + 256 <= |b| && CString(b[r..r + NAME_MAX]) == name
  {
    var field := name + [0] + pad;
    var rest := ([0] + pad)[..NAME_MAX - |name|];
    assert b[r..r + NAME_MAX] == field[..NAME_MAX] == name + rest;
    CStringOf(name, rest);
  }

  lemma LoadEntryBack(b: Bytes, r: nat, e: Entry, pad: Bytes, p: Pool)
    requires SoundEntry(e) && |e.name| + 1 + |pad| == 256 && Holds(b, r, EntryBytes(e, pad))
    requires forall i | 0 <= i < |p| :: p[i].name != e.name
    ensures LoadEntry(b, r, p) ==
      if SmallEntry(e) then Loaded(p + [Carry(e)], r + |EntryBytes(e, pad)|) else Rejected
  {
    hide Encode, Int32, Holds, Parse, Coerce, ReadInt32, SmallArrays, CString, Storable, ShortStrings;
    var name, dt, so := e.name + [0] + pad, Int32(e.declared), Int32(e.offset);
    var v, iv := Encode(e.value), Encode(e.init);
    EntryBytesParts(e, pad);
    HoldsSplit(b, r, name, dt + (so + (v + iv)));
    HoldsSplit(b, r + 256, dt, so + (v + iv));
    HoldsSplit(b, r + 260, so, v + iv);
    HoldsSplit(b, r + 264, v, iv);
    NameBack(b, r, e.name, pad);
    WordBack(b, r + 256, e.declared);
    WordBack(b, r + 260, e.offset);
    ParseEncode(b, r + 264, e.value, e.declared);
    ParseEncode(b, r + 264 + |v|, e.init, e.declared);
  }

  lemma WordBack(b: Bytes, r: nat, i: int)
    requires IsInt32(i) && Holds(b, r, Int32(i))
    ensures r + 4 <= |b| && ReadInt32(b, r) == i
  {
    ReadInt32Back(b, r, i);
  }

  lemma {:induction false} LoadEntriesBack(b: Bytes, r: nat, p: Pool, pads: seq<Bytes>, i: nat)
    requires Sound(p) && Pads(p, pads) && i <= |p| && Holds(b, r, EntriesBytes(p, pads, i))
    ensures LoadEntries(b, r, |p| - i, CarryAll(p)[..i]).0 <==> forall j | i <= j < |p| :: SmallEntry(p[j])
    ensures (forall j | i <= j < |p| :: SmallEntry(p[j])) ==>
              LoadEntries(b, r, |p| - i, CarryAll(p)[..i]) == (true, CarryAll(p))
    decreases |p| - i
  {
    hide Holds, EntryBytes, LoadEntry, Carry, SmallEntry, SoundEntry;
    if i == |p| {
      assert CarryAll(p)[..i] == CarryAll(p);
    } else {
      HoldsSplit(b, r, EntryBytes(p[i], pads[i]), EntriesBytes(p, pads, i + 1));
      CarryNames(p);
      LoadEntryBack(b, r, p[i], pads[i], CarryAll(p)[..i]);
      if SmallEntry(p[i]) {
        assert CarryAll(p)[..i] + [Carry(p[i])] == CarryAll(p)[..i + 1];
        LoadEntriesBack(b, r + |EntryBytes(p[i], pads[i])|, p, pads, i + 1);
      }
    }
  }

  lemma CarryNames(p: Pool)
    ensures forall i | 0 <= i < |p| :: CarryAll(p)[i].name == p[i].name
  {
  }

  /**
   A written pool reads back as the same entries in the same order, and it is
   accepted exactly when it has at most 65536 entries and no array is longer.
   */
  lemma RoundTrip(before: Pool, p: Pool, pads: seq<Bytes>)
    requires Sound(p) && Pads(p, pads)
    ensures var r := Deserialize(before, Serialize(p, pads));
            && (r.0 <==> |p| <= MAX_ENTRIES && forall j | 0 <= j < |p| :: SmallEntry(p[j]))
            && (r.0 ==> r.1 == CarryAll(p))
  {
    hide EntriesBytes, LoadEntries, Int32, SmallEntry;
    var b := Serialize(p, pads);
    assert b[0..4] == Int32(|p|);
    assert Holds(b, 0, Int32(|p|)) && Holds(b, 4, EntriesBytes(p, pads, 0));
    ReadInt32Back(b, 0, |p|);
    if |p| <= MAX_ENTRIES {
      assert CarryAll(p)[..0] == [];
      LoadEntriesBack(b, 4, p, pads, 0);
    }
  }

  /** Entries the format carries unchanged: their type is their value's and nothing in them turns nil. */
  predicate CarriedEntry(e: Entry) {
    e.declared == Tag(e.value) == Tag(e.init) && Carried(e.value) && Carried(e.init)
  }

  /** So a pool of plain values survives a snapshot unchanged. */
  lemma PlainPoolSurvives(before: Pool, p: Pool, pads: seq<Bytes>)
    requires Sound(p) && Pads(p, pads) && |p| <= MAX_ENTRIES
    requires forall j | 0 <= j < |p| :: SmallEntry(p[j]) && CarriedEntry(p[j])
    ensures Deserialize(before, Serialize(p, pads)) == (true, p)
  {
    hide SmallEntry, Deserialize, Serialize, SoundEntry;
    RoundTrip(before, p, pads);
    forall j | 0 <= j < |p| ensures CarryAll(p)[j] == p[j] {
      assert CarriedEntry(p[j]);
      CoerceKeepsIff(p[j].value);
      CoerceKeepsIff(p[j].init);
    }
    assert CarryAll(p) == p;
  }

  /** Integer entries and only they hold integers. */
  ghost predicate IntsTyped(p: Pool) {
    forall i | 0 <= i < |p| :: p[i].declared == 1 <==> p[i].value.Int?
  }

  /** The checksum taken before writing is the checksum of what is read. */
  lemma {:induction false} ChecksumCarries(h: bv32, p: Pool)
    requires IntsTyped(p)
    ensures HashEntries(h, CarryAll(p)) == HashEntries(h, p)
    decreases |p|
  {
    hide HashFields;
    if p != [] {
      assert p[0].declared == 1 <==> p[0].value.Int?;
      assert IntOf(Carry(p[0]).value) == IntOf(p[0].value);
      assert CarryAll(p)[1..] == CarryAll(p[1..]);
      ChecksumCarries(HashEntry(h, p[0]), p[1..]);
    }
  }

  // ----- what the checksum notices -----

  function Unmix(h: bv32, x: bv32): bv32 {
    (h * 899433627) ^ x
  }

  lemma Unmixed(h: bv32, x: bv32)
    ensures Unmix(Mix(h, x), x) == h && Unmix(Mix(h, x), h) == x
  {
  }

  lemma Unflipped(h: bv32, x: bv32)
    ensures Flip(Flip(h, x), x) == h
  {
  }

  /** Equal results of one step, from equal inputs on one side, had equal inputs on the other. */
  lemma MixInjective(h: bv32, h': bv32, x: bv32, x': bv32)
    requires Mix(h, x) == Mix(h', x')
    ensures h == h' <==> x == x'
  {
    hide Mix, Unmix;
    Unmixed(h, x);
    Unmixed(h', x');
  }

  lemma {:induction false} NameInjective(h: bv32, h': bv32, s: Name)
    requires HashName(h, s) == HashName(h', s)
    ensures h == h'
    decreases |s|
  {
    hide Mix, Byte32;
    if s != [] {
      var x := Byte32(s[0]);
      NameInjective(Mix(h, x), Mix(h', x), s[1..]);
      MixInjective(h, h', x, x);
    }
  }

  lemma IntInjective(h: bv32, h': bv32, i: int)
    requires HashInt(h, i) == HashInt(h', i)
    ensures h == h'
  {
    hide Mix, Low, High;
    MixInjective(Mix(h, Low(i)), Mix(h', Low(i)), High(i), High(i));
    MixInjective(h, h', Low(i), Low(i));
  }

  lemma EntryInjective(h: bv32, h': bv32, e: Entry)
    requires HashEntry(h, e) == HashEntry(h', e)
    ensures h == h'
  {
    hide Mix, Flip, HashName, HashInt, Byte32;
    var a, b := Tagged(h, e.name, e.declared), Tagged(h', e.name, e.declared);
    if e.value.Int? {
      Unflipped(HashInt(a, e.value.i), 0x1e);
      Unflipped(HashInt(b, e.value.i), 0x1e);
      IntInjective(a, b, e.value.i);
    } else {
      Unflipped(a, 0x1e);
      Unflipped(b, 0x1e);
    }
    var x, y := HashName(h, e.name), HashName(h', e.name);
    MixInjective(Flip(x, 0x1f), Flip(y, 0x1f), Byte32(e.declared), Byte32(e.declared));
    Unflipped(x, 0x1f);
    Unflipped(y, 0x1f);
    NameInjective(h, h', e.name);
  }

  lemma {:induction false} EntriesInjective(h: bv32, h': bv32, p: Pool)
    requires HashEntries(h, p) == HashEntries(h', p)
    ensures h == h'
    decreases |p|
  {
    hide HashEntry;
    if p != [] {
      EntriesInjective(HashEntry(h, p[0]), HashEntry(h', p[0]), p[1..]);
      EntryInjective(h, h', p[0]);
    }
  }

  /** A difference that one entry makes is never lost by the entries after it. */
  lemma {:induction false} DifferenceStays(h: bv32, p: Pool, i: nat, e: Entry)
    requires i < |p| && forall g: bv32 :: HashEntry(g, p[i]) != HashEntry(g, e)
    ensures HashEntries(h, p) != HashEntries(h, p[i := e])
    decreases |p|
  {
    hide HashEntry;
    if i == 0 {
      assert p[0 := e][1..] == p[1..];
      if HashEntries(h, p) == HashEntries(h, p[0 := e]) {
        EntriesInjective(HashEntry(h, p[0]), HashEntry(h, e), p[1..]);
      }
    } else {
      assert p[i := e][1..] == p[1..][i - 1 := e];
      DifferenceStays(HashEntry(h, p[0]), p[1..], i - 1, e);
    }
  }

  /** The two integers differ in their low or in their high four bytes, and not in both. */
  predicate OneHalfDiffers(i: int, j: int) {
    (Int64(i)[..4] == Int64(j)[..4]) != (Int64(i)[4..] == Int64(j)[4..])
  }

  lemma HalvesTold(i: int, j: int)
    requires OneHalfDiffers(i, j)
    ensures (Low(i) == Low(j)) != (High(i) == High(j))
  {
    hide Int64, Word;
    if Low(i) == Low(j) {
      WordInjective(Int64(i)[..4], Int64(j)[..4]);
    }
    if High(i) == High(j) {
      WordInjective(Int64(i)[4..], Int64(j)[4..]);
    }
  }

  /** Two different non-negative numbers below 2^32 differ in their low half only. */
  lemma SmallIntsDiffer(i: int, j: int)
    requires 0 <= i < TWO32 && 0 <= j < TWO32 && i != j
    ensures OneHalfDiffers(i, j)
  {
    LittleSplit(i);
    LittleSplit(j);
    Bounded32(i);
    Bounded32(j);
    NumberLittle(i, 4);
    NumberLittle(j, 4);
  }

  lemma LittleSplit(n: nat)
    requires n < TWO32
    ensures Int64(n)[..4] == Little(n, 4) && Int64(n)[4..] == Little(0, 4)
  {
    hide Little, Fits;
    Bounded32(n);
    LittlePadded(n, 4, 4);
    assert Pattern(n, TWO64) == n;
  }

  lemma HalfNoticed(h: bv32, i: int, j: int)
    requires OneHalfDiffers(i, j)
    ensures HashInt(h, i) != HashInt(h, j)
  {
    hide Mix, Low, High, OneHalfDiffers;
    HalvesTold(i, j);
    if HashInt(h, i) == HashInt(h, j) {
      MixInjective(Mix(h, Low(i)), Mix(h, Low(j)), High(i), High(j));
      if Low(i) != Low(j) {
        MixInjective(h, h, Low(i), Low(j));
      }
    }
  }

  /** A corrupted integer that differs in one half is always noticed. */
  lemma CorruptionNoticed(p: Pool, i: nat, x: int)
    requires i < |p| && p[i].value.Int? && OneHalfDiffers(p[i].value.i, x)
    ensures Checksum(p[i := p[i].(value := Int(x))]) != Checksum(p)
  {
    hide HashInt, Mix, Flip, Tagged, OneHalfDiffers;
    var e := p[i].(value := Int(x));
    forall g: bv32 ensures HashEntry(g, p[i]) != HashEntry(g, e) {
      var t := Tagged(g, e.name, e.declared);
      HalfNoticed(t, p[i].value.i, x);
      Unflipped(HashInt(t, p[i].value.i), 0x1e);
      Unflipped(HashInt(t, x), 0x1e);
    }
    DifferenceStays(FNV_BASIS, p, i, e);
  }

  /** One byte of a string replaced by another. */
  predicate OneByteOff(s: Name, t: Name) {
    exists j: nat | j < |s| :: |t| == |s| && t[j] != s[j] && t == s[j := t[j]]
  }

  lemma ByteNoticed(h: bv32, x: Byte, y: Byte)
    requires x != y
    ensures Mix(h, Byte32(x)) != Mix(h, Byte32(y))
  {
    hide Mix, OfByte;
    if Mix(h, Byte32(x)) == Mix(h, Byte32(y)) {
      MixInjective(h, h, Byte32(x), Byte32(y));
      ByteInjective(x, y);
    }
  }

  lemma {:induction false} NameNoticed(h: bv32, s: Name, t: Name)
    requires OneByteOff(s, t)
    ensures HashName(h, s) != HashName(h, t)
    decreases |s|
  {
    hide Mix, Byte32;
    var j: nat :| j < |s| && |t| == |s| && t[j] != s[j] && t == s[j := t[j]];
    if j == 0 {
      assert s[1..] == t[1..];
      ByteNoticed(h, s[0], t[0]);
      if HashName(h, s) == HashName(h, t) {
        NameInjective(Mix(h, Byte32(s[0])), Mix(h, Byte32(t[0])), s[1..]);
      }
    } else {
      assert t[1..] == s[1..][j - 1 := t[j]] && t[1..][j - 1] == t[j];
      assert OneByteOff(s[1..], t[1..]);
      NameNoticed(Mix(h, Byte32(s[0])), s[1..], t[1..]);
    }
  }

  /** So is a changed byte of a name. */
  lemma NameCorruptionNoticed(p: Pool, i: nat, name: Name)
    requires i < |p| && OneByteOff(p[i].name, name)
    ensures Checksum(p[i := p[i].(name := name)]) != Checksum(p)
  {
    hide HashInt, Mix, Flip, Tagged, OneByteOff, Byte32, HashName;
    var e := p[i].(name := name);
    forall g: bv32 ensures HashEntry(g, p[i]) != HashEntry(g, e) {
      NameNoticed(g, p[i].name, name);
      TagsTold(HashName(g, p[i].name), HashName(g, name), Byte32(e.declared), Byte32(e.declared), IntOf(e.value));
      TaggedIs(g, p[i].name, e.declared);
      TaggedIs(g, name, e.declared);
    }
    DifferenceStays(FNV_BASIS, p, i, e);
  }

  /** And a type that differs in its low byte. */
  lemma TypeCorruptionNoticed(p: Pool, i: nat, declared: int)
    requires i < |p| && declared % 256 != p[i].declared % 256
    ensures Checksum(p[i := p[i].(declared := declared)]) != Checksum(p)
  {
    hide HashInt, Mix, Flip, Tagged, OfByte, HashName;
    var e := p[i].(declared := declared);
    forall g: bv32 ensures HashEntry(g, p[i]) != HashEntry(g, e) {
      if Byte32(declared) == Byte32(p[i].declared) {
        ByteInjective(declared % 256, p[i].declared % 256);
      }
      var n := HashName(g, e.name);
      TagsTold(n, n, Byte32(p[i].declared), Byte32(declared), IntOf(e.value));
      TaggedIs(g, e.name, p[i].declared);
      TaggedIs(g, e.name, declared);
    }
    DifferenceStays(FNV_BASIS, p, i, e);
  }

  lemma TaggedIs(h: bv32, name: Name, declared: int)
    ensures Tagged(h, name, declared) == Mix(Flip(HashName(h, name), 0x1f), Byte32(declared))
  {
  }

  /** Different names or types, and the same integer after them. */
  lemma TagsTold(x: bv32, y: bv32, s: bv32, t: bv32, i: Option<int>)
    requires (x == y) != (s == t)
    ensures var a, b := Mix(Flip(x, 0x1f), s), Mix(Flip(y, 0x1f), t);
            var a', b' := if i.Some? then HashInt(a, i.value) else a, if i.Some? then HashInt(b, i.value) else b;
            Flip(a', 0x1e) != Flip(b', 0x1e)
  {
    hide Mix, Flip, HashInt;
    var a, b := Mix(Flip(x, 0x1f), s), Mix(Flip(y, 0x1f), t);
    Unflipped(x, 0x1f);
    Unflipped(y, 0x1f);
    if a == b {
      MixInjective(Flip(x, 0x1f), Flip(y, 0x1f), s, t);
    }
    if i.Some? {
      Unflipped(HashInt(a, i.value), 0x1e);
      Unflipped(HashInt(b, i.value), 0x1e);
      if HashInt(a, i.value) == HashInt(b, i.value) {
        IntInjective(a, b, i.value);
      }
    } else {
      Unflipped(a, 0x1e);
      Unflipped(b, 0x1e);
    }
  }

  /** Anything but an integer may change without the checksum noticing. */
  lemma {:induction false} OthersUnnoticed(h: bv32, p: Pool, i: nat, v: Value)
    requires i < |p| && !p[i].value.Int? && !v.Int?
    ensures HashEntries(h, p[i := p[i].(value := v)]) == HashEntries(h, p)
    decreases |p|
  {
    hide HashFields;
    if i > 0 {
      assert p[i := p[i].(value := v)][1..] == p[1..][i - 1 := p[i].(value := v)];
      OthersUnnoticed(HashEntry(h, p[0]), p[1..], i - 1, v);
    } else {
      assert p[0 := p[0].(value := v)][1..] == p[1..];
    }
  }

  // ----- whatever the bytes -----

  /** A count that is negative or beyond 65536 is refused, and the pool stays as it was. */
  lemma BadCountRefused(before: Pool, b: Bytes)
    requires |b| < 4 || ReadInt32(b, 0) < 0 || ReadInt32(b, 0) > 65536
    ensures Deserialize(before, b) == (false, before)
  {
    hide ReadInt32;
  }

  /** What any accepted snapshot gives: one entry per name, each value of its declared type or nil. */
  ghost predicate Restored(p: Pool) {
    Distinct(p) && forall i | 0 <= i < |p| :: RestoredEntry(p[i])
  }

  ghost predicate RestoredEntry(e: Entry) {
    Proper(e.name) && Normal(e.value, e.declared) && Normal(e.init, e.declared)
  }

  lemma RestoreKeeps(p: Pool, name: Name, v: Value, init: Value, dt: int, offset: int)
    requires Restored(p) && Proper(name) && Normal(v, dt) && Normal(init, dt)
    ensures Restored(Restore(p, name, v, init, dt, offset))
  {
    hide Normal;
    var p' := Restore(p, name, v, init, dt, offset);
    match Find(p, name)
    case Some(i) =>
      if p[i].declared == Tag(v) {
        assert p' == p[i := Entry(name, v, init, dt, offset)];
      }
    case None => assert p' == p + [Entry(name, v, init, dt, offset)];
  }

  lemma LoadEntryRestores(b: Bytes, r: nat, p: Pool)
    requires Restored(p) && LoadEntry(b, r, p).Loaded?
    ensures Restored(LoadEntry(b, r, p).pool)
  {
    hide Parse, Restore, Restored, Normal, ReadInt32;
    var name := CString(b[r..r + NAME_MAX]);
    var dt, offset := ReadInt32(b, r + 256), ReadInt32(b, r + 260);
    var v := Parse(b, r + ENTRY_FIXED, dt);
    ParsedIsNormal(b, r + ENTRY_FIXED, dt);
    ParsedIsNormal(b, v.next, dt);
    RestoreKeeps(p, name, v.v, Parse(b, v.next, dt).v, dt, offset);
  }

  /** Whatever the bytes and however far they are good, the pool stays well formed. */
  lemma {:induction false} LoadEntriesRestore(b: Bytes, r: nat, n: nat, p: Pool)
    requires Restored(p)
    ensures Restored(LoadEntries(b, r, n, p).1)
    decreases n
  {
    hide LoadEntry, Restored;
    if n > 0 && LoadEntry(b, r, p).Loaded? {
      LoadEntryRestores(b, r, p);
      LoadEntriesRestore(b, LoadEntry(b, r, p).next, n - 1, LoadEntry(b, r, p).pool);
    }
  }

  lemma AcceptedIsRestored(before: Pool, b: Bytes)
    requires Deserialize(before, b).0
    ensures Restored(Deserialize(before, b).1)
  {
    LoadEntriesRestore(b, 4, ReadInt32(b, 0), []);
  }
}
