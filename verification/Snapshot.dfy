/** The handover snapshot: a header with sizes and checksums, the pool, and the graph. */
module Snapshot {
  import opened Values
  import opened Wire
  import opened BitWords
  import opened ValueCodec
  import opened PrstPool
  import opened PrstGraph
  import opened Truncation

  const MAGIC: nat := 0xF10A8888
  const VERSION: nat := 1001
  const HEADER: nat := 40

  datatype Result =
    | OK | ErrAlloc | ErrParse | ErrResolve | ErrSerialize | ErrDeserialize | ErrChecksum
    | ErrDryRun | ErrSafePoint | ErrFlashWrite | ErrFlashRead | ErrVersion | ErrNullProgram

  function CheckVersion(v: nat): Result {
    if v / 1000 != VERSION / 1000 then ErrVersion else if v > VERSION then ErrVersion else OK
  }

  /** Snapshots of the same major version are readable up to the current minor. */
  lemma VersionsAccepted(v: nat)
    ensures CheckVersion(v) == OK <==> 1000 <= v <= 1001
  {
  }

  function Word32(n: nat): (b: Bytes)
    ensures |b| == 4
  {
    Little(n % TWO32, 4)
  }

  function ReadWord32(b: Bytes, r: nat): (n: nat)
    requires r + 4 <= |b|
    ensures n < TWO32
  {
    Fits32(b[r..r + 4]);
    Number(b[r..r + 4])
  }

  lemma ReadWord32Back(b: Bytes, r: nat, n: nat)
    requires Holds(b, r, Word32(n))
    ensures r + 4 <= |b| && ReadWord32(b, r) == n % TWO32
  {
    Bounded32(n % TWO32);
    NumberLittle(n % TWO32, 4);
  }

  /** What a header claims, the sizes and counts apart. */
  datatype Fields = Fields(magic: nat, version: nat, poolSum: nat, graphSum: nat, cycle: int)

  predicate InWords(h: Fields) {
    h.magic < TWO32 && h.version < TWO32 && h.poolSum < TWO32 && h.graphSum < TWO32
  }

  /** Magic, version, checksums and sizes; then counts, cycle count and padding, which nobody reads. */
  function Header(h: Fields, psize: nat, gsize: nat, pcount: int, gcount: int): (b: Bytes)
    ensures |b| == HEADER
  {
    Word32(h.magic) + (Word32(h.version) + (Word32(h.poolSum) + (Word32(h.graphSum) + (Word32(psize) + (Word32(gsize)
    + (Int32(pcount) + Int32(gcount) + Int32(h.cycle) + [0, 0, 0, 0]))))))
  }

  /** A snapshot whose header says `h` of the pool and the graph behind it. */
  function Framed(h: Fields, p: Pool, pads: seq<Bytes>, g: Graph): Bytes
    requires |p| == |pads|
  {
    var pb, gb := Serialize(p, pads), SerializeGraph(g);
    Header(h, |pb|, |gb|, |p|, |g|) + (pb + gb)
  }

  /** What the writer says of a state. */
  function Truth(p: Pool, g: Graph, cycle: int): Fields {
    Fields(MAGIC, VERSION, Unsigned(Checksum(p)), Unsigned(GraphChecksum(g)), cycle)
  }

  function SaveState(p: Pool, pads: seq<Bytes>, g: Graph, cycle: int): Bytes
    requires |p| == |pads|
  {
    Framed(Truth(p, g, cycle), p, pads, g)
  }

  /** The result code, and what the candidate holds afterwards; `None` is a pool or graph never set up. */
  datatype Migrated = Migrated(code: Result, pool: Option<Pool>, graph: Option<Graph>)

  function RestorePool(data: Bytes): (bool, Option<Pool>) {
    if |data| < 4 then (false, None)
    else
      var n := ReadInt32(data, 0);
      if n < 0 || n > MAX_ENTRIES then (false, None)
      else
        var (ok, p) := LoadEntries(data, 4, n, []);
        (ok, Some(p))
  }

  function RestoreGraph(b: Bytes, at: nat, p: Pool): Migrated
    requires HEADER <= at <= |b| && at + ReadWord32(b, 20) <= |b|
  {
    var gsize := ReadWord32(b, 20);
    if gsize == 0 then Migrated(OK, Some(p), Some([]))
    else
      var (ok, g) := DeserializeGraph([], b[at..at + gsize]);
      if !ok then Migrated(ErrDeserialize, Some(p), None)
      else if Unsigned(GraphChecksum(g)) != ReadWord32(b, 12) then Migrated(ErrChecksum, Some(p), Some(g))
      else Migrated(OK, Some(p), Some(g))
  }

  function RestoreState(b: Bytes): Migrated
    requires |b| >= HEADER ==> HEADER + ReadWord32(b, 16) + ReadWord32(b, 20) <= |b|
  {
    if |b| < HEADER || ReadWord32(b, 0) != MAGIC then Migrated(ErrDeserialize, None, None)
    else if CheckVersion(ReadWord32(b, 4)) != OK then Migrated(CheckVersion(ReadWord32(b, 4)), None, None)
    else
      var psize := ReadWord32(b, 16);
      if psize == 0 then RestoreGraph(b, HEADER, [])
      else
        var (ok, p) := RestorePool(b[HEADER..HEADER + psize]);
        if !ok || p.None? then Migrated(ErrDeserialize, p, None)
        else if Unsigned(Checksum(p.value)) != ReadWord32(b, 8) then Migrated(ErrChecksum, p, None)
        else RestoreGraph(b, HEADER + psize, p.value)
  }

  /** A state that is accepted is accepted whole. */
  lemma RestoredWhole(b: Bytes)
    requires |b| >= HEADER && HEADER + ReadWord32(b, 16) + ReadWord32(b, 20) <= |b| && RestoreState(b).code == OK
    ensures RestoreState(b).pool.Some? && RestoreState(b).graph.Some?
  {
    hide ReadWord32, RestorePool, DeserializeGraph, Checksum, GraphChecksum, Unsigned;
  }

  lemma RestorePoolIs(data: Bytes)
    ensures RestorePool(data).0 == Deserialize([], data).0
    ensures RestorePool(data).0 ==> RestorePool(data).1 == Some(Deserialize([], data).1)
  {
  }

  lemma HeaderWords(b: Bytes, h: Fields, psize: nat, gsize: nat, pcount: int, gcount: int)
    requires InWords(h) && Holds(b, 0, Header(h, psize, gsize, pcount, gcount))
    ensures |b| >= HEADER && ReadWord32(b, 0) == h.magic && ReadWord32(b, 4) == h.version
    ensures ReadWord32(b, 8) == h.poolSum && ReadWord32(b, 12) == h.graphSum
    ensures ReadWord32(b, 16) == psize % TWO32 && ReadWord32(b, 20) == gsize % TWO32
  {
    hide Word32, Holds, ReadWord32, Int32;
    HoldsSlice(b, 0, Header(h, psize, gsize, pcount, gcount));
    var m, v, pc, gc := Word32(h.magic), Word32(h.version), Word32(h.poolSum), Word32(h.graphSum);
    var ps, gs := Word32(psize), Word32(gsize);
    var tail := Int32(pcount) + Int32(gcount) + Int32(h.cycle) + [0, 0, 0, 0];
    HoldsSplit(b, 0, m, v + (pc + (gc + (ps + (gs + tail)))));
    HoldsSplit(b, 4, v, pc + (gc + (ps + (gs + tail))));
    HoldsSplit(b, 8, pc, gc + (ps + (gs + tail)));
    HoldsSplit(b, 12, gc, ps + (gs + tail));
    HoldsSplit(b, 16, ps, gs + tail);
    HoldsSplit(b, 20, gs, tail);
    ReadWord32Back(b, 0, h.magic);
    ReadWord32Back(b, 4, h.version);
    ReadWord32Back(b, 8, h.poolSum);
    ReadWord32Back(b, 12, h.graphSum);
    ReadWord32Back(b, 16, psize);
    ReadWord32Back(b, 20, gsize);
  }

  /** The header fields of a snapshot, read back. */
  lemma HeaderBack(h: Fields, p: Pool, pads: seq<Bytes>, g: Graph)
    requires |p| == |pads| && InWords(h)
    ensures var b := Framed(h, p, pads, g);
            && |b| == HEADER + |Serialize(p, pads)| + |SerializeGraph(g)|
            && ReadWord32(b, 0) == h.magic && ReadWord32(b, 4) == h.version
            && ReadWord32(b, 8) == h.poolSum && ReadWord32(b, 12) == h.graphSum
            && ReadWord32(b, 16) == |Serialize(p, pads)| % TWO32 && ReadWord32(b, 20) == |SerializeGraph(g)| % TWO32
            && HEADER + ReadWord32(b, 16) + ReadWord32(b, 20) <= |b|
            && Holds(b, HEADER, Serialize(p, pads)) && Holds(b, HEADER + |Serialize(p, pads)|, SerializeGraph(g))
  {
    hide Serialize, SerializeGraph, Holds, ReadWord32, Header;
    var b := Framed(h, p, pads, g);
    var pb, gb := Serialize(p, pads), SerializeGraph(g);
    HoldsWhole(b);
    HoldsSplit(b, 0, Header(h, |pb|, |gb|, |p|, |g|), pb + gb);
    HoldsSplit(b, HEADER, pb, gb);
    HeaderWords(b, h, |pb|, |gb|, |p|, |g|);
    SizesInHeader(p, pads, g);
  }

  lemma HoldsWhole(b: Bytes)
    ensures Holds(b, 0, b)
  {
  }

  lemma HoldsSlice(b: Bytes, r: nat, piece: Bytes)
    requires Holds(b, r, piece)
    ensures r + |piece| <= |b| && b[r..r + |piece|] == piece
  {
  }

  /** What the deserializer accepts, said of the state itself. */
  ghost predicate Migratable(p: Pool, g: Graph) {
    |p| <= MAX_ENTRIES && |g| <= CAP_MAX && forall j | 0 <= j < |p| :: SmallEntry(p[j])
  }

  /** The size field of the header holds the size of the pool. */
  predicate SizeFits(p: Pool, pads: seq<Bytes>)
    requires |p| == |pads|
  {
    |Serialize(p, pads)| < TWO32
  }

  /** The last variable's initial value is an array of 4 GiB. */
  predicate HugeTail(p: Pool) {
    p != [] && TailSize(p[|p| - 1]) >= TWO32
  }

  /** The verdict on a snapshot below 4 GiB, check by check in the order of the reader. */
  ghost function Gate(h: Fields, p: Pool, g: Graph): Result {
    if h.magic != 0xF10A8888 then ErrDeserialize
    else if !(1000 <= h.version <= 1001) then ErrVersion
    else if |p| > 65536 || exists j | 0 <= j < |p| :: !SmallEntry(p[j]) then ErrDeserialize
    else if Unsigned(Checksum(p)) != h.poolSum then ErrChecksum
    else if |g| > 65536 then ErrDeserialize
    else if Unsigned(GraphChecksum(g)) != h.graphSum then ErrChecksum
    else OK
  }

  /**
   Any well-formed pool and graph behind any header: the reader refuses a wrong
   magic, an unknown version, a pool or graph beyond the format's limits, and a
   checksum that is not the one of what was read; everything else it accepts.
   */
  lemma GateIsExact(h: Fields, p: Pool, pads: seq<Bytes>, g: Graph)
    requires Sound(p) && IntsTyped(p) && Pads(p, pads) && SizeFits(p, pads) && |g| < 0x8000_0000 && InWords(h)
    ensures var b := Framed(h, p, pads, g);
            && |b| >= HEADER && HEADER + ReadWord32(b, 16) + ReadWord32(b, 20) <= |b|
            && RestoreState(b).code == Gate(h, p, g)
            && (Gate(h, p, g) == OK ==> RestoreState(b) == Migrated(OK, Some(CarryAll(p)), Some(g)))
  {
    hide Framed, Serialize, SerializeGraph, Checksum, GraphChecksum, Deserialize, DeserializeGraph, Unsigned;
    hide RestorePool, ReadWord32, Holds, CarryAll, SmallEntry, IntsTyped, SoundEntry;
    var b := Framed(h, p, pads, g);
    var pb, gb := Serialize(p, pads), SerializeGraph(g);
    HeaderBack(h, p, pads, g);
    SizesInHeader(p, pads, g);
    HoldsSlice(b, HEADER, pb);
    HoldsSlice(b, HEADER + |pb|, gb);
    VersionsAccepted(h.version);
    RestorePoolIs(pb);
    RoundTrip([], p, pads);
    ChecksumSame(p);
    var gsize := |gb| % TWO32;
    assert b[HEADER + |pb|..HEADER + |pb| + gsize] == gb[..gsize];
    WrittenGraph(g);
  }

  /** What lies behind a snapshot of 4 GiB or more that is accepted all the same. */
  lemma LargeGate(h: Fields, p: Pool, pads: seq<Bytes>, g: Graph)
    requires Sound(p) && Pads(p, pads) && !SizeFits(p, pads) && InWords(h)
    ensures var b := Framed(h, p, pads, g);
            && |b| >= HEADER && HEADER + ReadWord32(b, 16) + ReadWord32(b, 20) <= |b|
            && (RestoreState(b).code == OK ==>
                  HugeTail(p) || (|Serialize(p, pads)| % TWO32 == 0 && RestoreState(b).pool == Some([])))
  {
    hide Framed, Serialize, SerializeGraph, Checksum, GraphChecksum, Deserialize, DeserializeGraph, Unsigned;
    hide RestorePool, ReadWord32, Holds, SoundEntry, HugeTail;
    var b := Framed(h, p, pads, g);
    var pb := Serialize(p, pads);
    HeaderBack(h, p, pads, g);
    HoldsSlice(b, HEADER, pb);
    if |pb| % TWO32 != 0 {
      var psize := |pb| % TWO32;
      assert b[HEADER..HEADER + psize] == pb[..psize];
      RestorePoolIs(pb[..psize]);
      TruncatedPool(p, pads);
    }
  }

  /**
   Saving a state and restoring it.  Below 4 GiB a valid state is never refused,
   and what arrives is the pool as the format carries it and the graph unchanged.
   From 4 GiB on it is refused, save for an exact multiple of 4 GiB, which may
   pass for an empty pool, and for a last initial value that is that large itself.
   */
  lemma Migration(p: Pool, pads: seq<Bytes>, g: Graph, cycle: int)
    requires Sound(p) && IntsTyped(p) && Pads(p, pads) && |g| < 0x8000_0000
    ensures var b := SaveState(p, pads, g, cycle);
            && |b| >= HEADER && HEADER + ReadWord32(b, 16) + ReadWord32(b, 20) <= |b|
            && (SizeFits(p, pads) ==>
                  && (RestoreState(b).code == OK <==> Migratable(p, g))
                  && (RestoreState(b).code == OK ==> RestoreState(b) == Migrated(OK, Some(CarryAll(p)), Some(g))))
            && (!SizeFits(p, pads) && RestoreState(b).code == OK ==>
                  HugeTail(p) || (|Serialize(p, pads)| % TWO32 == 0 && RestoreState(b).pool == Some([])))
  {
    hide Framed, RestoreState, ReadWord32, Checksum, GraphChecksum, CarryAll, SmallEntry, SoundEntry;
    hide SizeFits, HugeTail, Unsigned;
    if SizeFits(p, pads) {
      GateIsExact(Truth(p, g, cycle), p, pads, g);
    } else {
      LargeGate(Truth(p, g, cycle), p, pads, g);
    }
  }

  // ----- corruption -----

  /** One integer of the pool changed in one 32-bit half, behind the header of the pool that was saved: refused. */
  lemma CorruptPoolRefused(p: Pool, pads: seq<Bytes>, g: Graph, cycle: int, i: nat, x: int)
    requires Sound(p) && IntsTyped(p) && Pads(p, pads) && SizeFits(p, pads) && Migratable(p, g)
    requires i < |p| && p[i].value.Int? && OneHalfDiffers(p[i].value.i, x) && IsInt64(x)
    ensures var b := Framed(Truth(p, g, cycle), p[i := p[i].(value := Int(x))], pads, g);
            && |b| == |SaveState(p, pads, g, cycle)|
            && |b| >= HEADER && HEADER + ReadWord32(b, 16) + ReadWord32(b, 20) <= |b|
            && RestoreState(b).code == ErrChecksum
  {
    hide Framed, RestoreState, ReadWord32, Checksum, GraphChecksum, OneHalfDiffers, Serialize, Encode, Unsigned;
    var q := p[i := p[i].(value := Int(x))];
    SameSize(p, pads, i, x);
    CorruptionNoticed(p, i, x);
    SumsTold(Checksum(p), Checksum(q));
    assert SoundEntry(p[i]) && SoundEntry(q[i]) && SmallEntry(p[i]) && SmallEntry(q[i]);
    HeaderBack(Truth(p, g, cycle), p, pads, g);
    HeaderBack(Truth(p, g, cycle), q, pads, g);
    GateIsExact(Truth(p, g, cycle), q, pads, g);
  }

  lemma SumsTold(x: bv32, y: bv32)
    requires x != y
    ensures Unsigned(x) != Unsigned(y)
  {
    hide Unsigned;
    if Unsigned(x) == Unsigned(y) {
      UnsignedInjective(x, y);
    }
  }

  /** Integers take the same room whatever they are. */
  lemma SameSize(p: Pool, pads: seq<Bytes>, i: nat, x: int)
    requires i < |p| == |pads| && p[i].value.Int?
    ensures |Serialize(p[i := p[i].(value := Int(x))], pads)| == |Serialize(p, pads)|
  {
    hide Encode;
    EntriesSameSize(p, pads, i, x, 0);
  }

  lemma {:induction false} EntriesSameSize(p: Pool, pads: seq<Bytes>, i: nat, x: int, k: nat)
    requires i < |p| == |pads| && p[i].value.Int? && k <= |p|
    ensures |EntriesBytes(p[i := p[i].(value := Int(x))], pads, k)| == |EntriesBytes(p, pads, k)|
    decreases |p| - k
  {
    hide Encode, Int32;
    if k < |p| {
      EntriesSameSize(p, pads, i, x, k + 1);
      if k == i {
        IntSize(p[i].value.i);
        IntSize(x);
      }
    }
  }

  lemma IntSize(x: int)
    ensures |Encode(Int(x))| == 28
  {
    assert EncodeElems(Int(x), 0) == [];
  }

  /** One byte of a name in the graph changed: refused. */
  lemma CorruptGraphRefused(p: Pool, pads: seq<Bytes>, g: Graph, cycle: int, i: nat, d: Dep)
    requires Sound(p) && IntsTyped(p) && Pads(p, pads) && SizeFits(p, pads) && Migratable(p, g)
    requires i < |g| && OneByteDiffers(g[i], d)
    ensures var b := Framed(Truth(p, g, cycle), p, pads, g[i := d]);
            && |b| >= HEADER && HEADER + ReadWord32(b, 16) + ReadWord32(b, 20) <= |b|
            && RestoreState(b).code == ErrChecksum
  {
    hide Framed, RestoreState, ReadWord32, Checksum, GraphChecksum, OneByteDiffers, SizeFits, SmallEntry, SoundEntry;
    hide Unsigned;
    GraphCorruptionNoticed(g, i, d);
    SumsTold(GraphChecksum(g), GraphChecksum(g[i := d]));
    GateIsExact(Truth(p, g, cycle), p, pads, g[i := d]);
  }

  /** A header that announces no bytes at all restores the empty state. */
  lemma BareHeaderAccepted(h: Fields, pcount: int, gcount: int)
    requires InWords(h) && h.magic == 0xF10A8888 && 1000 <= h.version <= 1001
    ensures var b := Header(h, 0, 0, pcount, gcount);
            && HEADER + ReadWord32(b, 16) + ReadWord32(b, 20) <= |b|
            && RestoreState(b) == Migrated(OK, Some([]), Some([]))
  {
    hide Header, ReadWord32, Holds;
    var b := Header(h, 0, 0, pcount, gcount);
    HoldsWhole(b);
    HeaderWords(b, h, 0, 0, pcount, gcount);
    VersionsAccepted(h.version);
  }

  /** Any other magic or version in the header of a saved state, and nothing is read at all. */
  lemma ForeignHeaderRefused(h: Fields, p: Pool, pads: seq<Bytes>, g: Graph)
    requires |p| == |pads| && InWords(h) && (h.magic != 0xF10A8888 || h.version < 1000 || h.version > 1001)
    ensures var b := Framed(h, p, pads, g);
            && |b| >= HEADER && HEADER + ReadWord32(b, 16) + ReadWord32(b, 20) <= |b|
            && RestoreState(b) == Migrated(if h.magic != 0xF10A8888 then ErrDeserialize else ErrVersion, None, None)
  {
    hide Framed, ReadWord32, Serialize, SerializeGraph, Holds, RestorePool;
    HeaderBack(h, p, pads, g);
    VersionsAccepted(h.version);
  }

  /** What the reader makes of a graph under its 32-bit size. */
  lemma WrittenGraph(g: Graph)
    requires |g| < 0x8000_0000
    ensures var gb := SerializeGraph(g);
            DeserializeGraph([], gb[..|gb| % TWO32]) == if |g| <= CAP_MAX then (true, g) else (false, [])
  {
    hide DepsBytes, Int32;
    var gb := SerializeGraph(g);
    SizesInHeader([], [], g);
    if |g| <= CAP_MAX {
      assert gb[..|gb| % TWO32] == gb;
      GraphRoundTrip([], g);
    } else {
      var cut := gb[..|gb| % TWO32];
      assert cut[0..4] == gb[0..4] == Int32(|g|);
      ReadInt32Back(cut, 0, |g|);
    }
  }

  lemma TruncatedPool(p: Pool, pads: seq<Bytes>)
    requires Sound(p) && Pads(p, pads) && !SizeFits(p, pads)
    ensures var pb := Serialize(p, pads); Deserialize([], pb[..|pb| % TWO32]).0 ==> HugeTail(p)
  {
    hide Serialize, Deserialize, TailSize;
    var pb := Serialize(p, pads);
    CutPoolRefused(pb[..|pb| % TWO32], p, pads);
  }

  lemma ChecksumSame(p: Pool)
    requires IntsTyped(p)
    ensures Checksum(CarryAll(p)) == Checksum(p)
  {
    ChecksumCarries(FNV_BASIS, p);
  }

  /** No size in the header is zero by itself: a graph's never, a pool's only by losing its high bits. */
  lemma SizesInHeader(p: Pool, pads: seq<Bytes>, g: Graph)
    requires |p| == |pads|
    ensures |Serialize(p, pads)| >= 4 && |SerializeGraph(g)| % TWO32 >= 4
    ensures |Serialize(p, pads)| % TWO32 <= |Serialize(p, pads)|
    ensures |g| <= CAP_MAX ==> |SerializeGraph(g)| % TWO32 == |SerializeGraph(g)|
    ensures |SerializeGraph(g)| % TWO32 <= |SerializeGraph(g)|
  {
    hide EntriesBytes, DepsBytes;
    var n := |SerializeGraph(g)|;
    assert n == 4 + DEP * |g| && n == n / TWO32 * TWO32 + n % TWO32;
    assert n % TWO32 == 4 + 512 * (|g| - n / TWO32 * 8388608);
  }

  /** Unless one initial value fills 4 GiB, a state arrives exactly when it fits the format and its size field. */
  lemma ArrivesIff(p: Pool, pads: seq<Bytes>, g: Graph, cycle: int)
    requires Sound(p) && IntsTyped(p) && Pads(p, pads) && |g| < 0x8000_0000 && !HugeTail(p)
    ensures var b := SaveState(p, pads, g, cycle);
            && HEADER + ReadWord32(b, 16) + ReadWord32(b, 20) <= |b|
            && (RestoreState(b) == Migrated(OK, Some(CarryAll(p)), Some(g)) <==> Migratable(p, g) && SizeFits(p, pads))
  {
    hide SaveState, Serialize, RestoreState, ReadWord32, SmallEntry, IntsTyped, SoundEntry, HugeTail, Migratable;
    Migration(p, pads, g, cycle);
    if p == [] {
      EmptyFits(pads);
    }
  }

  lemma EmptyFits(pads: seq<Bytes>)
    requires pads == []
    ensures SizeFits([], pads)
  {
  }

  /** One variable with the longest string the format allows as its value and its initializer. */
  function LargePool(): Pool {
    var s := seq(0x7FFF_FFFF, _ => 65);
    [Entry([120], Str(s), Str(s), 4, 0)]
  }

  /** It is within every limit of the format, and still it does not arrive. */
  lemma LargeStateLost(pads: seq<Bytes>, g: Graph, cycle: int)
    requires |pads| == 1 && |pads[0]| == 254 && |g| <= CAP_MAX
    ensures var p, b := LargePool(), SaveState(LargePool(), pads, g, cycle);
            && Migratable(p, g) && HEADER + ReadWord32(b, 16) + ReadWord32(b, 20) <= |b|
            && RestoreState(b) != Migrated(OK, Some(CarryAll(p)), Some(g))
  {
    hide SaveState, RestoreState, ReadWord32, Encode, WireSize, Int32;
    var p := LargePool();
    var v := p[0].value;
    SizeIsExact(v);
    StringSize(v);
    assert EntriesBytes(p, pads, 1) == [];
    assert EntriesBytes(p, pads, 0) == EntryBytes(p[0], pads[0]) + [];
    assert |Serialize(p, pads)| == 4 + 264 + 2 * WireSize(v);
    ArrivesIff(p, pads, g, cycle);
  }

  lemma StringSize(v: Value)
    requires v.Str? && |v.s| < 0x8000_0000
    ensures WireSize(v) == 28 + |v.s| && ShortStrings(v) && |EncodeElems(v, 0)| == 0
  {
  }
}
