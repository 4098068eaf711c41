/**
 A pool snapshot that ends early.  The size field of the header keeps only the
 low 32 bits, so this is what the reader of a very large snapshot is given.
 */
module Truncation {
  import opened Values
  import opened Wire
  import opened ValueCodec
  import opened PrstPool

  /** The buffer `b` is the start of `full` and ends inside the piece that `full` holds at `r`. */
  ghost predicate CutsInto(b: Bytes, full: Bytes, r: nat, piece: Bytes) {
    b <= full && Holds(full, r, piece) && r <= |b| < r + |piece|
  }

  lemma SameWord(b: Bytes, full: Bytes, r: nat)
    requires b <= full && r + 4 <= |b|
    ensures ReadInt32(b, r) == ReadInt32(full, r)
  {
    assert b[r..r + 4] == full[r..r + 4];
  }

  lemma HoldsBefore(b: Bytes, full: Bytes, r: nat, piece: Bytes)
    requires b <= full && Holds(full, r, piece) && r + |piece| <= |b|
    ensures Holds(b, r, piece)
  {
    assert b[r..r + |piece|] == full[r..r + |piece|];
  }

  /** A value that is cut is refused, or read with less than a word left over; its string part is then whole. */
  lemma {:induction false} ValueCut(b: Bytes, full: Bytes, r: nat, v: Value, dt: int)
    requires Storable(v) && ShortStrings(v) && CutsInto(b, full, r, Encode(v))
    ensures var p := Parse(b, r, dt); p.Parsed? ==> |b| < p.next + 4 && r + FIXED + |StrPart(v)| <= |b|
    decreases v, 1
  {
    hide Encode, EncodeElems, ReadInt32, Scalar, Holds, ParseElems, StrPart, Storable, ShortStrings;
    FieldsBack(full, r, v, dt);
    EncodeParts(v);
    ElemsProper(v);
    if r + FIXED <= |b| {
      SameWord(b, full, r + 20);
      var r1 := r + FIXED + |StrPart(v)|;
      if r1 + 4 <= |b| {
        SameWord(b, full, r1);
        ElemsCut(b, full, r1 + 4, v, 0);
      }
    }
  }

  lemma {:induction false} ElemsCut(b: Bytes, full: Bytes, r: nat, v: Value, i: nat)
    requires i <= |Elems(v)| && CutsInto(b, full, r, EncodeElems(v, i))
    requires forall j | 0 <= j < |Elems(v)| :: Storable(Elems(v)[j]) && ShortStrings(Elems(v)[j])
    ensures var p := ParseElems(b, r, |Elems(v)| - i); p.ParsedElems? ==> |b| < p.next + 4
    decreases v, 0, |Elems(v)| - i
  {
    hide Encode, Parse, ReadInt32, Holds, Int32, Storable, ShortStrings;
    if i < |Elems(v)| && r + 4 <= |b| {
      var e := Elems(v)[i];
      assert e in Elems(v);
      var tag, rest := Int32(Tag(e)), EncodeElems(v, i + 1);
      assert EncodeElems(v, i) == tag + (Encode(e) + rest);
      HoldsSplit(full, r, tag, Encode(e) + rest);
      HoldsSplit(full, r + 4, Encode(e), rest);
      TagBack(full, r, e);
      SameWord(b, full, r);
      if r + 4 + |Encode(e)| <= |b| {
        HoldsBefore(b, full, r + 4, Encode(e));
        ParseEncode(b, r + 4, e, Tag(e));
        ElemsCut(b, full, r + 4 + |Encode(e)|, v, i + 1);
      } else {
        ValueCut(b, full, r + 4, e, Tag(e));
      }
    }
  }

  /** The count and the elements that end the last value of an entry. */
  function TailSize(e: Entry): nat {
    4 + |EncodeElems(e.init, 0)|
  }

  /** An entry that is cut is refused, or only its last count and elements are missing. */
  lemma EntryCut(b: Bytes, full: Bytes, r: nat, e: Entry, pad: Bytes, p: Pool)
    requires SoundEntry(e) && |e.name| + 1 + |pad| == 256 && CutsInto(b, full, r, EntryBytes(e, pad))
    ensures var l := LoadEntry(b, r, p);
            l.Loaded? ==> |b| < l.next + 4 && r + |EntryBytes(e, pad)| <= |b| + TailSize(e)
  {
    hide Encode, EncodeElems, Int32, Holds, Parse, Restore, ReadInt32, CString, StrPart, Storable, ShortStrings;
    if r + ENTRY_FIXED <= |b| {
      var name, dt, so := e.name + [0] + pad, Int32(e.declared), Int32(e.offset);
      var v, iv := Encode(e.value), Encode(e.init);
      EntryBytesParts(e, pad);
      HoldsSplit(full, r, name, dt + (so + (v + iv)));
      HoldsSplit(full, r + 256, dt, so + (v + iv));
      HoldsSplit(full, r + 260, so, v + iv);
      HoldsSplit(full, r + 264, v, iv);
      WordBack(full, r + 256, e.declared);
      SameWord(b, full, r + 256);
      EncodeParts(e.init);
      if r + 264 + |v| <= |b| {
        HoldsBefore(b, full, r + 264, v);
        ParseEncode(b, r + 264, e.value, e.declared);
        ValueCut(b, full, r + 264 + |v|, e.init, e.declared);
      } else {
        ValueCut(b, full, r + 264, e.value, e.declared);
      }
    }
  }

  lemma {:induction false} EntriesCut(b: Bytes, full: Bytes, r: nat, p: Pool, pads: seq<Bytes>, i: nat)
    requires Sound(p) && Pads(p, pads) && i <= |p| && CutsInto(b, full, r, EntriesBytes(p, pads, i))
    ensures LoadEntries(b, r, |p| - i, CarryAll(p)[..i]).0 ==>
              p != [] && r + |EntriesBytes(p, pads, i)| <= |b| + TailSize(p[|p| - 1])
    decreases |p| - i
  {
    hide Holds, EntryBytes, LoadEntry, Carry, SmallEntry, SoundEntry, TailSize;
    if i < |p| {
      var e, acc := p[i], CarryAll(p)[..i];
      HoldsSplit(full, r, EntryBytes(e, pads[i]), EntriesBytes(p, pads, i + 1));
      if r + |EntryBytes(e, pads[i])| <= |b| {
        HoldsBefore(b, full, r, EntryBytes(e, pads[i]));
        CarryNames(p);
        LoadEntryBack(b, r, e, pads[i], acc);
        if SmallEntry(e) {
          assert acc + [Carry(e)] == CarryAll(p)[..i + 1];
          EntriesCut(b, full, r + |EntryBytes(e, pads[i])|, p, pads, i + 1);
        }
      } else {
        EntryCut(b, full, r, e, pads[i], acc);
        NothingMore(b, r, |p| - i, acc);
      }
    }
  }

  /** No entry fits in the bytes left by one that was cut. */
  lemma NothingMore(b: Bytes, r: nat, n: nat, acc: Pool)
    requires n > 0 && (LoadEntry(b, r, acc).Loaded? ==> |b| < LoadEntry(b, r, acc).next + 4)
    ensures LoadEntries(b, r, n, acc).0 ==> LoadEntry(b, r, acc).Loaded? && n == 1
  {
    if LoadEntry(b, r, acc).Loaded? && n > 1 {
      var l := LoadEntry(b, r, acc);
      assert LoadEntry(b, l.next, l.pool).Rejected?;
      assert LoadEntries(b, r, n, acc) == LoadEntries(b, l.next, n - 1, l.pool) == (false, l.pool);
    }
  }

  /**
   A snapshot of a pool that ends early is refused, unless only the elements of
   the last initial value are missing.
   */
  lemma CutPoolRefused(b: Bytes, p: Pool, pads: seq<Bytes>)
    requires Sound(p) && Pads(p, pads) && b <= Serialize(p, pads) && |b| < |Serialize(p, pads)|
    ensures Deserialize([], b).0 ==> p != [] && |Serialize(p, pads)| <= |b| + TailSize(p[|p| - 1])
  {
    hide EntriesBytes, LoadEntries, Int32, TailSize;
    var full := Serialize(p, pads);
    assert full[0..4] == Int32(|p|);
    assert Holds(full, 4, EntriesBytes(p, pads, 0));
    ReadInt32Back(full, 0, |p|);
    if |b| >= 4 {
      SameWord(b, full, 0);
      assert CarryAll(p)[..0] == [];
      EntriesCut(b, full, 4, p, pads, 0);
    }
  }
}
