/** The pool as an object that the runtime updates in place, writes out and reads in. */
module PoolStore {
  import opened Values
  import opened Wire
  import opened ValueCodec
  import opened ValueIo
  import opened PrstPool
  import opened Reload

  /** Bytes reserved for the entries from `i` on. */
  function EntriesSize(p: Pool, i: nat): nat
    requires i <= |p|
    decreases |p| - i
  {
    if i == |p| then 0 else ENTRY_FIXED + WireSize(p[i].value) + WireSize(p[i].init) + EntriesSize(p, i + 1)
  }

  predicate ShortEntry(e: Entry) {
    ShortStrings(e.value) && ShortStrings(e.init)
  }

  lemma EntrySizeIsExact(e: Entry, pad: Bytes)
    requires |e.name| + 1 + |pad| == 256
    ensures |EntryBytes(e, pad)| == ENTRY_FIXED + |Encode(e.value)| + |Encode(e.init)|
    ensures |EntryBytes(e, pad)| <= ENTRY_FIXED + WireSize(e.value) + WireSize(e.init)
    ensures |EntryBytes(e, pad)| == ENTRY_FIXED + WireSize(e.value) + WireSize(e.init)
            <==> ShortEntry(e)
  {
    hide Encode, Int32;
    SizeIsExact(e.value);
    SizeIsExact(e.init);
  }

  lemma EntriesStep(p: Pool, pads: seq<Bytes>, i: nat)
    requires Pads(p, pads) && i < |p|
    ensures EntriesBytes(p, pads, i) == EntryBytes(p[i], pads[i]) + EntriesBytes(p, pads, i + 1)
    ensures EntriesSize(p, i) == ENTRY_FIXED + WireSize(p[i].value) + WireSize(p[i].init) + EntriesSize(p, i + 1)
    ensures |EntryBytes(p[i], pads[i])| <= ENTRY_FIXED + WireSize(p[i].value) + WireSize(p[i].init)
  {
    hide EntryBytes, WireSize;
    EntrySizeIsExact(p[i], pads[i]);
  }

  /** The size computed before writing is enough, and exact unless a string is too long for its length field. */
  lemma {:induction false} EntriesSizeIsExact(p: Pool, pads: seq<Bytes>, i: nat)
    requires Pads(p, pads) && i <= |p|
    ensures |EntriesBytes(p, pads, i)| <= EntriesSize(p, i)
    ensures |EntriesBytes(p, pads, i)| == EntriesSize(p, i)
            <==> forall j | i <= j < |p| :: ShortEntry(p[j])
    decreases |p| - i
  {
    hide EntryBytes, EntriesBytes, EntriesSize, WireSize, ShortEntry;
    if i < |p| {
      EntriesStep(p, pads, i);
      EntrySizeIsExact(p[i], pads[i]);
      EntriesSizeIsExact(p, pads, i + 1);
      var rest := forall j | i + 1 <= j < |p| :: ShortEntry(p[j]);
      assert (forall j | i <= j < |p| :: ShortEntry(p[j])) <==> ShortEntry(p[i]) && rest;
    } else {
      EntriesEnd(p, pads);
    }
  }

  method WriteEntry(buf: array<Byte>, w: nat, e: Entry, pad: Bytes) returns (w': nat)
    requires |e.name| + 1 + |pad| == 256
    requires w + ENTRY_FIXED + WireSize(e.value) + WireSize(e.init) <= buf.Length
    modifies buf
    ensures w' == w + |EntryBytes(e, pad)| <= buf.Length
    ensures buf[..] == Splice(old(buf[..]), w, EntryBytes(e, pad))
  {
    hide Splice, Encode, Int32, WireSize;
    ghost var was := buf[..];
    var name, dt, so := e.name + [0] + pad, Int32(e.declared), Int32(e.offset);
    EntrySizeIsExact(e, pad);
    SizeIsExact(e.value);
    SizeIsExact(e.init);
    w' := Copy(buf, w, name);
    SpliceSplit(was, w, name, dt);
    w' := Copy(buf, w', dt);
    SpliceSplit(was, w, name + dt, so);
    w' := Copy(buf, w', so);
    SpliceSplit(was, w, name + dt + so, Encode(e.value));
    w' := SerValue(buf, w', e.value);
    SpliceSplit(was, w, name + dt + so + Encode(e.value), Encode(e.init));
    w' := SerValue(buf, w', e.init);
  }

  lemma EntriesEnd(p: Pool, pads: seq<Bytes>)
    requires |p| == |pads|
    ensures EntriesBytes(p, pads, |p|) == [] && EntriesSize(p, |p|) == 0
  {
  }

  method WriteEntries(buf: array<Byte>, w: nat, p: Pool, pads: seq<Bytes>) returns (w': nat)
    requires Pads(p, pads) && w + EntriesSize(p, 0) <= buf.Length
    modifies buf
    ensures w' == w + |EntriesBytes(p, pads, 0)| <= buf.Length
    ensures buf[..] == Splice(old(buf[..]), w, EntriesBytes(p, pads, 0))
  {
    hide Splice, EntriesBytes, EntriesSize, EntryBytes, WireSize;
    EntriesSizeIsExact(p, pads, 0);
    ghost var whole := EntriesBytes(p, pads, 0);
    ghost var target := Splice(buf[..], w, whole);
    w' := w;
    var i := 0;
    while i < |p|
      invariant i <= |p| && w' + EntriesSize(p, i) <= buf.Length
      invariant w' + |EntriesBytes(p, pads, i)| == w + |whole| <= buf.Length
      invariant Splice(buf[..], w', EntriesBytes(p, pads, i)) == target
    {
      EntriesStep(p, pads, i);
      SpliceSplit(buf[..], w', EntryBytes(p[i], pads[i]), EntriesBytes(p, pads, i + 1));
      w' := WriteEntry(buf, w', p[i], pads[i]);
      i := i + 1;
    }
    EntriesEnd(p, pads);
    SpliceNothing(buf[..], w');
  }

  lemma SpliceWhole(b: Bytes, piece: Bytes)
    requires |piece| <= |b|
    ensures Splice(b, 0, piece)[..|piece|] == piece
  {
  }

  class Store {
    var entries: Pool

    constructor ()
      ensures entries == []
    {
      entries := [];
    }

    method IndexOf(name: Name) returns (r: Option<nat>)
      ensures r == Find(entries, name)
    {
      var i := 0;
      while i < |entries|
        invariant i <= |entries| && Find(entries, name) == FindFrom(entries, name, i)
      {
        if entries[i].name == name { return Some(i); }
        i := i + 1;
      }
      return None;
    }

    /** A collision leaves the pool as it was; otherwise exactly one entry changes or one is added. */
    method Put(name: Name, v: Value) returns (r: Option<nat>)
      modifies this
      ensures match Set(old(entries), name, v)
              case None => r == None && entries == old(entries)
              case Some((p, i)) => r == Some(i) && entries == p
    {
      var at := IndexOf(name);
      match at {
        case Some(i) =>
          if entries[i].declared != Tag(v) { return None; }
          entries := entries[i := entries[i].(value := v)];
          r := Some(i);
        case None =>
          r := Some(|entries|);
          entries := entries + [Entry(Truncate(name), v, v, Tag(v), -1)];
      }
    }

    /**
     A `prst` declaration met while the program runs.  `src` is the value of the
     initializer where it is evaluated; the result is the value the variable
     starts with, `None` where the declaration fails.
     */
    method DeclarePrst(ops: FloatOps, d: Decl, src: Option<Value>) returns (start: Option<Value>, collided: bool)
      modifies this
      ensures match Reload.Declare(ops, old(entries), d, src)
              case Aborted(p) => start.None? && entries == p
              case Bound(p, v, c) => start == Some(v) && collided == c && entries == p
    {
      hide Edited;
      start, collided := None, false;
      var at := IndexOf(d.name);
      match at {
        case None =>
          if src.None? || !TypeOk(d, src.value) { return; }
          var i := Put(d.name, src.value);
          entries := entries[i.value := entries[i.value].(offset := d.offset)];
          start := src;
        case Some(i) =>
          var headstone, replayable := Headstone(entries[i]), Replayable(d.init);
          if (replayable || headstone) && src.None? { return; }
          if headstone {
            if !TypeOk(d, src.value) { return; }
            entries := entries[i := entries[i].(declared := Tag(src.value), value := src.value, offset := d.offset)];
            return src, false;
          }
          var edited := replayable && Edited(ops, src.value, entries[i].init);
          var chosen := if edited then src.value else entries[i].value;
          collided := entries[i].declared != Tag(chosen);
          if !collided {
            entries := entries[i := entries[i].(value := chosen)];
          }
          entries := entries[i := entries[i].(offset := d.offset)];
          if edited {
            entries := entries[i := entries[i].(init := src.value)];
          }
          start := Some(chosen);
      }
    }

    method Hash() returns (h: bv32)
      ensures h == Checksum(entries)
    {
      hide HashEntry;
      h := FNV_BASIS;
      var i := 0;
      while i < |entries|
        invariant i <= |entries| && HashEntries(h, entries[i..]) == Checksum(entries)
      {
        assert entries[i..][0] == entries[i] && entries[i..][1..] == entries[i + 1..];
        h := HashEntry(h, entries[i]);
        i := i + 1;
      }
    }

    /** The buffer has the precomputed size; `n` bytes of it are the snapshot. */
    method Save(pads: seq<Bytes>) returns (buf: array<Byte>, n: nat)
      requires Pads(entries, pads)
      ensures fresh(buf) && n <= buf.Length && buf[..n] == Serialize(entries, pads)
      ensures n == buf.Length <==> forall i | 0 <= i < |entries| :: ShortEntry(entries[i])
    {
      hide Splice, Int32, EntriesBytes, EntriesSize, ShortEntry;
      EntriesSizeIsExact(entries, pads, 0);
      buf := new Byte[4 + EntriesSize(entries, 0)];
      ghost var was := buf[..];
      SpliceSplit(was, 0, Int32(|entries|), EntriesBytes(entries, pads, 0));
      n := Copy(buf, 0, Int32(|entries|));
      n := WriteEntries(buf, n, entries, pads);
      SpliceWhole(was, Serialize(entries, pads));
    }

    method LoadOne(b: Bytes, r: nat) returns (r': nat, good: bool)
      modifies this
      ensures match LoadEntry(b, r, old(entries))
              case Rejected => !good && entries == old(entries)
              case Loaded(p, next) => good && entries == p && r' == next
    {
      hide Parse, ReadInt32;
      r' := r;
      if r + ENTRY_FIXED > |b| { return r, false; }
      var name := CString(b[r..r + NAME_MAX]);
      var dt, offset := ReadInt32(b, r + 256), ReadInt32(b, r + 260);
      var v := DeserValue(b, r + ENTRY_FIXED, dt);
      if v.Malformed? { return r, false; }
      var init := DeserValue(b, v.next, dt);
      if init.Malformed? { return r, false; }
      var at := Put(name, v.v);
      if at.Some? {
        entries := entries[at.value := entries[at.value].(declared := dt, offset := offset, init := init.v)];
      }
      return init.next, true;
    }

    /** Reads a snapshot; every byte string is handled and the pool is always well formed afterwards. */
    method Load(b: Bytes) returns (ok: bool)
      modifies this
      ensures (ok, entries) == Deserialize(old(entries), b)
      ensures ok ==> Restored(entries)
    {
      hide ReadInt32, LoadEntry, Restored;
      if |b| < 4 { return false; }
      var n := ReadInt32(b, 0);
      if n < 0 || n > MAX_ENTRIES { return false; }
      entries := [];
      var r, i := 4, 0;
      while i < n
        invariant i <= n && LoadEntries(b, r, n - i, entries) == LoadEntries(b, 4, n, [])
      {
        var good;
        r, good := LoadOne(b, r);
        if !good { return false; }
        i := i + 1;
      }
      AcceptedIsRestored(old(entries), b);
      ok := true;
    }
  }
}
