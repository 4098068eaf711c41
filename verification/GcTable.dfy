/**
 The collector's table of tracked dyn objects: open addressing with tombstones
 and doubling, against the plain map it stands for.
 */
module GcTable {
  import opened Wire
  import opened BitWords
  import opened PrstPool

  type Ptr = nat

  const NULL: Ptr := 0

  datatype Slot = Empty | Used(ptr: Ptr, pins: nat, size: nat) | Dead

  datatype Info = Info(pins: nat, size: nat)

  type Table = map<Ptr, Info>

  /** FNV over the bytes of the pointer; the capacity is a power of two, so masking is reduction. */
  function Home(p: Ptr, cap: nat): (h: nat)
    requires cap > 0
    ensures h < cap
  {
    Unsigned(HashName(FNV_BASIS, Little(p, 8))) % cap
  }

  /** The `e`-th slot tried for `p`. */
  function Probe(p: Ptr, e: nat, cap: nat): (i: nat)
    requires cap > 0
    ensures i < cap
  {
    (Home(p, cap) + e) % cap
  }

  /** Within one round every slot is tried. */
  lemma ProbeCovers(p: Ptr, i: nat, cap: nat) returns (e: nat)
    requires i < cap
    ensures e < cap && Probe(p, e, cap) == i
  {
    hide Home;
    var h := Home(p, cap);
    e := if i >= h then i - h else i + cap - h;
    assert i < h ==> (h + e) % cap == (i + cap) % cap == i;
  }

  /** `p` sits at probe distance `d`, and no empty slot cuts the way to it. */
  ghost predicate Sits(s: seq<Slot>, p: Ptr, d: nat) {
    && d < |s| && s[Probe(p, d, |s|)].Used? && s[Probe(p, d, |s|)].ptr == p
    && forall e | 0 <= e < d :: !s[Probe(p, e, |s|)].Empty?
  }

  /** The slots denote the map: no key twice, nothing extra, every key reachable by probing. */
  ghost predicate Agrees(s: seq<Slot>, m: Table) {
    && (forall i | 0 <= i < |s| && s[i].Used? :: s[i].ptr in m && m[s[i].ptr] == Info(s[i].pins, s[i].size))
    && (forall i, j | 0 <= i < j < |s| && s[i].Used? && s[j].Used? :: s[i].ptr != s[j].ptr)
    && (forall p | p in m :: exists d: nat :: Sits(s, p, d))
  }

  /** Sizes of all tracked objects. */
  ghost function BytesOf(m: Table): nat
    decreases |m|
  {
    if m == map[] then 0
    else
      var p :| p in m;
      m[p].size + BytesOf(m - {p})
  }

  lemma {:induction false} BytesRemove(m: Table, p: Ptr)
    requires p in m
    ensures BytesOf(m) == m[p].size + BytesOf(m - {p})
    decreases |m|
  {
    var q :| q in m && BytesOf(m) == m[q].size + BytesOf(m - {q});
    if q != p {
      BytesRemove(m - {q}, p);
      BytesRemove(m - {p}, q);
      assert m - {q} - {p} == m - {p} - {q};
    }
  }

  lemma BytesInsert(m: Table, p: Ptr, i: Info)
    requires p !in m
    ensures BytesOf(m[p := i]) == BytesOf(m) + i.size && |m[p := i]| == |m| + 1
  {
    BytesRemove(m[p := i], p);
    assert m[p := i] - {p} == m;
  }

  lemma BytesRepin(m: Table, p: Ptr, pins: nat)
    requires p in m
    ensures BytesOf(m[p := Info(pins, m[p].size)]) == BytesOf(m) && |m[p := Info(pins, m[p].size)]| == |m|
  {
    var m' := m[p := Info(pins, m[p].size)];
    BytesRemove(m, p);
    BytesRemove(m', p);
    assert m - {p} == m' - {p};
    assert m'.Keys == m.Keys;
  }

  // ----- what each update of a slot keeps -----

  /** The first slot on the way that is not in use takes the new key. */
  lemma InsertAgrees(s: seq<Slot>, m: Table, p: Ptr, d: nat, i: Info)
    requires Agrees(s, m) && p !in m && d < |s| && !s[Probe(p, d, |s|)].Used?
    requires forall e | 0 <= e < d :: !s[Probe(p, e, |s|)].Empty?
    ensures Agrees(s[Probe(p, d, |s|) := Used(p, i.pins, i.size)], m[p := i])
  {
    hide Probe;
    var s' := s[Probe(p, d, |s|) := Used(p, i.pins, i.size)];
    assert Sits(s', p, d);
    forall q | q in m ensures exists d': nat :: Sits(s', q, d') {
      var d': nat :| Sits(s, q, d');
      assert Sits(s', q, d');
    }
  }

  lemma BuryAgrees(s: seq<Slot>, m: Table, i: nat)
    requires Agrees(s, m) && i < |s| && s[i].Used?
    ensures Agrees(s[i := Dead], m - {s[i].ptr}) && s[i].ptr in m && m[s[i].ptr] == Info(s[i].pins, s[i].size)
  {
    hide Probe;
    var s' := s[i := Dead];
    forall q | q in m - {s[i].ptr} ensures exists d: nat :: Sits(s', q, d) {
      var d: nat :| Sits(s, q, d);
      assert Sits(s', q, d);
    }
  }

  lemma RepinAgrees(s: seq<Slot>, m: Table, i: nat, pins: nat)
    requires Agrees(s, m) && i < |s| && s[i].Used?
    ensures s[i].ptr in m && m[s[i].ptr] == Info(s[i].pins, s[i].size)
    ensures Agrees(s[i := s[i].(pins := pins)], m[s[i].ptr := Info(pins, s[i].size)])
  {
    hide Probe;
    var s' := s[i := s[i].(pins := pins)];
    forall q | q in m ensures exists d: nat :: Sits(s', q, d) {
      var d: nat :| Sits(s, q, d);
      assert Sits(s', q, d);
    }
  }

  /** A way that ends at an empty slot, or comes full circle, without meeting `p` shows that `p` is not tracked. */
  lemma NotFound(s: seq<Slot>, m: Table, p: Ptr, d: nat)
    requires Agrees(s, m) && d <= |s| && (d < |s| ==> s[Probe(p, d, |s|)].Empty?)
    requires forall e | 0 <= e < d :: !(s[Probe(p, e, |s|)].Used? && s[Probe(p, e, |s|)].ptr == p)
    ensures p !in m
  {
    hide Probe;
    if p in m {
      var d': nat :| Sits(s, p, d');
    }
  }

  // ----- room -----

  /** The keys in the first `n` slots. */
  ghost function KeysOf(s: seq<Slot>, n: nat): set<Ptr>
    requires n <= |s|
  {
    set i | 0 <= i < n && s[i].Used? :: s[i].ptr
  }

  ghost predicate AllUsed(s: seq<Slot>, n: nat)
    requires n <= |s|
  {
    forall i | 0 <= i < n :: s[i].Used?
  }

  /** Distinct keys need distinct slots. */
  lemma {:induction false} KeysCount(s: seq<Slot>, m: Table, n: nat)
    requires Agrees(s, m) && n <= |s|
    ensures |KeysOf(s, n)| <= n && KeysOf(s, n) <= m.Keys && (AllUsed(s, n) ==> |KeysOf(s, n)| == n)
    decreases n
  {
    hide Sits;
    if n > 0 {
      KeysCount(s, m, n - 1);
      if s[n - 1].Used? {
        var p := s[n - 1].ptr;
        assert KeysOf(s, n) == KeysOf(s, n - 1) + {p};
        assert p !in KeysOf(s, n - 1);
      } else {
        assert KeysOf(s, n) == KeysOf(s, n - 1);
      }
    }
  }

  lemma TableFits(s: seq<Slot>, m: Table)
    requires Agrees(s, m)
    ensures |m| <= |s|
  {
    hide Probe;
    KeysCount(s, m, |s|);
    forall p | p in m ensures p in KeysOf(s, |s|) {
      var d: nat :| Sits(s, p, d);
      assert s[Probe(p, d, |s|)].ptr == p;
    }
    SubsetSize(m.Keys, KeysOf(s, |s|));
  }

  /** A table with more slots than keys has a slot that is not in use. */
  lemma RoomLeft(s: seq<Slot>, m: Table)
    requires Agrees(s, m) && |m| < |s|
    ensures exists i | 0 <= i < |s| :: !s[i].Used?
  {
    hide Agrees;
    if AllUsed(s, |s|) {
      KeysCount(s, m, |s|);
      SubsetSize(KeysOf(s, |s|), m.Keys);
    }
  }

  lemma {:induction false} SubsetSize(a: set<Ptr>, b: set<Ptr>)
    requires a <= b
    ensures |a| <= |b|
    decreases a
  {
    if a != {} {
      var x :| x in a;
      SubsetSize(a - {x}, b - {x});
    }
  }

  // ----- the table itself -----

  predicate PowerOfTwo(n: nat) {
    n == 1 || (n > 1 && n % 2 == 0 && PowerOfTwo(n / 2))
  }

  method NextPowerOfTwo(n: nat) returns (p: nat)
    ensures PowerOfTwo(p) && p >= n && (p > 1 ==> p / 2 < n)
  {
    p := 1;
    while p < n
      invariant PowerOfTwo(p) && (p > 1 ==> p / 2 < n)
      decreases n - p
    {
      p := p * 2;
    }
  }

  class Gc {
    var slots: array<Slot>
    var count: nat
    var totalBytes: nat
    ghost var table: Table

    ghost predicate Valid()
      reads this, slots
    {
      && Agrees(slots[..], table) && NULL !in table
      && count == |table| && totalBytes == BytesOf(table) && PowerOfTwo(slots.Length)
    }

    constructor (wanted: int)
      ensures Valid() && table == map[] && fresh(slots)
    {
      var c := NextPowerOfTwo(if wanted > 0 then wanted else 1024);
      slots := new Slot[c](_ => Empty);
      count, totalBytes, table := 0, 0, map[];
    }

    /** The slot of a tracked object; the probe ends at an empty slot or after one round. */
    method FindSlot(p: Ptr) returns (found: bool, at: nat)
      requires Valid()
      ensures found == (p in table)
      ensures found ==> at < slots.Length && slots[at].Used? && slots[at].ptr == p
      ensures found ==> table[p] == Info(slots[at].pins, slots[at].size)
    {
      hide Probe, PowerOfTwo;
      var cap := slots.Length;
      at := 0;
      var i := 0;
      while i < cap
        invariant i <= cap
        invariant forall e | 0 <= e < i :: !(slots[..][Probe(p, e, cap)].Used? && slots[..][Probe(p, e, cap)].ptr == p)
      {
        at := Probe(p, i, cap);
        if slots[at].Empty? {
          NotFound(slots[..], table, p, i);
          return false, at;
        }
        if slots[at].Used? && slots[at].ptr == p {
          assert slots[..][at].ptr in table;
          return true, at;
        }
        i := i + 1;
      }
      NotFound(slots[..], table, p, cap);
      return false, at;
    }

    method Pin(p: Ptr)
      requires Valid()
      modifies this, slots
      ensures Valid() && slots == old(slots)
      ensures table == if p in old(table) then old(table)[p := Info(old(table)[p].pins + 1, old(table)[p].size)]
                       else old(table)
    {
      hide Agrees, PowerOfTwo, BytesOf;
      var found, at := FindSlot(p);
      if found {
        SetPins(at, slots[at].pins + 1);
      }
    }

    method SetPins(at: nat, pins: nat)
      requires Valid() && at < slots.Length && slots[at].Used?
      modifies this, slots
      ensures Valid() && slots == old(slots) && slots[at] == old(slots[at]).(pins := pins)
      ensures old(slots[at]).ptr in old(table) && old(table)[old(slots[at]).ptr].pins == old(slots[at]).pins
      ensures table == old(table)[old(slots[at]).ptr := Info(pins, old(table)[old(slots[at]).ptr].size)]
    {
      hide Agrees, PowerOfTwo;
      ghost var s, p := slots[..], slots[at].ptr;
      RepinAgrees(s, table, at, pins);
      BytesRepin(table, p, pins);
      slots[at] := slots[at].(pins := pins);
      table := table[p := Info(pins, table[p].size)];
      assert slots[..] == s[at := s[at].(pins := pins)];
    }

    /** Whether the object has become unpinned; a count of zero stays zero. */
    method Unpin(p: Ptr) returns (zero: bool)
      requires Valid()
      modifies this, slots
      ensures Valid() && slots == old(slots)
      ensures table == if p in old(table) && old(table)[p].pins > 0
                       then old(table)[p := Info(old(table)[p].pins - 1, old(table)[p].size)] else old(table)
      ensures zero <==> p in table && table[p].pins == 0
    {
      hide Agrees, PowerOfTwo, BytesOf;
      var found, at := FindSlot(p);
      if !found { return false; }
      if slots[at].pins > 0 {
        SetPins(at, slots[at].pins - 1);
      }
      return slots[at].pins == 0;
    }

    method Bury(at: nat)
      requires Valid() && at < slots.Length && slots[at].Used?
      modifies this, slots
      ensures Valid() && slots == old(slots) && table == old(table) - {old(slots[at]).ptr}
      ensures old(slots[at]).ptr in old(table) && old(table)[old(slots[at]).ptr].pins == old(slots[at]).pins
      ensures slots[at].Dead? && forall j | 0 <= j < slots.Length && j != at :: slots[j] == old(slots[j])
    {
      hide Agrees, PowerOfTwo;
      ghost var s, p := slots[..], slots[at].ptr;
      BuryAgrees(s, table, at);
      BytesRemove(table, p);
      assert table == (table - {p})[p := table[p]];
      totalBytes := totalBytes - slots[at].size;
      count := count - 1;
      slots[at] := Dead;
      table := table - {p};
      assert slots[..] == s[at := Dead];
    }

    method Unregister(p: Ptr)
      requires Valid()
      modifies this, slots
      ensures Valid() && slots == old(slots) && table == old(table) - {p}
    {
      hide Agrees, PowerOfTwo, BytesOf;
      var found, at := FindSlot(p);
      if found {
        Bury(at);
      }
    }

    /** Puts a key into the first slot on its way that is not in use. */
    static method Place(a: array<Slot>, ghost m: Table, p: Ptr, i: Info)
      requires Agrees(a[..], m) && p !in m && |m| < a.Length
      modifies a
      ensures Agrees(a[..], m[p := i])
    {
      hide Probe, Agrees;
      var cap := a.Length;
      RoomLeft(a[..], m);
      ghost var free: nat :| free < cap && !a[free].Used?;
      ghost var last := ProbeCovers(p, free, cap);
      var d := 0;
      while a[Probe(p, d, cap)].Used?
        invariant d <= last
        invariant forall e | 0 <= e < d :: a[..][Probe(p, e, cap)].Used?
        decreases last - d
      {
        d := d + 1;
      }
      ghost var s := a[..];
      InsertAgrees(s, m, p, d, i);
      a[Probe(p, d, cap)] := Used(p, i.pins, i.size);
      assert a[..] == s[Probe(p, d, cap) := Used(p, i.pins, i.size)];
    }

    /** The keys of the first `n` slots, with what the table says of them. */
    ghost function Prefix(n: nat): Table
      requires n <= slots.Length && Valid()
      reads this, slots
    {
      map p | p in table && exists i | 0 <= i < n :: slots[i].Used? && slots[i].ptr == p :: table[p]
    }

    /** Doubles the capacity; the map stays the same and tombstones are gone. */
    method Grow()
      requires Valid()
      modifies this, slots
      ensures Valid() && fresh(slots) && slots.Length == 2 * old(slots.Length) && table == old(table)
    {
      hide Agrees, PowerOfTwo;
      var bigger := new Slot[2 * slots.Length](_ => Empty);
      EmptyAgrees(bigger[..]);
      ghost var m: Table := map[];
      assert Prefix(0) == m;
      var i := 0;
      while i < slots.Length
        invariant i <= slots.Length && fresh(bigger) && bigger.Length == 2 * slots.Length
        invariant Valid() && unchanged(this) && unchanged(slots)
        invariant m == Prefix(i) && Agrees(bigger[..], m)
      {
        PrefixStep(i);
        if slots[i].Used? {
          PrefixSmall(i);
          Place(bigger, m, slots[i].ptr, Info(slots[i].pins, slots[i].size));
          m := m[slots[i].ptr := Info(slots[i].pins, slots[i].size)];
        }
        i := i + 1;
      }
      PrefixWhole();
      Doubled(slots.Length);
      slots := bigger;
    }

    lemma PrefixStep(i: nat)
      requires Valid() && i < slots.Length
      ensures slots[i].Used? ==> slots[i].ptr !in Prefix(i)
      ensures Prefix(i + 1) == if !slots[i].Used? then Prefix(i)
                               else Prefix(i)[slots[i].ptr := Info(slots[i].pins, slots[i].size)]
    {
      hide Sits;
      var s := slots[..];
      if s[i].Used? {
        assert s[i].ptr in table && table[s[i].ptr] == Info(s[i].pins, s[i].size);
        forall j | 0 <= j < i && s[j].Used? ensures s[j].ptr != s[i].ptr { }
      }
    }

    lemma PrefixSmall(i: nat)
      requires Valid() && i < slots.Length && slots[i].Used?
      ensures |Prefix(i)| < 2 * slots.Length
    {
      TableFits(slots[..], table);
      SubsetSize(Prefix(i).Keys, table.Keys);
    }

    lemma PrefixWhole()
      requires Valid()
      ensures Prefix(slots.Length) == table
    {
      hide Probe;
      forall p | p in table ensures p in Prefix(slots.Length) {
        var d: nat :| Sits(slots[..], p, d);
        assert slots[Probe(p, d, slots.Length)].ptr == p;
      }
    }

    /** Tracks a new object, unpinned; `mem` is whether memory for a larger table is available. */
    method Register(p: Ptr, size: nat, mem: bool)
      requires Valid()
      modifies this, slots
      ensures Valid() && (slots == old(slots) || fresh(slots))
      ensures table == if p == NULL || p in old(table) || (!mem && 4 * |old(table)| >= 3 * old(slots.Length))
                       then old(table) else old(table)[p := Info(0, size)]
    {
      hide Agrees;
      if p == NULL { return; }
      var found, at := FindSlot(p);
      if found { return; }
      if count * 4 >= slots.Length * 3 {
        if !mem { return; }
        TableFits(slots[..], table);
        Grow();
      }
      BytesInsert(table, p, Info(0, size));
      Place(slots, table, p, Info(0, size));
      table := table[p := Info(0, size)];
      count, totalBytes := count + 1, totalBytes + size;
    }

    /** Frees exactly the unpinned objects, each once, and stops tracking them. */
    method Sweep() returns (freed: seq<Ptr>)
      requires Valid()
      modifies this, slots
      ensures Valid() && slots == old(slots)
      ensures table == Pinned(old(table))
      ensures forall p :: p in freed <==> p in old(table) && old(table)[p].pins == 0
      ensures forall i, j | 0 <= i < j < |freed| :: freed[i] != freed[j]
    {
      hide PowerOfTwo, BytesOf, Sits, Agrees;
      ghost var was := table;
      freed := [];
      if count == 0 {
        assert table == map[];
        return;
      }
      var i := 0;
      while i < slots.Length && count > 0
        invariant i <= slots.Length && Valid() && slots == old(slots)
        invariant Swept(was, table, freed)
        invariant forall j | 0 <= j < i && slots[j].Used? :: slots[j].pins > 0
      {
        if slots[i].Used? && slots[i].pins == 0 {
          ghost var p := slots[i].ptr;
          freed := freed + [slots[i].ptr];
          Bury(i);
        }
        i := i + 1;
      }
      AllPinned();
    }

    lemma AllPinned()
      requires Valid() && (count == 0 || forall j | 0 <= j < slots.Length && slots[j].Used? :: slots[j].pins > 0)
      ensures forall p | p in table :: table[p].pins > 0
    {
      hide Probe;
      forall p | p in table ensures table[p].pins > 0 {
        var d: nat :| Sits(slots[..], p, d);
        var j := Probe(p, d, slots.Length);
        assert slots[..][j].ptr == p && slots[j].Used?;
      }
    }
  }

  /** `freed` lists unpinned objects, each once, and `m` is what they leave. */
  ghost predicate Swept(was: Table, m: Table, freed: seq<Ptr>) {
    && (forall p :: p in m <==> p in was && p !in freed) && (forall p | p in m :: m[p] == was[p])
    && (forall p | p in freed :: p in was && was[p].pins == 0)
    && (forall j, k | 0 <= j < k < |freed| :: freed[j] != freed[k])
  }

  ghost function Pinned(m: Table): Table {
    map p | p in m && m[p].pins > 0 :: m[p]
  }

  lemma EmptyAgrees(s: seq<Slot>)
    requires forall i | 0 <= i < |s| :: s[i].Empty?
    ensures Agrees(s, map[])
  {
  }

  lemma Doubled(n: nat)
    requires PowerOfTwo(n)
    ensures PowerOfTwo(2 * n)
  {
    assert 2 * n / 2 == n;
  }
}
