/** Which context reads which persistent variable: a deduplicated list of fixed-size records. */
module PrstGraph {
  import opened Values
  import opened Wire
  import opened ValueCodec
  import opened PrstPool

  const FIELD: nat := 256
  const DEP: nat := 512
  const CAP_DEFAULT: nat := 256
  const CAP_MAX: nat := 65536

  type Field = f: Bytes | |f| == FIELD witness seq(FIELD, _ => 0)

  /** The two name fields, byte for byte. */
  datatype Dep = Dep(name: Field, ctx: Field)

  type Graph = seq<Dep>

  /** `strncpy` into a field: truncated, and padded with zeros. */
  function ToField(s: Name): Field {
    var t := Truncate(s);
    t + seq(FIELD - |t|, _ => 0)
  }

  lemma FieldBack(s: Name)
    requires Proper(s)
    ensures CString(ToField(s)) == s
  {
    CStringOf(s, seq(FIELD - |s|, _ => 0));
  }

  // ----- checksum and snapshot -----

  function HashDep(h: bv32, d: Dep): bv32 {
    Flip(HashName(Flip(HashName(h, CString(d.name)), 0x1f), CString(d.ctx)), 0x1e)
  }

  function HashDeps(h: bv32, g: Graph): bv32
    decreases |g|
  {
    if g == [] then h else HashDeps(HashDep(h, g[0]), g[1..])
  }

  function GraphChecksum(g: Graph): bv32 {
    HashDeps(FNV_BASIS, g)
  }

  function DepsBytes(g: Graph): (b: Bytes)
    ensures |b| == DEP * |g|
  {
    if g == [] then [] else g[0].name + g[0].ctx + DepsBytes(g[1..])
  }

  function SerializeGraph(g: Graph): Bytes {
    Int32(|g|) + DepsBytes(g)
  }

  /** `n` records starting at `r`. */
  function ReadDeps(b: Bytes, r: nat, n: nat): (g: Graph)
    requires r + DEP * n <= |b|
    ensures |g| == n
    decreases n
  {
    if n == 0 then []
    else [Dep(b[r..r + FIELD], b[r + FIELD..r + DEP])] + ReadDeps(b, r + DEP, n - 1)
  }

  function DeserializeGraph(g: Graph, b: Bytes): (bool, Graph) {
    if |b| < 4 then (false, g)
    else
      var n := ReadInt32(b, 0);
      if n < 0 || n > CAP_MAX || |b| < 4 + DEP * n then (false, g) else (true, ReadDeps(b, 4, n))
  }

  lemma {:induction false} ReadDepsBack(b: Bytes, r: nat, g: Graph)
    requires Holds(b, r, DepsBytes(g))
    ensures ReadDeps(b, r, |g|) == g
    decreases |g|
  {
    if g != [] {
      var f1: Bytes, f2: Bytes, rest := g[0].name, g[0].ctx, DepsBytes(g[1..]);
      assert f1 + f2 + rest == f1 + (f2 + rest);
      HoldsSplit(b, r, f1, f2 + rest);
      HoldsSplit(b, r + FIELD, f2, rest);
      ReadDepsBack(b, r + DEP, g[1..]);
    }
  }

  /** A written graph reads back byte for byte; it is accepted exactly up to the cap. */
  lemma GraphRoundTrip(before: Graph, g: Graph)
    requires |g| < 0x8000_0000
    ensures DeserializeGraph(before, SerializeGraph(g)) == if |g| <= CAP_MAX then (true, g) else (false, before)
  {
    var b := SerializeGraph(g);
    assert b[0..4] == Int32(|g|);
    ReadInt32Back(b, 0, |g|);
    assert Holds(b, 4, DepsBytes(g));
    if |g| <= CAP_MAX {
      ReadDepsBack(b, 4, g);
    }
  }

  // ----- what the checksum notices -----

  /** The two records differ in one byte of one name. */
  predicate OneByteDiffers(d: Dep, e: Dep) {
    || (OneByteOff(CString(d.name), CString(e.name)) && d.ctx == e.ctx)
    || (OneByteOff(CString(d.ctx), CString(e.ctx)) && d.name == e.name)
  }

  lemma DepNoticed(h: bv32, d: Dep, e: Dep)
    requires OneByteDiffers(d, e)
    ensures HashDep(h, d) != HashDep(h, e)
  {
    hide HashName, Flip, OneByteOff, CString;
    var x, y := HashName(h, CString(d.name)), HashName(h, CString(e.name));
    var a, b := HashName(Flip(x, 0x1f), CString(d.ctx)), HashName(Flip(y, 0x1f), CString(e.ctx));
    Unflipped(a, 0x1e);
    Unflipped(b, 0x1e);
    Unflipped(x, 0x1f);
    Unflipped(y, 0x1f);
    if d.ctx == e.ctx && a == b {
      NameInjective(Flip(x, 0x1f), Flip(y, 0x1f), CString(d.ctx));
      if OneByteOff(CString(d.name), CString(e.name)) {
        NameNoticed(h, CString(d.name), CString(e.name));
      }
    }
    if OneByteOff(CString(d.ctx), CString(e.ctx)) && d.name == e.name {
      NameNoticed(Flip(x, 0x1f), CString(d.ctx), CString(e.ctx));
    }
  }

  lemma DepInjective(h: bv32, h': bv32, d: Dep)
    requires HashDep(h, d) == HashDep(h', d)
    ensures h == h'
  {
    hide HashName, Flip, CString;
    var x, y := HashName(h, CString(d.name)), HashName(h', CString(d.name));
    Unflipped(HashName(Flip(x, 0x1f), CString(d.ctx)), 0x1e);
    Unflipped(HashName(Flip(y, 0x1f), CString(d.ctx)), 0x1e);
    NameInjective(Flip(x, 0x1f), Flip(y, 0x1f), CString(d.ctx));
    Unflipped(x, 0x1f);
    Unflipped(y, 0x1f);
    NameInjective(h, h', CString(d.name));
  }

  lemma {:induction false} DepsInjective(h: bv32, h': bv32, g: Graph)
    requires HashDeps(h, g) == HashDeps(h', g)
    ensures h == h'
    decreases |g|
  {
    hide HashDep;
    if g != [] {
      DepsInjective(HashDep(h, g[0]), HashDep(h', g[0]), g[1..]);
      DepInjective(h, h', g[0]);
    }
  }

  lemma {:induction false} DepsNoticed(h: bv32, g: Graph, i: nat, d: Dep)
    requires i < |g| && OneByteDiffers(g[i], d)
    ensures HashDeps(h, g[i := d]) != HashDeps(h, g)
    decreases |g|
  {
    hide HashDep, OneByteDiffers;
    if i == 0 {
      assert g[0 := d][1..] == g[1..];
      DepNoticed(h, g[0], d);
      if HashDeps(h, g[0 := d]) == HashDeps(h, g) {
        DepsInjective(HashDep(h, d), HashDep(h, g[0]), g[1..]);
      }
    } else {
      assert g[i := d][1..] == g[1..][i - 1 := d];
      DepsNoticed(HashDep(h, g[0]), g[1..], i - 1, d);
    }
  }

  /** A byte changed in a name of any record is always noticed. */
  lemma GraphCorruptionNoticed(g: Graph, i: nat, d: Dep)
    requires i < |g| && OneByteDiffers(g[i], d)
    ensures GraphChecksum(g[i := d]) != GraphChecksum(g)
  {
    hide OneByteDiffers, HashDeps;
    DepsNoticed(FNV_BASIS, g, i, d);
  }

  // ----- recording and invalidating -----

  predicate Reads(d: Dep, name: Name, ctx: Name) {
    CString(d.name) == name && CString(d.ctx) == ctx
  }

  ghost predicate Known(g: Graph, name: Name, ctx: Name) {
    exists i | 0 <= i < |g| :: Reads(g[i], name, ctx)
  }

  ghost predicate PairsDistinct(g: Graph) {
    forall i, j | 0 <= i < j < |g| ::
      !(CString(g[i].name) == CString(g[j].name) && CString(g[i].ctx) == CString(g[j].ctx))
  }

  lemma RecordedOnce(g: Graph, name: Name, ctx: Name)
    requires Proper(name) && Proper(ctx) && !Known(g, name, ctx)
    ensures var g' := g + [Dep(ToField(name), ToField(ctx))];
            Known(g', name, ctx) && (PairsDistinct(g) ==> PairsDistinct(g'))
  {
    hide ToField, CString;
    FieldBack(name);
    FieldBack(ctx);
    var g' := g + [Dep(ToField(name), ToField(ctx))];
    assert Reads(g'[|g|], name, ctx);
    forall i | 0 <= i < |g| ensures !Reads(g'[i], name, ctx) {
      assert g'[i] == g[i];
    }
  }

  /** Records of other variables occur as often in both graphs. */
  ghost predicate SameOthers(g: Graph, g0: Graph, name: Name) {
    forall d: Dep | CString(d.name) != name :: multiset(g)[d] == multiset(g0)[d]
  }

  lemma SameAsSelf(g: Graph, name: Name)
    ensures SameOthers(g, g, name)
  {
  }

  lemma OthersStay(g: Graph, i: nat, g0: Graph, name: Name)
    requires i < |g| && CString(g[i].name) == name && SameOthers(g, g0, name)
    ensures SameOthers(g[i := g[|g| - 1]][..|g| - 1], g0, name)
  {
    hide CString;
    SwapRemoved(g, i);
  }

  class DepGraph {
    var deps: Graph
    var cap: nat

    ghost predicate Valid()
      reads this
    {
      |deps| <= cap <= CAP_MAX
    }

    constructor (wanted: int)
      ensures Valid() && deps == []
    {
      deps := [];
      cap := if wanted <= 0 || wanted > CAP_MAX then CAP_DEFAULT else wanted;
    }

    /** A new pair is appended unless the graph has reached its absolute cap. */
    method Record(name: Name, ctx: Name)
      requires Valid()
      modifies this
      ensures Valid()
      ensures deps == if Known(old(deps), name, ctx) || |old(deps)| == CAP_MAX then old(deps)
                      else old(deps) + [Dep(ToField(name), ToField(ctx))]
      ensures old(PairsDistinct(deps)) && Proper(name) && Proper(ctx) ==>
                PairsDistinct(deps) && (Known(deps, name, ctx) || |deps| == CAP_MAX)
    {
      hide CString, ToField, PairsDistinct, Reads;
      var i := 0;
      while i < |deps|
        invariant i <= |deps| && forall j | 0 <= j < i :: !Reads(deps[j], name, ctx)
      {
        if Reads(deps[i], name, ctx) { return; }
        i := i + 1;
      }
      if |deps| >= cap {
        var newCap := if cap > 0 then cap * 2 else CAP_DEFAULT;
        if newCap > CAP_MAX { newCap := CAP_MAX; }
        if |deps| >= newCap { return; }
        cap := newCap;
      }
      if Proper(name) && Proper(ctx) {
        RecordedOnce(deps, name, ctx);
      }
      deps := deps + [Dep(ToField(name), ToField(ctx))];
    }

    /** Swap-removes every record of the variable; the others stay, in some order. */
    method Invalidate(name: Name)
      requires Valid()
      modifies this
      ensures Valid()
      ensures SameOthers(deps, old(deps), name)
      ensures forall i | 0 <= i < |deps| :: CString(deps[i].name) != name
    {
      hide CString, SameOthers;
      SameAsSelf(deps, name);
      var i := 0;
      while i < |deps|
        invariant i <= |deps| <= |old(deps)| && cap == old(cap)
        invariant forall j | 0 <= j < i :: CString(deps[j].name) != name
        invariant SameOthers(deps, old(deps), name)
        decreases |deps| - i
      {
        if CString(deps[i].name) == name {
          OthersStay(deps, i, old(deps), name);
          deps := deps[i := deps[|deps| - 1]][..|deps| - 1];
        } else {
          i := i + 1;
        }
      }
    }

    method Load(b: Bytes) returns (ok: bool)
      modifies this
      ensures (ok, deps) == DeserializeGraph(old(deps), b)
      ensures ok ==> Valid()
    {
      if |b| < 4 { return false; }
      var n := ReadInt32(b, 0);
      if n < 0 || n > CAP_MAX { return false; }
      if |b| < 4 + DEP * n { return false; }
      deps, cap := ReadDeps(b, 4, n), if n > CAP_DEFAULT then n else CAP_DEFAULT;
      ok := true;
    }

    method Hash() returns (h: bv32)
      ensures h == GraphChecksum(deps)
    {
      hide HashDep;
      h := FNV_BASIS;
      var i := 0;
      while i < |deps|
        invariant i <= |deps| && HashDeps(h, deps[i..]) == GraphChecksum(deps)
      {
        assert deps[i..][0] == deps[i] && deps[i..][1..] == deps[i + 1..];
        h := HashDep(h, deps[i]);
        i := i + 1;
      }
    }
  }

  lemma SwapRemoved(g: Graph, i: nat)
    requires i < |g|
    ensures multiset(g[i := g[|g| - 1]][..|g| - 1]) == multiset(g) - multiset{g[i]}
  {
    var n := |g| - 1;
    var h := g[i := g[n]][..n];
    assert g == g[..n] + [g[n]];
    if i == n {
      assert h == g[..n];
    } else {
      assert g[..n] == g[..i] + [g[i]] + g[i + 1..n];
      assert h == g[..i] + [g[n]] + g[i + 1..n];
    }
  }
}
