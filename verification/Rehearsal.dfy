/**
 One pass of a program over its `prst` declarations, seen one variable at a time,
 and the headstones that the Dry Run leaves in the place of resources.
 */
module Rehearsal {
  import opened Values
  import opened PrstPool
  import opened Reload

  predicate IsDyn(v: Value) {
    v.Handle? && v.kind == Dyn
  }

  function Bury(v: Value): Value {
    if IsDyn(v) then Nil else v
  }

  /** Resources of the rehearsal are given up; everything else stays. */
  function Headstoned(e: Entry): Entry {
    e.(value := Bury(e.value), init := Bury(e.init))
  }

  function HeadstoneAll(p: Pool): Pool {
    seq(|p|, i requires 0 <= i < |p| => Headstoned(p[i]))
  }

  /** One pass over the declarations from `i` on; `None` if one of them fails or collides. */
  function Pass(ops: FloatOps, p: Pool, ds: seq<Decl>, vs: seq<Option<Value>>, i: nat): Option<Pool>
    requires i <= |ds| == |vs|
    decreases |ds| - i
  {
    if i == |ds| then Some(p)
    else
      var r := Declare(ops, p, ds[i], vs[i]);
      if r.Aborted? || r.collided then None else Pass(ops, r.pool, ds, vs, i + 1)
  }

  // ----- one variable at a time -----

  /** What a pass has made of one variable: not in the pool, its entry, or a declaration that failed. */
  datatype Track = Absent | Has(e: Entry) | Broken

  function Lookup(p: Pool, x: Name): Track {
    match Find(p, x) case None => Absent case Some(i) => Has(p[i])
  }

  /** What a declaration makes of its variable. */
  function Effect(ops: FloatOps, t: Track, d: Decl, v: Option<Value>): Track {
    match t
    case Broken => Broken
    case Absent =>
      if v.None? || !TypeOk(d, v.value) then Broken
      else Has(Entry(d.name, v.value, v.value, Tag(v.value), d.offset))
    case Has(e) =>
      if Headstone(e) then
        if v.None? || !TypeOk(d, v.value) then Broken
        else Has(e.(value := v.value, declared := Tag(v.value), offset := d.offset))
      else if Replayable(d.init) && v.None? then Broken
      else if Replayable(d.init) && Edited(ops, v.value, e.init) then
        if e.declared != Tag(v.value) then Broken
        else Has(e.(value := v.value, init := v.value, offset := d.offset))
      else if e.declared != Tag(e.value) then Broken
      else Has(e.(offset := d.offset))
  }

  /** The effect of the declarations from `i` on, as far as they concern `x`. */
  function Fold(ops: FloatOps, t: Track, ds: seq<Decl>, vs: seq<Option<Value>>, i: nat, x: Name): Track
    requires i <= |ds| == |vs|
    decreases |ds| - i
  {
    if i == |ds| then t
    else Fold(ops, if ds[i].name == x then Effect(ops, t, ds[i], vs[i]) else t, ds, vs, i + 1, x)
  }

  lemma {:induction false} BrokenStays(ops: FloatOps, ds: seq<Decl>, vs: seq<Option<Value>>, i: nat, x: Name)
    requires i <= |ds| == |vs|
    ensures Fold(ops, Broken, ds, vs, i, x) == Broken
    decreases |ds| - i
  {
    if i < |ds| {
      BrokenStays(ops, ds, vs, i + 1, x);
    }
  }

  /** A declaration succeeds exactly when its effect does. */
  lemma DeclareSucceedsIff(ops: FloatOps, p: Pool, d: Decl, v: Option<Value>)
    ensures (Declare(ops, p, d, v).Bound? && !Declare(ops, p, d, v).collided)
            <==> !Effect(ops, Lookup(p, d.name), d, v).Broken?
  {
    hide Replayable, Edited, TypeOk;
  }

  /** Then it changes the entry of its own name only, and adds it if it is new. */
  lemma DeclareLookup(ops: FloatOps, p: Pool, d: Decl, v: Option<Value>, x: Name)
    requires Proper(d.name)
    requires var r := Declare(ops, p, d, v); r.Bound? && !r.collided
    ensures var p' := Declare(ops, p, d, v).pool;
            && Lookup(p', x) == (if d.name == x then Effect(ops, Lookup(p, x), d, v) else Lookup(p, x))
            && |p| <= |p'| && (forall j | 0 <= j < |p| :: p'[j].name == p[j].name)
            && (Find(p, d.name).Some? ==> |p'| == |p|)
            && (Find(p, d.name).None? ==> |p'| == |p| + 1 && p'[|p|].name == d.name)
  {
    hide Replayable, Edited, TypeOk;
    var p' := Declare(ops, p, d, v).pool;
    assert forall j | 0 <= j < |p| :: p'[j].name == p[j].name && (p[j].name != d.name ==> p'[j] == p[j]);
    match Find(p, x) {
      case Some(i) => assert Find(p', x) == Some(i);
      case None =>
        if d.name == x {
          assert p'[|p|].name == x;
          assert Find(p', x) == Some(|p|);
        } else {
          assert Find(p', x) == None;
        }
    }
  }

  predicate ProperDecls(ds: seq<Decl>) {
    forall i | 0 <= i < |ds| :: Proper(ds[i].name)
  }

  /** A pass does to each variable what its own declarations do. */
  lemma {:induction false} PassLookup(
    ops: FloatOps, p: Pool, ds: seq<Decl>, vs: seq<Option<Value>>, i: nat, x: Name)
    requires i <= |ds| == |vs| && ProperDecls(ds) && Pass(ops, p, ds, vs, i).Some?
    ensures Lookup(Pass(ops, p, ds, vs, i).value, x) == Fold(ops, Lookup(p, x), ds, vs, i, x)
    decreases |ds| - i
  {
    hide Declare, Effect, Lookup;
    if i < |ds| {
      DeclareLookup(ops, p, ds[i], vs[i], x);
      PassLookup(ops, Declare(ops, p, ds[i], vs[i]).pool, ds, vs, i + 1, x);
    }
  }

  /** It succeeds exactly when no variable's declarations fail. */
  lemma {:induction false} PassSucceedsIff(ops: FloatOps, p: Pool, ds: seq<Decl>, vs: seq<Option<Value>>, i: nat)
    requires i <= |ds| == |vs| && ProperDecls(ds)
    ensures Pass(ops, p, ds, vs, i).Some? <==> forall x :: !Fold(ops, Lookup(p, x), ds, vs, i, x).Broken?
    decreases |ds| - i
  {
    hide Declare, Effect, Lookup;
    if i == |ds| {
      forall x ensures !Lookup(p, x).Broken? { LookupFound(p, x); }
    } else {
      var r := Declare(ops, p, ds[i], vs[i]);
      DeclareSucceedsIff(ops, p, ds[i], vs[i]);
      if r.Bound? && !r.collided {
        forall x
          ensures Fold(ops, Lookup(p, x), ds, vs, i, x) == Fold(ops, Lookup(r.pool, x), ds, vs, i + 1, x)
        {
          DeclareLookup(ops, p, ds[i], vs[i], x);
        }
        PassSucceedsIff(ops, r.pool, ds, vs, i + 1);
      } else {
        BrokenStays(ops, ds, vs, i + 1, ds[i].name);
        assert Fold(ops, Lookup(p, ds[i].name), ds, vs, i, ds[i].name) == Broken;
      }
    }
  }

  lemma LookupFound(p: Pool, x: Name)
    ensures !Lookup(p, x).Broken?
  {
  }

  /** A declaration that changes the type of a live variable fails the pass, whatever comes after it. */
  lemma TypeChangeAborts(ops: FloatOps, p: Pool, ds: seq<Decl>, vs: seq<Option<Value>>, i: nat, k: nat)
    requires i < |ds| == |vs| && Find(p, ds[i].name) == Some(k) && p[k].declared == Tag(p[k].value) != 0
    requires Replayable(ds[i].init) && vs[i].Some? && Tag(vs[i].value) != p[k].declared
    requires Edited(ops, vs[i].value, p[k].init)
    ensures Pass(ops, p, ds, vs, i).None?
    ensures Declare(ops, p, ds[i], vs[i]).pool[k].value == p[k].value
  {
    hide Replayable, Edited;
  }

  // ----- names -----

  function NamesOf(p: Pool): seq<Name> {
    seq(|p|, i requires 0 <= i < |p| => p[i].name)
  }

  /** New names join at the end, in the order of their declarations. */
  function NamesAfter(ns: seq<Name>, ds: seq<Decl>, i: nat): seq<Name>
    requires i <= |ds|
    decreases |ds| - i
  {
    if i == |ds| then ns else NamesAfter(if ds[i].name in ns then ns else ns + [ds[i].name], ds, i + 1)
  }

  lemma {:induction false} PassNames(ops: FloatOps, p: Pool, ds: seq<Decl>, vs: seq<Option<Value>>, i: nat)
    requires i <= |ds| == |vs| && ProperDecls(ds) && Pass(ops, p, ds, vs, i).Some?
    ensures NamesOf(Pass(ops, p, ds, vs, i).value) == NamesAfter(NamesOf(p), ds, i)
    decreases |ds| - i
  {
    hide Declare, Lookup, Effect;
    if i < |ds| {
      var p' := Declare(ops, p, ds[i], vs[i]).pool;
      DeclareLookup(ops, p, ds[i], vs[i], ds[i].name);
      NameKnown(p, ds[i].name);
      assert NamesOf(p') == if ds[i].name in NamesOf(p) then NamesOf(p) else NamesOf(p) + [ds[i].name];
      PassNames(ops, p', ds, vs, i + 1);
    }
  }

  lemma NameKnown(p: Pool, x: Name)
    ensures Find(p, x).Some? <==> x in NamesOf(p)
  {
    if Find(p, x).Some? {
      assert NamesOf(p)[Find(p, x).value] == x;
    }
  }

  /** All declared names are known afterwards, so a second pass adds none. */
  lemma {:induction false} NamesSettled(ns: seq<Name>, ds: seq<Decl>, i: nat)
    requires i <= |ds|
    ensures forall n | n in ns :: n in NamesAfter(ns, ds, i)
    ensures forall j | i <= j < |ds| :: ds[j].name in NamesAfter(ns, ds, i)
    decreases |ds| - i
  {
    if i < |ds| {
      NamesSettled(if ds[i].name in ns then ns else ns + [ds[i].name], ds, i + 1);
    }
  }

  lemma {:induction false} NamesStay(ns: seq<Name>, ds: seq<Decl>, i: nat)
    requires i <= |ds| && forall j | i <= j < |ds| :: ds[j].name in ns
    ensures NamesAfter(ns, ds, i) == ns
    decreases |ds| - i
  {
    if i < |ds| {
      NamesStay(ns, ds, i + 1);
    }
  }

  predicate Unique(ns: seq<Name>) {
    forall a, b | 0 <= a < b < |ns| :: ns[a] != ns[b]
  }

  lemma {:induction false} NamesDistinct(ns: seq<Name>, ds: seq<Decl>, i: nat)
    requires i <= |ds| && Unique(ns)
    ensures Unique(NamesAfter(ns, ds, i))
    decreases |ds| - i
  {
    if i < |ds| {
      NamesDistinct(if ds[i].name in ns then ns else ns + [ds[i].name], ds, i + 1);
    }
  }

  lemma LookupAt(p: Pool, k: nat)
    requires k < |p| && Distinct(p)
    ensures NamesOf(p)[k] == p[k].name && Lookup(p, p[k].name) == Has(p[k])
  {
    assert Find(p, p[k].name) == Some(k);
  }

  lemma LookupHeadstoned(p: Pool, x: Name)
    ensures Lookup(HeadstoneAll(p), x) ==
      match Lookup(p, x) case Has(e) => Has(Headstoned(e)) case other => other
  {
    hide Headstoned;
    var h := HeadstoneAll(p);
    forall j | 0 <= j < |p| ensures h[j].name == p[j].name { HeadstoneKeepsName(p[j]); }
    assert Find(h, x) == Find(p, x);
  }

  lemma HeadstoneKeepsName(e: Entry)
    ensures Headstoned(e).name == e.name
  {
  }
}
