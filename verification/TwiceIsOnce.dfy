/**
 Applying a program's declarations in the Dry Run and again live is applying them
 once.  A declaration may run any number of times; the proof follows one variable
 through both passes side by side.
 */
module TwiceIsOnce {
  import opened Values
  import opened ValueCodec
  import opened PrstPool
  import opened Reload
  import opened Rehearsal

  // ----- what the two runs share -----

  /** Literals are integers, floats, booleans and strings. */
  predicate LitTag(t: int) {
    1 <= t <= 4
  }

  /** Literals evaluate alike; a resource opened in the rehearsal can be opened again. */
  predicate SameSource(d: Decl, dry: Option<Value>, live: Option<Value>) {
    && (Replayable(d.init) ==> dry == live && (dry.Some? ==> LitTag(Tag(dry.value))))
    && (dry.Some? && IsDyn(dry.value) ==> live.Some? && IsDyn(live.value) && TypeOk(d, live.value))
  }

  /** The values the initializers give in the rehearsal and live. */
  ghost predicate SameProgram(ds: seq<Decl>, dry: seq<Option<Value>>, live: seq<Option<Value>>) {
    && |dry| == |ds| == |live|
    && forall i | 0 <= i < |ds| :: SameSource(ds[i], dry[i], live[i])
  }

  /** Resources come from the live run, everything else from the first evaluation. */
  function Merged(dry: Option<Value>, live: Option<Value>): Option<Value> {
    if dry.Some? && IsDyn(dry.value) then live else dry
  }

  function MergedAll(dry: seq<Option<Value>>, live: seq<Option<Value>>): (vs: seq<Option<Value>>)
    requires |dry| == |live|
    ensures |vs| == |dry|
  {
    seq(|dry|, i requires 0 <= i < |dry| => Merged(dry[i], live[i]))
  }

  predicate SameState(e: Entry, once: Entry) {
    e.name == once.name && e.value == once.value && e.declared == once.declared && e.offset == once.offset
  }

  /** The baseline of a resource is a headstone. */
  predicate SameBaseline(e: Entry, once: Entry) {
    e.init == Bury(once.init)
  }

  // ----- entries -----

  /** An entry as a snapshot carries it: no resources, and types as declared or nil. */
  predicate Settled(e: Entry) {
    && !IsDyn(e.value) && !IsDyn(e.init)
    && (Tag(e.value) == e.declared || (e.value.Nil? && !LitTag(e.declared)))
    && (Tag(e.init) == e.declared || e.init.Nil?)
  }

  /** An entry that holds a value of its declared type and no resource. */
  predicate Stable(e: Entry) {
    && !IsDyn(e.value) && !IsDyn(e.init) && e.declared == Tag(e.value)
    && (LitTag(Tag(e.init)) ==> Tag(e.init) == e.declared)
  }

  predicate Resource(e: Entry) {
    IsDyn(e.value) && e.declared == Tag(e.value) && !LitTag(Tag(e.init))
  }

  lemma SettledKinds(e: Entry)
    requires Settled(e)
    ensures !Headstone(e) ==> Stable(e)
    ensures Headstone(e) ==> !LitTag(Tag(e.init))
  {
  }

  /** The offset the last of a variable's declarations leaves. */
  function LastOffset(ds: seq<Decl>, i: nat, x: Name, otherwise: int): int
    requires i <= |ds|
    decreases |ds| - i
  {
    if i == |ds| then otherwise else LastOffset(ds, i + 1, x, if ds[i].name == x then ds[i].offset else otherwise)
  }

  ghost predicate NoneReplayed(ds: seq<Decl>, i: nat, x: Name)
    requires i <= |ds|
  {
    forall j | i <= j < |ds| && ds[j].name == x :: !Replayable(ds[j].init)
  }

  /** Where nothing is replayed, a held value stays, whatever the initializers would give. */
  lemma {:induction false} Keeps(ops: FloatOps, e: Entry, ds: seq<Decl>, vs: seq<Option<Value>>, i: nat, x: Name)
    requires i <= |ds| == |vs| && NoneReplayed(ds, i, x) && (Stable(e) || Resource(e))
    ensures Fold(ops, Has(e), ds, vs, i, x) == Has(e.(offset := LastOffset(ds, i, x, e.offset)))
    decreases |ds| - i
  {
    hide Edited;
    if i < |ds| {
      Keeps(ops, if ds[i].name == x then e.(offset := ds[i].offset) else e, ds, vs, i + 1, x);
    }
  }

  // ----- resources -----

  /** A resource is never replaced by a literal: a pass that succeeds replays nothing after it. */
  lemma {:induction false} ResourceStays(
    ops: FloatOps, e: Entry, ds: seq<Decl>, dry: seq<Option<Value>>, live: seq<Option<Value>>, i: nat, x: Name)
    requires SameProgram(ds, dry, live) && i <= |ds| && Resource(e) && Fold(ops, Has(e), ds, dry, i, x).Has?
    ensures NoneReplayed(ds, i, x)
    decreases |ds| - i
  {
    if i < |ds| {
      if ds[i].name == x {
        assert SameSource(ds[i], dry[i], live[i]);
        if Replayable(ds[i].init) {
          BrokenStays(ops, ds, dry, i + 1, x);
        }
        ResourceStays(ops, e.(offset := ds[i].offset), ds, dry, live, i + 1, x);
      } else {
        ResourceStays(ops, e, ds, dry, live, i + 1, x);
      }
    }
  }

  // ----- plain values -----

  /** Plain values stay plain, their type stays, and the live run's resources play no part. */
  lemma {:induction false} PlainStays(
    ops: FloatOps, e: Entry, ds: seq<Decl>, dry: seq<Option<Value>>, live: seq<Option<Value>>, i: nat, x: Name)
    requires SameProgram(ds, dry, live) && i <= |ds| && Stable(e) && Fold(ops, Has(e), ds, dry, i, x).Has?
    ensures var r := Fold(ops, Has(e), ds, dry, i, x).e;
            Stable(r) && r.declared == e.declared && r.name == e.name && r.offset == LastOffset(ds, i, x, e.offset)
    ensures Fold(ops, Has(e), ds, MergedAll(dry, live), i, x) == Fold(ops, Has(e), ds, dry, i, x)
    decreases |ds| - i
  {
    hide Edited;
    if i < |ds| {
      if ds[i].name == x {
        assert SameSource(ds[i], dry[i], live[i]);
        var t := Effect(ops, Has(e), ds[i], dry[i]);
        if t.Broken? {
          BrokenStays(ops, ds, dry, i + 1, x);
        } else {
          PlainStays(ops, t.e, ds, dry, live, i + 1, x);
        }
      } else {
        PlainStays(ops, e, ds, dry, live, i + 1, x);
      }
    }
  }

  /** The live run has caught up with the rehearsal. */
  predicate Level(a: Entry, b: Entry) {
    a.value == b.value && a.init == b.init
  }

  /** The live run has taken a literal the rehearsal passed over; it cannot stay that way. */
  ghost predicate Ahead(ops: FloatOps, a: Entry, b: Entry, end: Entry) {
    LitTag(Tag(b.init)) && b.value == b.init && !Edited(ops, b.init, a.init) && Edited(ops, b.init, end.init)
  }

  /** The live run has made its baseline the literal that replaced a headstone. */
  ghost predicate Rebased(ops: FloatOps, a: Entry, b: Entry, end: Entry) {
    LitTag(Tag(b.init)) && b.value == b.init == a.value && !LitTag(Tag(a.init)) && Edited(ops, b.init, end.init)
  }

  /**
   How the live entry `b` can relate to the rehearsal's entry `a`, whose pass ends
   in `end`; `strict` where no literal has replaced a headstone.
   */
  ghost predicate Follows(ops: FloatOps, strict: bool, a: Entry, b: Entry, end: Entry) {
    && Stable(a) && Stable(b) && a.name == b.name && a.declared == b.declared
    && (Level(a, b) || Level(end, b) || Ahead(ops, a, b, end) || (!strict && Rebased(ops, a, b, end)))
  }

  /** Literals the runtime takes for equal are told apart from the same others. */
  lemma EditedAlike(ops: FloatOps, l: Value, y: Value, z: Value)
    requires EqIsPartialEquivalence(ops) && LitTag(Tag(y)) && !Edited(ops, y, z)
    ensures Edited(ops, l, y) == Edited(ops, l, z)
    ensures !Edited(ops, z, y)
  {
  }

  /** One declaration of the variable keeps the relation. */
  lemma FollowsStep(
    ops: FloatOps, strict: bool, a: Entry, b: Entry, end: Entry, d: Decl, dry: Option<Value>, live: Option<Value>)
    requires EqIsPartialEquivalence(ops) && SameSource(d, dry, live) && Follows(ops, strict, a, b, end)
    requires Effect(ops, Has(a), d, dry).Has?
    ensures Effect(ops, Has(b), d, live).Has?
    ensures Follows(ops, strict, Effect(ops, Has(a), d, dry).e, Effect(ops, Has(b), d, live).e, end)
  {
    if Replayable(d.init) {
      var l := dry.value;
      if Ahead(ops, a, b, end) {
        EditedAlike(ops, l, b.init, a.init);
      }
      if Rebased(ops, a, b, end) && !Edited(ops, l, b.init) {
        EditedAlike(ops, l, l, b.init);
      }
    }
  }

  /** So the live pass ends where the rehearsal ended. */
  lemma {:induction false} LiveFollows(
    ops: FloatOps, strict: bool, a: Entry, b: Entry, end: Entry,
    ds: seq<Decl>, dry: seq<Option<Value>>, live: seq<Option<Value>>, i: nat, x: Name)
    requires EqIsPartialEquivalence(ops) && SameProgram(ds, dry, live) && i <= |ds|
    requires Follows(ops, strict, a, b, end) && Fold(ops, Has(a), ds, dry, i, x) == Has(end)
    ensures var r := Fold(ops, Has(b), ds, live, i, x);
            && r.Has? && r.e.name == end.name && r.e.value == end.value && r.e.declared == end.declared
            && r.e.offset == LastOffset(ds, i, x, b.offset) && (strict ==> r.e.init == end.init)
    decreases |ds| - i
  {
    hide Effect;
    if i == |ds| {
      EndReached(ops, strict, b, end);
    } else if ds[i].name == x {
      assert SameSource(ds[i], dry[i], live[i]);
      var t := Effect(ops, Has(a), ds[i], dry[i]);
      if t.Broken? {
        BrokenStays(ops, ds, dry, i + 1, x);
      } else {
        EffectHas(ops, a, ds[i], dry[i]);
        FollowsStep(ops, strict, a, b, end, ds[i], dry[i], live[i]);
        EffectHas(ops, b, ds[i], live[i]);
        LiveFollows(ops, strict, t.e, Effect(ops, Has(b), ds[i], live[i]).e, end, ds, dry, live, i + 1, x);
      }
    } else {
      LiveFollows(ops, strict, a, b, end, ds, dry, live, i + 1, x);
    }
  }

  lemma EffectHas(ops: FloatOps, e: Entry, d: Decl, v: Option<Value>)
    ensures var t := Effect(ops, Has(e), d, v); !t.Absent? && (t.Has? ==> t.e.offset == d.offset)
  {
  }

  lemma EndReached(ops: FloatOps, strict: bool, b: Entry, end: Entry)
    requires Follows(ops, strict, end, b, end)
    ensures b.name == end.name && b.value == end.value && b.declared == end.declared
    ensures strict ==> b.init == end.init
  {
  }

  // ----- one variable, from the snapshot to the end of the live run -----

  /** A literal takes the place of a headstone. */
  predicate Replaces(t: Track, d: Decl) {
    t.Has? && Headstone(t.e) && Replayable(d.init)
  }

  ghost predicate NothingReplaced(t: Track, ds: seq<Decl>, i: nat, x: Name)
    requires i <= |ds|
  {
    forall j | i <= j < |ds| && ds[j].name == x :: !Replaces(t, ds[j])
  }

  /** The variable starts out as the snapshot carries it, if it is there at all. */
  predicate CarriedTrack(t: Track, x: Name) {
    t.Absent? || (t.Has? && Settled(t.e) && t.e.name == x)
  }

  /** Rehearsed, given up, run live; against a single pass. */
  ghost predicate Agrees(
    ops: FloatOps, t: Track, end: Entry,
    ds: seq<Decl>, dry: seq<Option<Value>>, live: seq<Option<Value>>, i: nat, x: Name)
    requires i <= |ds| == |dry| == |live|
  {
    var twice := Fold(ops, Has(Headstoned(end)), ds, live, i, x);
    var once := Fold(ops, t, ds, MergedAll(dry, live), i, x);
    && twice.Has? && once.Has? && SameState(twice.e, once.e)
    && (NothingReplaced(t, ds, i, x) ==> SameBaseline(twice.e, once.e))
  }

  /** The first declaration of the variable opens a resource. */
  lemma ResourceFirst(
    ops: FloatOps, t: Track, end: Entry,
    ds: seq<Decl>, dry: seq<Option<Value>>, live: seq<Option<Value>>, i: nat, x: Name)
    requires SameProgram(ds, dry, live) && i < |ds| && ds[i].name == x && CarriedTrack(t, x)
    requires Effect(ops, t, ds[i], dry[i]).Has? && Resource(Effect(ops, t, ds[i], dry[i]).e)
    requires Fold(ops, t, ds, dry, i, x) == Has(end)
    ensures Agrees(ops, t, end, ds, dry, live, i, x)
  {
    hide Edited;
    assert SameSource(ds[i], dry[i], live[i]);
    var a := Effect(ops, t, ds[i], dry[i]).e;
    ResourceStays(ops, a, ds, dry, live, i + 1, x);
    Keeps(ops, a, ds, dry, i + 1, x);
    var b := Effect(ops, Has(Headstoned(end)), ds[i], live[i]);
    Keeps(ops, b.e, ds, live, i + 1, x);
    var c := Effect(ops, t, ds[i], Merged(dry[i], live[i]));
    Keeps(ops, c.e, ds, MergedAll(dry, live), i + 1, x);
  }

  /** The first declaration of the variable finds or makes a plain value. */
  lemma PlainFirst(
    ops: FloatOps, t: Track, end: Entry,
    ds: seq<Decl>, dry: seq<Option<Value>>, live: seq<Option<Value>>, i: nat, x: Name)
    requires EqIsPartialEquivalence(ops) && SameProgram(ds, dry, live)
    requires i < |ds| && ds[i].name == x && CarriedTrack(t, x)
    requires Effect(ops, t, ds[i], dry[i]).Has? && Stable(Effect(ops, t, ds[i], dry[i]).e)
    requires Fold(ops, t, ds, dry, i, x) == Has(end)
    ensures Agrees(ops, t, end, ds, dry, live, i, x)
  {
    assert SameSource(ds[i], dry[i], live[i]);
    var a := Effect(ops, t, ds[i], dry[i]).e;
    PlainStays(ops, a, ds, dry, live, i + 1, x);
    assert Headstoned(end) == end;
    var strict := !Replaces(t, ds[i]);
    FirstStep(ops, t, end, ds[i], dry[i], live[i], x);
    var b := Effect(ops, Has(end), ds[i], live[i]).e;
    LiveFollows(ops, strict, a, b, end, ds, dry, live, i + 1, x);
  }

  lemma FirstStep(
    ops: FloatOps, t: Track, end: Entry, d: Decl, dry: Option<Value>, live: Option<Value>, x: Name)
    requires SameSource(d, dry, live) && CarriedTrack(t, x) && d.name == x && Stable(end)
    requires Effect(ops, t, d, dry).Has? && Stable(Effect(ops, t, d, dry).e)
    requires end.name == x && end.declared == Effect(ops, t, d, dry).e.declared
    ensures Effect(ops, Has(end), d, live).Has? && Effect(ops, Has(end), d, live).e.offset == d.offset
    ensures Follows(ops, !Replaces(t, d), Effect(ops, t, d, dry).e, Effect(ops, Has(end), d, live).e, end)
    ensures Effect(ops, t, d, Merged(dry, live)) == Effect(ops, t, d, dry)
  {
    if t.Has? {
      SettledKinds(t.e);
    }
  }

  /** However often and in whatever order a variable's declarations run. */
  lemma {:induction false} VariableTwice(
    ops: FloatOps, t: Track, ds: seq<Decl>, dry: seq<Option<Value>>, live: seq<Option<Value>>, i: nat, x: Name)
    requires EqIsPartialEquivalence(ops) && SameProgram(ds, dry, live) && i <= |ds| && CarriedTrack(t, x)
    requires Fold(ops, t, ds, dry, i, x).Has?
    ensures Agrees(ops, t, Fold(ops, t, ds, dry, i, x).e, ds, dry, live, i, x)
    decreases |ds| - i
  {
    hide Edited, EqIsPartialEquivalence;
    var end := Fold(ops, t, ds, dry, i, x).e;
    if i < |ds| {
      if ds[i].name != x {
        VariableTwice(ops, t, ds, dry, live, i + 1, x);
      } else {
        var s := Effect(ops, t, ds[i], dry[i]);
        if s.Broken? {
          BrokenStays(ops, ds, dry, i + 1, x);
        } else {
          FirstKind(ops, t, ds[i], dry[i], live[i], x);
          if Resource(s.e) {
            ResourceFirst(ops, t, end, ds, dry, live, i, x);
          } else {
            PlainFirst(ops, t, end, ds, dry, live, i, x);
          }
        }
      }
    }
  }

  lemma FirstKind(ops: FloatOps, t: Track, d: Decl, dry: Option<Value>, live: Option<Value>, x: Name)
    requires CarriedTrack(t, x) && SameSource(d, dry, live) && Effect(ops, t, d, dry).Has?
    ensures Resource(Effect(ops, t, d, dry).e) || Stable(Effect(ops, t, d, dry).e)
  {
    if t.Has? {
      SettledKinds(t.e);
    }
  }

  /** For a single declaration the baselines agree exactly when no literal replaces a headstone. */
  lemma BaselineAgreesIff(ops: FloatOps, t: Track, d: Decl, dry: Option<Value>, live: Option<Value>)
    requires CarriedTrack(t, d.name) && SameSource(d, dry, live) && Effect(ops, t, d, dry).Has?
    ensures var twice := Effect(ops, Has(Headstoned(Effect(ops, t, d, dry).e)), d, live);
            var once := Effect(ops, t, d, Merged(dry, live));
            && twice.Has? && once.Has? && SameState(twice.e, once.e)
            && (SameBaseline(twice.e, once.e) <==> !Replaces(t, d))
  {
    hide Replayable;
    if t.Has? {
      SettledKinds(t.e);
    }
  }

  // ----- whole pools -----

  /** The pool a live run starts from: the rehearsal's pool with its resources given up. */
  function Rehearsed(ops: FloatOps, p: Pool, ds: seq<Decl>, dry: seq<Option<Value>>): Pool
    requires |ds| == |dry| && Pass(ops, p, ds, dry, 0).Some?
  {
    HeadstoneAll(Pass(ops, p, ds, dry, 0).value)
  }

  ghost predicate SettledPool(p: Pool) {
    Distinct(p) && forall k | 0 <= k < |p| :: Settled(p[k])
  }

  /** The dry run of a program on a pool, and what the live run will see. */
  ghost predicate Rehearses(
    ops: FloatOps, p: Pool, ds: seq<Decl>, dry: seq<Option<Value>>, live: seq<Option<Value>>) {
    && EqIsPartialEquivalence(ops) && SameProgram(ds, dry, live) && ProperDecls(ds)
    && Pass(ops, p, ds, dry, 0).Some?
  }

  lemma LookupCarried(p: Pool, x: Name)
    requires SettledPool(p)
    ensures CarriedTrack(Lookup(p, x), x)
  {
  }

  /** One variable of the pool, in both passes. */
  lemma VariableAgrees(
    ops: FloatOps, p: Pool, ds: seq<Decl>, dry: seq<Option<Value>>, live: seq<Option<Value>>, x: Name)
    requires SettledPool(p) && Rehearses(ops, p, ds, dry, live)
    ensures var twice := Fold(ops, Lookup(Rehearsed(ops, p, ds, dry), x), ds, live, 0, x);
            var once := Fold(ops, Lookup(p, x), ds, MergedAll(dry, live), 0, x);
            && !twice.Broken? && !once.Broken? && twice.Has? == once.Has?
            && (twice.Has? ==> SameState(twice.e, once.e))
            && (twice.Has? && NothingReplaced(Lookup(p, x), ds, 0, x) ==> SameBaseline(twice.e, once.e))
  {
    hide Effect, Lookup, Pass, Headstoned, EqIsPartialEquivalence, SameState, SameBaseline;
    PassLookup(ops, p, ds, dry, 0, x);
    LookupHeadstoned(Pass(ops, p, ds, dry, 0).value, x);
    LookupFound(Pass(ops, p, ds, dry, 0).value, x);
    LookupCarried(p, x);
    if Fold(ops, Lookup(p, x), ds, dry, 0, x).Has? {
      VariableTwice(ops, Lookup(p, x), ds, dry, live, 0, x);
    } else {
      NeverDeclared(ops, Lookup(p, x), ds, dry, live, 0, x);
    }
  }

  /** A variable that is absent after the rehearsal was never declared. */
  lemma {:induction false} NeverDeclared(
    ops: FloatOps, t: Track, ds: seq<Decl>, dry: seq<Option<Value>>, live: seq<Option<Value>>, i: nat, x: Name)
    requires i <= |ds| == |dry| == |live| && Fold(ops, t, ds, dry, i, x).Absent?
    ensures t.Absent? && Fold(ops, t, ds, live, i, x).Absent? && Fold(ops, t, ds, MergedAll(dry, live), i, x).Absent?
    decreases |ds| - i
  {
    if i < |ds| {
      NeverDeclared(
        ops, if ds[i].name == x then Effect(ops, t, ds[i], dry[i]) else t, ds, dry, live, i + 1, x);
    }
  }

  lemma BothSucceed(ops: FloatOps, p: Pool, ds: seq<Decl>, dry: seq<Option<Value>>, live: seq<Option<Value>>)
    requires SettledPool(p) && Rehearses(ops, p, ds, dry, live)
    ensures Pass(ops, Rehearsed(ops, p, ds, dry), ds, live, 0).Some?
    ensures Pass(ops, p, ds, MergedAll(dry, live), 0).Some?
  {
    hide Effect, Lookup, Pass, Fold, Rehearsed;
    var h := Rehearsed(ops, p, ds, dry);
    forall x
      ensures !Fold(ops, Lookup(h, x), ds, live, 0, x).Broken?
      ensures !Fold(ops, Lookup(p, x), ds, MergedAll(dry, live), 0, x).Broken?
    {
      VariableAgrees(ops, p, ds, dry, live, x);
    }
    PassSucceedsIff(ops, h, ds, live, 0);
    PassSucceedsIff(ops, p, ds, MergedAll(dry, live), 0);
  }

  lemma SameNames(ops: FloatOps, p: Pool, ds: seq<Decl>, dry: seq<Option<Value>>, live: seq<Option<Value>>)
    requires |dry| == |ds| == |live| && ProperDecls(ds) && Distinct(p) && Pass(ops, p, ds, dry, 0).Some?
    requires Pass(ops, Rehearsed(ops, p, ds, dry), ds, live, 0).Some?
    requires Pass(ops, p, ds, MergedAll(dry, live), 0).Some?
    ensures var twice := Pass(ops, Rehearsed(ops, p, ds, dry), ds, live, 0).value;
            var once := Pass(ops, p, ds, MergedAll(dry, live), 0).value;
            NamesOf(twice) == NamesOf(once) && |twice| == |once| && Distinct(twice) && Distinct(once)
  {
    hide Pass;
    var p1, h := Pass(ops, p, ds, dry, 0).value, Rehearsed(ops, p, ds, dry);
    var twice := Pass(ops, h, ds, live, 0).value;
    var once := Pass(ops, p, ds, MergedAll(dry, live), 0).value;
    PassNames(ops, p, ds, dry, 0);
    PassNames(ops, h, ds, live, 0);
    PassNames(ops, p, ds, MergedAll(dry, live), 0);
    assert NamesOf(h) == NamesOf(p1);
    NamesSettled(NamesOf(p), ds, 0);
    NamesStay(NamesOf(p1), ds, 0);
    NamesDistinct(NamesOf(p), ds, 0);
    assert |NamesOf(twice)| == |twice| && |NamesOf(once)| == |once|;
    assert forall i | 0 <= i < |once| :: NamesOf(once)[i] == once[i].name && NamesOf(twice)[i] == twice[i].name;
  }

  /** No declaration puts a literal in the place of a headstone. */
  ghost predicate NoneReplaced(p: Pool, ds: seq<Decl>) {
    forall j | 0 <= j < |ds| :: !Replaces(Lookup(p, ds[j].name), ds[j])
  }

  /**
   Rehearsing the declarations, giving up the resources and applying the
   declarations again leaves the same variables in the same order, with the
   same values, as applying them once; and the same baselines, unless a literal
   takes the place of a headstone.
   */
  lemma HandoverPreserves(ops: FloatOps, p: Pool, ds: seq<Decl>, dry: seq<Option<Value>>, live: seq<Option<Value>>)
    requires SettledPool(p) && Rehearses(ops, p, ds, dry, live)
    ensures var twice := Pass(ops, Rehearsed(ops, p, ds, dry), ds, live, 0);
            var once := Pass(ops, p, ds, MergedAll(dry, live), 0);
            && twice.Some? && once.Some? && |twice.value| == |once.value|
            && (forall k | 0 <= k < |once.value| :: SameState(twice.value[k], once.value[k]))
            && (NoneReplaced(p, ds) ==>
                  forall k | 0 <= k < |once.value| :: SameBaseline(twice.value[k], once.value[k]))
  {
    hide Pass, Lookup, SameState, SameBaseline, NamesAfter, Fold, Effect, Rehearsed, EqIsPartialEquivalence, Settled;
    BothSucceed(ops, p, ds, dry, live);
    var h := Rehearsed(ops, p, ds, dry);
    var twice := Pass(ops, h, ds, live, 0).value;
    var once := Pass(ops, p, ds, MergedAll(dry, live), 0).value;
    SameNames(ops, p, ds, dry, live);
    forall k | 0 <= k < |once|
      ensures SameState(twice[k], once[k]) && (NoneReplaced(p, ds) ==> SameBaseline(twice[k], once[k]))
    {
      var x := NamesOf(once)[k];
      assert NamesOf(twice)[k] == x;
      VariableAgrees(ops, p, ds, dry, live, x);
      PassLookup(ops, h, ds, live, 0, x);
      PassLookup(ops, p, ds, MergedAll(dry, live), 0, x);
      LookupAt(once, k);
      LookupAt(twice, k);
    }
  }

  // ----- from A's pool to the live run -----

  /** What the snapshot carries is settled. */
  lemma CarriedIsSettled(p: Pool)
    requires Distinct(p)
    ensures SettledPool(CarryAll(p))
  {
    CarryNames(p);
    forall k | 0 <= k < |p| ensures Settled(CarryAll(p)[k]) {
      assert CarryAll(p)[k] == Carry(p[k]);
    }
  }

  /** Every declaration of the variable has the same literal. */
  ghost predicate OneLiteral(ds: seq<Decl>, dry: seq<Option<Value>>, i: nat, x: Name, l: Value)
    requires i <= |ds| == |dry|
  {
    forall j | i <= j < |ds| && ds[j].name == x :: Replayable(ds[j].init) && dry[j] == Some(l)
  }

  lemma {:induction false} OneLiteralFold(
    ops: FloatOps, e: Entry, ds: seq<Decl>, vs: seq<Option<Value>>, i: nat, x: Name, l: Value)
    requires i <= |ds| == |vs| && OneLiteral(ds, vs, i, x, l)
    requires 1 <= e.declared <= 4 && Tag(e.value) == Tag(e.init) == Tag(l) == e.declared
    ensures var r := Fold(ops, Has(e), ds, vs, i, x);
            r.Has? &&
            r.e.value == if !Edited(ops, l, e.init) || forall j | i <= j < |ds| :: ds[j].name != x then e.value else l
    decreases |ds| - i
  {
    hide Edited;
    if i < |ds| {
      if ds[i].name == x {
        OneLiteralFold(ops, Effect(ops, Has(e), ds[i], vs[i]).e, ds, vs, i + 1, x, l);
      } else {
        OneLiteralFold(ops, e, ds, vs, i + 1, x, l);
      }
    }
  }

  /**
   A persistent integer, double, boolean or string of A, declared by the new
   program any number of times with one literal of its type: after snapshot,
   rehearsal and live run it has A's value if the literal is unchanged, as the
   language compares, or never declared, and the new literal otherwise.
   */
  lemma VariableSurvives(
    ops: FloatOps, p: Pool, i: nat, ds: seq<Decl>, dry: seq<Option<Value>>, live: seq<Option<Value>>, l: Value)
    requires Distinct(p) && Rehearses(ops, CarryAll(p), ds, dry, live)
    requires i < |p| && CarriedEntry(p[i]) && 1 <= p[i].declared <= 4 && Tag(l) == p[i].declared
    requires OneLiteral(ds, dry, 0, p[i].name, l)
    ensures var end := Pass(ops, Rehearsed(ops, CarryAll(p), ds, dry), ds, live, 0);
            && end.Some? && Lookup(end.value, p[i].name).Has?
            && Lookup(end.value, p[i].name).e.value ==
                 if !NewLiteral(ops, Some(p[i].init), Some(l)) || forall j | 0 <= j < |ds| :: ds[j].name != p[i].name
                 then p[i].value else l
  {
    hide Pass, Edited, Lookup, Fold, Effect, Rehearsed, EqIsPartialEquivalence, Settled;
    var c, x, vs := CarryAll(p), p[i].name, MergedAll(dry, live);
    CarriedIsSettled(p);
    BothSucceed(ops, c, ds, dry, live);
    VariableAgrees(ops, c, ds, dry, live, x);
    PassLookup(ops, Rehearsed(ops, c, ds, dry), ds, live, 0, x);
    CarriedLookup(p, i);
    forall j | 0 <= j < |ds| && ds[j].name == x ensures vs[j] == Some(l) {
      assert SameSource(ds[j], dry[j], live[j]);
    }
    OneLiteralFold(ops, p[i], ds, vs, 0, x, l);
    EditedIsNew(ops, l, p[i].init, p[i].init, Tag(l));
  }

  lemma CarriedLookup(p: Pool, i: nat)
    requires Distinct(p) && i < |p| && CarriedEntry(p[i])
    ensures Lookup(CarryAll(p), p[i].name) == Has(p[i])
  {
    CarryNames(p);
    CoerceKeepsIff(p[i].value);
    CoerceKeepsIff(p[i].init);
    assert CarryAll(p)[i] == p[i];
    assert Distinct(CarryAll(p));
    LookupAt(CarryAll(p), i);
  }
}
