/**
 What a `prst` declaration does when its program runs again: whether the source
 literal or the value from the previous run wins, and what becomes the baseline
 for the next comparison.
 */
module Reload {
  import opened Values
  import opened PrstPool

  /** The initializer of a declaration, as far as the rule looks at it. */
  datatype Init =
    | Literal
    | BinaryOf(left: Init, right: Init)
    | OtherInit

  /** The operands an initializer is finally built from. */
  function Leaves(n: Init): seq<Init> {
    if n.BinaryOf? then Leaves(n.left) + Leaves(n.right) else [n]
  }

  /** Only initializers built from literals may be evaluated again. */
  function Replayable(n: Init): (yes: bool)
    ensures yes <==> OtherInit !in Leaves(n)
  {
    match n
    case Literal => true
    case BinaryOf(l, r) => Replayable(l) && Replayable(r)
    case OtherInit => false
  }

  /** `want` is the tag the type name demands, if it demands one. */
  datatype Decl = Decl(name: Name, init: Init, want: Option<int>, offset: int)

  predicate TypeOk(d: Decl, v: Value) {
    d.want.None? || d.want.value == Tag(v)
  }

  /** An entry whose value could not be carried over and has to be made again. */
  predicate Headstone(e: Entry) {
    e.value.Nil? && e.declared != 0
  }

  /** The literal differs from the baseline, as the runtime compares them. */
  predicate Edited(ops: FloatOps, src: Value, base: Value) {
    if Tag(src) != Tag(base) then true
    else
      match src
      case Int(i) => i != base.i
      case Float(f) => !ops.eq(f, base.bits)
      case Bool(b) => b != base.b
      case Str(s) => s != base.s
      case _ => false
  }

  /** `value` is what the run starts with; `collided` means an error was pushed. */
  datatype Outcome = Bound(pool: Pool, value: Value, collided: bool) | Aborted(pool: Pool)

  /** The declaration makes a new entry. */
  function Fresh(p: Pool, d: Decl, src: Value): Outcome {
    if !TypeOk(d, src) then Aborted(p)
    else Bound(p + [Entry(Truncate(d.name), src, src, Tag(src), d.offset)], src, false)
  }

  /** The entry is made again from the declaration; its baseline stays. */
  function Rebuild(p: Pool, i: nat, d: Decl, src: Value): Outcome
    requires i < |p|
  {
    if !TypeOk(d, src) then Aborted(p)
    else Bound(p[i := p[i].(value := src, declared := Tag(src), offset := d.offset)], src, false)
  }

  /** A change of type is refused by the pool, but the baseline moves all the same. */
  function Choose(ops: FloatOps, p: Pool, i: nat, d: Decl, src: Value): Outcome
    requires i < |p|
  {
    var edited := Replayable(d.init) && Edited(ops, src, p[i].init);
    var chosen := if edited then src else p[i].value;
    var collided := p[i].declared != Tag(chosen);
    var e := p[i].(offset := d.offset, value := if collided then p[i].value else chosen,
                   init := if edited then src else p[i].init);
    Bound(p[i := e], chosen, collided)
  }

  /** `src` is the initializer's value, or `None` where evaluating it raises an error. */
  function Declare(ops: FloatOps, p: Pool, d: Decl, src: Option<Value>): Outcome {
    match Find(p, d.name)
    case None => if src.None? then Aborted(p) else Fresh(p, d, src.value)
    case Some(i) =>
      if (Replayable(d.init) || Headstone(p[i])) && src.None? then Aborted(p)
      else if Headstone(p[i]) then Rebuild(p, i, d, src.value)
      else Choose(ops, p, i, d, if src.Some? then src.value else Nil)
  }

  /** When a declaration fails; it leaves the pool as it was. */
  lemma AbortsIff(ops: FloatOps, p: Pool, d: Decl, src: Option<Value>)
    ensures var r := Declare(ops, p, d, src);
            && (r.Aborted? <==>
                  match Find(p, d.name)
                  case None => src.None? || !(d.want.None? || d.want.value == Tag(src.value))
                  case Some(i) =>
                    if p[i].value.Nil? && p[i].declared != 0
                    then src.None? || !(d.want.None? || d.want.value == Tag(src.value))
                    else OtherInit !in Leaves(d.init) && src.None?)
            && (r.Aborted? ==> r.pool == p)
  {
  }

  // ----- histories -----

  /** What a run does to the pool; the pool is what one run hands to the next. */
  datatype Op = Declared(d: Decl, src: Option<Value>) | Stored(name: Name, v: Value)

  function Apply(ops: FloatOps, p: Pool, op: Op): Pool {
    match op
    case Declared(d, src) => Declare(ops, p, d, src).pool
    case Stored(name, v) =>
      // assignments reach the pool only for variables it knows
      if Find(p, name).None? then p else (match Set(p, name, v) case Some((p', _)) => p' case None => p)
  }

  function Play(ops: FloatOps, h: seq<Op>): Pool {
    if h == [] then [] else Apply(ops, Play(ops, h[..|h| - 1]), h[|h| - 1])
  }

  /** The history is about `x` with literals and values of one comparable type. */
  predicate OneType(h: seq<Op>, x: Name, t: int) {
    forall i | 0 <= i < |h| :: OpOfType(h[i], x, t)
  }

  predicate OpOfType(op: Op, x: Name, t: int) {
    match op
    case Declared(d, src) =>
      d.name == x ==> Replayable(d.init) && src.Some? && Tag(src.value) == t && TypeOk(d, src.value)
    case Stored(name, v) => name == x ==> Tag(v) == t
  }

  predicate Declares(op: Op, x: Name) {
    op.Declared? && op.d.name == x
  }

  /** The literal of the most recent run that declared `x`. */
  function LastLiteral(h: seq<Op>, x: Name): Option<Value> {
    if h == [] then None
    else
      var op := h[|h| - 1];
      if Declares(op, x) then op.src else LastLiteral(h[..|h| - 1], x)
  }

  /** The literal is not the one of the last run; doubles are told apart as the language does it. */
  predicate NewLiteral(ops: FloatOps, before: Option<Value>, src: Option<Value>) {
    match (before, src)
    case (Some(a), Some(b)) => if a.Float? && b.Float? then !ops.eq(b.bits, a.bits) else b != a
    case _ => before != src
  }

  /** The value `x` last had: assigned, or started with where the literal was new. */
  function LastValue(ops: FloatOps, h: seq<Op>, x: Name): Option<Value> {
    if h == [] then None
    else
      var op, before := h[|h| - 1], h[..|h| - 1];
      if Declares(op, x) && NewLiteral(ops, LastLiteral(before, x), op.src) then op.src
      else if op.Stored? && op.name == x && LastValue(ops, before, x).Some? then Some(op.v)
      else LastValue(ops, before, x)
  }

  /** Equality of doubles need not be reflexive, but it is symmetric and transitive. */
  ghost predicate EqIsPartialEquivalence(ops: FloatOps) {
    && (forall a, b :: ops.eq(a, b) ==> ops.eq(b, a))
    && (forall a, b, c :: ops.eq(a, b) && ops.eq(b, c) ==> ops.eq(a, c))
  }

  /** The same literal, up to the equality of doubles. */
  predicate Alike(ops: FloatOps, a: Value, b: Value) {
    a == b || (a.Float? && b.Float? && ops.eq(a.bits, b.bits))
  }

  /** Whether a literal is new does not depend on which of two like baselines it is compared with. */
  lemma EditedIsNew(ops: FloatOps, src: Value, base: Value, last: Value, t: int)
    requires EqIsPartialEquivalence(ops) && 1 <= t <= 4 && Tag(src) == Tag(base) == Tag(last) == t
    requires Alike(ops, base, last)
    ensures Edited(ops, src, base) <==> NewLiteral(ops, Some(last), Some(src))
    ensures !Edited(ops, src, base) ==> Alike(ops, base, src)
  {
  }

  /** The entry of `x` is what the history says. */
  ghost predicate Tracks(ops: FloatOps, p: Pool, h: seq<Op>, x: Name, t: int) {
    match Find(p, x)
    case None => LastLiteral(h, x).None? && LastValue(ops, h, x).None?
    case Some(i) =>
      && p[i].declared == t && Tag(p[i].value) == t && Tag(p[i].init) == t
      && LastLiteral(h, x).Some? && Tag(LastLiteral(h, x).value) == t && Alike(ops, p[i].init, LastLiteral(h, x).value)
      && LastValue(ops, h, x) == Some(p[i].value)
  }

  /** An operation on another variable leaves the entry of `x` alone. */
  lemma OthersKeep(ops: FloatOps, p: Pool, op: Op, x: Name)
    requires Proper(x) && (match op case Declared(d, _) => Proper(d.name) && d.name != x case Stored(n, _) => n != x)
    ensures var p' := Apply(ops, p, op);
            match Find(p, x) case None => Find(p', x).None? case Some(i) => Find(p', x) == Some(i) && p'[i] == p[i]
  {
    hide Edited, Replayable, TypeOk;
    var p' := Apply(ops, p, op);
    assert |p| <= |p'| && (forall j | 0 <= j < |p| :: p'[j].name == p[j].name && (p[j].name == x ==> p'[j] == p[j]));
    assert |p'| <= |p| + 1 && (|p'| == |p| + 1 ==> p'[|p|].name != x);
  }

  lemma DeclareTracks(ops: FloatOps, p: Pool, h: seq<Op>, op: Op, x: Name, t: int)
    requires EqIsPartialEquivalence(ops) && Proper(x) && Tracks(ops, p, h, x, t) && 1 <= t <= 4
    requires OpOfType(op, x, t) && Declares(op, x)
    ensures Tracks(ops, Apply(ops, p, op), h + [op], x, t)
    ensures var r := Declare(ops, p, op.d, op.src);
            && r.Bound? && !r.collided && LastValue(ops, h + [op], x) == Some(r.value)
            && (NewLiteral(ops, LastLiteral(h, x), op.src) ==> Some(r.value) == op.src)
            && (!NewLiteral(ops, LastLiteral(h, x), op.src) ==> LastValue(ops, h, x) == Some(r.value))
  {
    hide Replayable;
    assert (h + [op])[..|h|] == h;
    var p' := Apply(ops, p, op);
    match Find(p, x)
    case None =>
      assert p'[|p|].name == x && forall j | 0 <= j < |p| :: p'[j] == p[j];
      assert Find(p', x) == Some(|p|);
    case Some(i) =>
      EditedIsNew(ops, op.src.value, p[i].init, LastLiteral(h, x).value, t);
      assert forall j | 0 <= j < |p| :: p'[j].name == p[j].name;
      assert Find(p', x) == Some(i);
  }

  lemma StoreTracks(ops: FloatOps, p: Pool, h: seq<Op>, op: Op, x: Name, t: int)
    requires Tracks(ops, p, h, x, t) && OpOfType(op, x, t) && op.Stored? && op.name == x
    ensures Tracks(ops, Apply(ops, p, op), h + [op], x, t)
  {
    assert (h + [op])[..|h|] == h;
    var p' := Apply(ops, p, op);
    if Find(p, x).Some? {
      assert forall j | 0 <= j < |p| :: p'[j].name == p[j].name;
      assert Find(p', x) == Find(p, x);
    }
  }

  /** All names in the history fit their fields. */
  predicate ProperNames(h: seq<Op>) {
    forall i | 0 <= i < |h| :: Proper(if h[i].Declared? then h[i].d.name else h[i].name)
  }

  /**
   After any history of runs, with any operations on other variables in
   between, the baseline of `x` is the literal of the latest run that declared
   it and its value is the value it last had.
   */
  lemma {:induction false} HistoryTracked(ops: FloatOps, h: seq<Op>, x: Name, t: int)
    requires EqIsPartialEquivalence(ops) && Proper(x) && ProperNames(h) && 1 <= t <= 4 && OneType(h, x, t)
    ensures Tracks(ops, Play(ops, h), h, x, t)
    decreases |h|
  {
    hide Apply, Tracks, OpOfType;
    if h == [] {
      NothingTracked(ops, x, t);
    } else {
      var before, op := h[..|h| - 1], h[|h| - 1];
      HistoryTracked(ops, before, x, t);
      var p := Play(ops, before);
      assert before + [op] == h;
      if Declares(op, x) {
        DeclareTracks(ops, p, before, op, x, t);
      } else if op.Stored? && op.name == x {
        StoreTracks(ops, p, before, op, x, t);
      } else {
        OthersKeep(ops, p, op, x);
        OthersTrack(ops, p, before, op, x, t);
      }
    }
  }

  lemma NothingTracked(ops: FloatOps, x: Name, t: int)
    ensures Tracks(ops, [], [], x, t)
  {
  }

  lemma OthersTrack(ops: FloatOps, p: Pool, h: seq<Op>, op: Op, x: Name, t: int)
    requires Tracks(ops, p, h, x, t) && !Declares(op, x) && !(op.Stored? && op.name == x)
    requires var p' := Apply(ops, p, op);
             match Find(p, x) case None => Find(p', x).None? case Some(i) => Find(p', x) == Some(i) && p'[i] == p[i]
    ensures Tracks(ops, Apply(ops, p, op), h + [op], x, t)
  {
    hide Apply;
    assert (h + [op])[..|h|] == h;
  }

  /**
   The value a run starts with: the new literal if it differs from that of the
   most recent run that declared the variable, otherwise the value it last had.
   */
  lemma RunStartsWith(ops: FloatOps, h: seq<Op>, d: Decl, src: Value, t: int)
    requires EqIsPartialEquivalence(ops) && Proper(d.name) && ProperNames(h) && 1 <= t <= 4 && OneType(h, d.name, t)
    requires Replayable(d.init) && Tag(src) == t && TypeOk(d, src)
    ensures var r := Declare(ops, Play(ops, h), d, Some(src));
            && r.Bound? && !r.collided
            && Some(r.value) == if NewLiteral(ops, LastLiteral(h, d.name), Some(src)) then Some(src)
                                else LastValue(ops, h, d.name)
  {
    hide Declare;
    HistoryTracked(ops, h, d.name, t);
    DeclareTracks(ops, Play(ops, h), h, Declared(d, Some(src)), d.name, t);
  }

  // ----- the same source, run again and again -----

  /** The pool after `n` runs of one declaration with one literal. */
  function Reloads(ops: FloatOps, p: Pool, d: Decl, src: Value, n: nat): Pool {
    if n == 0 then p else Declare(ops, Reloads(ops, p, d, src, n - 1), d, Some(src)).pool
  }

  /** What the run after `n` runs starts with. */
  function StartsWith(ops: FloatOps, p: Pool, d: Decl, src: Value, n: nat): Outcome {
    Declare(ops, Reloads(ops, p, d, src, n), d, Some(src))
  }

  /** A double that is not equal to itself. */
  predicate IsNan(ops: FloatOps, v: Value) {
    v.Float? && !ops.eq(v.bits, v.bits)
  }

  lemma EditedSelf(ops: FloatOps, v: Value)
    ensures Edited(ops, v, v) <==> IsNan(ops, v)
  {
  }

  /** A live entry for the declared variable, whose value has the recorded type. */
  ghost predicate LiveEntry(p: Pool, i: nat, d: Decl) {
    Find(p, d.name) == Some(i) && p[i].declared == Tag(p[i].value) != 0
  }

  /** One run on a live entry: what it starts with and what becomes of the entry. */
  lemma RunOn(ops: FloatOps, p: Pool, i: nat, d: Decl, src: Value)
    requires LiveEntry(p, i, d) && Replayable(d.init)
    ensures var r := Declare(ops, p, d, Some(src));
            var edited := Edited(ops, src, p[i].init);
            && r.Bound? && |r.pool| == |p| && LiveEntry(r.pool, i, d) && r.pool[i].declared == p[i].declared
            && r.value == (if edited then src else p[i].value)
            && r.pool[i].init == (if edited then src else p[i].init)
            && r.pool[i].value == (if edited && Tag(src) == p[i].declared then src else p[i].value)
  {
    hide Replayable, Edited;
    var r := Declare(ops, p, d, Some(src));
    assert forall j | 0 <= j < |p| :: r.pool[j].name == p[j].name;
    assert Find(r.pool, d.name) == Some(i);
  }

  /** After the first run the entry no longer changes, and the source is compared with itself. */
  lemma {:induction false} Steady(ops: FloatOps, p: Pool, i: nat, d: Decl, src: Value, n: nat)
    requires LiveEntry(p, i, d) && Replayable(d.init) && n > 0
    ensures var q, q1 := Reloads(ops, p, d, src, n), Reloads(ops, p, d, src, 1);
            && |q| == |q1| == |p| && LiveEntry(q, i, d) && q[i].declared == p[i].declared
            && q[i].value == q1[i].value && q[i].init == q1[i].init
    decreases n
  {
    hide Declare, Edited, LiveEntry;
    RunOn(ops, p, i, d, src);
    assert Reloads(ops, p, d, src, 0) == p;
    if n > 1 {
      Steady(ops, p, i, d, src, n - 1);
      RunOn(ops, Reloads(ops, p, d, src, n - 1), i, d, src);
    }
  }

  /**
   A source that is not edited any more, run any number of times: a later run
   starts where the first one started exactly when the literal was unchanged
   already, has the recorded type, or is a NaN, which always counts as edited.
   Otherwise the new literal is forgotten and the old value is back for good.
   */
  lemma StartKeptIff(ops: FloatOps, p: Pool, i: nat, d: Decl, src: Value, n: nat)
    requires LiveEntry(p, i, d) && Replayable(d.init) && n > 0
    ensures var first, later := StartsWith(ops, p, d, src, 0), StartsWith(ops, p, d, src, n);
            var kept := !Edited(ops, src, p[i].init) || Tag(src) == p[i].declared || IsNan(ops, src);
            && first.Bound? && later.Bound?
            && (later.value == first.value <==> kept)
            && (!kept ==> first.value == src && first.collided && later.value == p[i].value && !later.collided)
  {
    hide Replayable, Edited;
    EditedSelf(ops, src);
    RunOn(ops, p, i, d, src);
    assert Reloads(ops, p, d, src, 0) == p;
    assert Reloads(ops, p, d, src, 1) == Declare(ops, p, d, Some(src)).pool;
    Steady(ops, p, i, d, src, n);
    RunOn(ops, Reloads(ops, p, d, src, n), i, d, src);
  }
}
