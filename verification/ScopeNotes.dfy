/**
 What the annotations of a resolved program can be relied on for: variables fit
 the number of slots returned, and persistent ones are never warm.
 */
module ScopeNotes {
  import opened Values
  import opened Resolver
  import opened LexicalScope

  /** What is to hold of the annotation of each node. */
  type Rule = (Id, Note) -> bool

  // ----- every annotation a program can get -----

  /** Whatever slot is found, the annotations the expression makes obey the rule. */
  ghost predicate ExprObeys(e: RExpr, inFunc: nat, ok: Rule) {
    match e
    case Lit => true
    case Ident(id, _) => forall n: Note | n.warm == (inFunc > 0 && n.offset >= 0) :: ok(id, n)
    case Node(id, subs, target) =>
      && (forall i | 0 <= i < |subs| :: ExprObeys(subs[i], inFunc, ok))
      && (match target
          case NoTarget => true
          case Unresolved => ok(id, Note(-1, false))
          case Lookup(_) => forall n: Note | !n.warm :: ok(id, n))
  }

  ghost predicate StmtObeys(s: RStmt, inFunc: nat, ok: Rule)
    decreases s, 0
  {
    match s
    case Seq(body) => forall i | 0 <= i < |body| :: StmtObeys(body[i], inFunc, ok)
    case VarDecl(id, _, init, persistent) =>
      && ExprObeys(init, inFunc, ok)
      && forall n: Note | n.warm == (inFunc > 0 && !persistent && n.offset >= 0) :: ok(id, n)
    case If(cond, thn, els) =>
      ExprObeys(cond, inFunc, ok) && StmtObeys(thn, inFunc, ok) && (els.Some? ==> StmtObeys(els.value, inFunc, ok))
    case While(cond, loop) => ExprObeys(cond, inFunc, ok) && StmtObeys(loop, inFunc, ok)
    case For(id, arrId, _, _, each) =>
      && (forall n: Note | !n.warm :: ok(arrId, n)) && (forall n: Note | !n.warm :: ok(id, n))
      && StmtObeys(each, inFunc, ok)
    case Exprs(es) => forall i | 0 <= i < |es| :: ExprObeys(es[i], inFunc, ok)
    case FuncDecl(_, _, fn) => StmtObeys(fn, inFunc + 1, ok)
    case BlockDecl(_, members) => forall i | 0 <= i < |members| :: MemberObeys(members[i], inFunc, ok)
    case TypeofInst(id, _) => ok(id, Note(-1, false))
    case Danger(risky) => StmtObeys(risky, inFunc, ok)
  }

  ghost predicate MemberObeys(m: Member, inFunc: nat, ok: Rule)
    decreases m, 0
  {
    match m
    case Field(id, _, init) => ExprObeys(init, inFunc, ok) && forall n: Note | !n.warm :: ok(id, n)
    case Method(_, _, fn) => StmtObeys(fn, 1, ok)
    case OtherMember => true
  }

  ghost predicate Obey(notes: Notes, ok: Rule) {
    forall id | id in notes :: ok(id, notes[id])
  }

  lemma {:induction false} ExprNotes(notes: Notes, e: RExpr, env: Env, inFunc: nat, ok: Rule)
    requires Obey(notes, ok) && ExprObeys(e, inFunc, ok)
    ensures Obey(LexExpr(notes, e, env, inFunc), ok)
    decreases e, 0
  {
    hide LexFind;
    if e.Node? {
      ExprsNotes(notes, e.subs, 0, env, inFunc, ok);
    }
  }

  lemma {:induction false} ExprsNotes(notes: Notes, es: seq<RExpr>, i: nat, env: Env, inFunc: nat, ok: Rule)
    requires i <= |es| && Obey(notes, ok) && forall j | 0 <= j < |es| :: ExprObeys(es[j], inFunc, ok)
    ensures Obey(LexExprs(notes, es, i, env, inFunc), ok)
    decreases es, |es| - i
  {
    hide Obey;
    if i < |es| {
      ExprNotes(notes, es[i], env, inFunc, ok);
      ExprsNotes(LexExpr(notes, es[i], env, inFunc), es, i + 1, env, inFunc, ok);
    }
  }

  /** A rule that every node obeys holds of the whole result. */
  lemma {:induction false} StmtNotes(s: RStmt, env: Env, inFunc: nat, r: Result, ok: Rule)
    requires env != [] && Obey(r.notes, ok) && StmtObeys(s, inFunc, ok)
    ensures Obey(LexStmt(s, env, inFunc, r).1.notes, ok)
    decreases s, 1
  {
    hide LexExpr, LexFind, DeclareIn, DeclareAll, Widened;
    match s
    case Seq(body) => SeqNotes(body, 0, env, inFunc, r, ok);
    case VarDecl(_, _, init, _) =>
      ExprNotes(r.notes, init, env, inFunc, ok);
      VarNotes(s, env, inFunc, r, ok);
    case If(cond, thn, els) =>
      ExprNotes(r.notes, cond, env, inFunc, ok);
      var r1 := r.(notes := LexExpr(r.notes, cond, env, inFunc));
      StmtNotes(thn, env, inFunc, r1, ok);
      var (names, r2) := LexStmt(thn, env, inFunc, r1);
      if els.Some? {
        StmtNotes(els.value, [names] + env[1..], inFunc, r2, ok);
      }
    case While(cond, loop) =>
      ExprNotes(r.notes, cond, env, inFunc, ok);
      StmtNotes(loop, env, inFunc, r.(notes := LexExpr(r.notes, cond, env, inFunc)), ok);
    case For(_, _, _, _, _) => ForNotes(s, env, inFunc, r, ok);
    case Exprs(es) => ExprsNotes(r.notes, es, 0, env, inFunc, ok);
    case FuncDecl(name, params, fn) =>
      StmtNotes(fn, [DeclareAll([], params, 0), DeclareIn(env[0], name).0] + env[1..], inFunc + 1, r, ok);
    case BlockDecl(name, members) =>
      var env1 := [DeclareIn(env[0], name).0] + env[1..];
      FieldsNotes(members, 0, env1, inFunc, [], r.notes, ok);
      MethodsNotes(members, |members|, r.(notes := LexFields(members, 0, env1, inFunc, [], r.notes)), inFunc, ok);
    case TypeofInst(_, _) =>
    case Danger(risky) => StmtNotes(risky, env, inFunc, r, ok);
  }

  lemma WidenedKeeps(r: Result, names: seq<Name>)
    ensures Widened(r, names).notes == r.notes
  {
  }

  lemma VarNotes(s: RStmt, env: Env, inFunc: nat, r: Result, ok: Rule)
    requires s.VarDecl? && env != [] && StmtObeys(s, inFunc, ok)
    requires Obey(LexExpr(r.notes, s.init, env, inFunc), ok)
    ensures Obey(LexStmt(s, env, inFunc, r).1.notes, ok)
  {
    hide LexExpr, DeclareIn, ExprObeys;
  }

  lemma {:induction false} ForNotes(s: RStmt, env: Env, inFunc: nat, r: Result, ok: Rule)
    requires s.For? && env != [] && Obey(r.notes, ok) && StmtObeys(s, inFunc, ok)
    ensures Obey(LexStmt(s, env, inFunc, r).1.notes, ok)
    decreases s, 0
  {
    hide LexFind, DeclareIn, Widened;
    var (names, off) := DeclareIn(env[0], s.name);
    var r1 := Noted(Noted(r, s.arrId, Note(LexFind(env, s.arr), false)), s.id, Note(off, false));
    assert Obey(r1.notes, ok);
    WidenedKeeps(r1, names);
    StmtNotes(s.each, [names] + env[1..], inFunc, Widened(r1, names), ok);
  }

  lemma {:induction false} SeqNotes(body: seq<RStmt>, i: nat, env: Env, inFunc: nat, r: Result, ok: Rule)
    requires i <= |body| && env != [] && Obey(r.notes, ok)
    requires forall j | 0 <= j < |body| :: StmtObeys(body[j], inFunc, ok)
    ensures Obey(LexSeq(body, i, env, inFunc, r).1.notes, ok)
    decreases body, |body| - i
  {
    hide Obey, LexStmt;
    if i < |body| {
      StmtNotes(body[i], env, inFunc, r, ok);
      var (names, r1) := LexStmt(body[i], env, inFunc, r);
      SeqNotes(body, i + 1, [names] + env[1..], inFunc, r1, ok);
    }
  }

  lemma {:induction false} FieldsNotes(
    ms: seq<Member>, i: nat, env: Env, inFunc: nat, own: seq<Name>, notes: Notes, ok: Rule)
    requires i <= |ms| && Obey(notes, ok) && forall j | 0 <= j < |ms| :: MemberObeys(ms[j], inFunc, ok)
    ensures Obey(LexFields(ms, i, env, inFunc, own, notes), ok)
    decreases |ms| - i
  {
    hide LexExpr, DeclareIn, ExprObeys, StmtObeys;
    if i < |ms| {
      assert MemberObeys(ms[i], inFunc, ok);
      match ms[i]
      case OtherMember => FieldsNotes(ms, i + 1, env, inFunc, own, notes, ok);
      case Field(id, name, init) =>
        ExprNotes(notes, init, env, inFunc, ok);
        var (own', off) := DeclareIn(own, name);
        FieldsNotes(ms, i + 1, env, inFunc, own', LexExpr(notes, init, env, inFunc)[id := Note(off, false)], ok);
      case Method(name, _, _) => FieldsNotes(ms, i + 1, env, inFunc, DeclareIn(own, name).0, notes, ok);
    }
  }

  lemma {:induction false} MethodsNotes(ms: seq<Member>, n: nat, r: Result, inFunc: nat, ok: Rule)
    requires n <= |ms| && Obey(r.notes, ok) && forall j | 0 <= j < |ms| :: MemberObeys(ms[j], inFunc, ok)
    ensures Obey(LexMethods(ms, n, r).notes, ok)
    decreases ms, n
  {
    hide Obey, LexStmt, DeclareAll;
    if n > 0 {
      assert MemberObeys(ms[n - 1], inFunc, ok);
      if ms[n - 1].Method? {
        StmtNotes(ms[n - 1].fn, [DeclareAll([], ms[n - 1].params, 0)], 1, r, ok);
        MethodsNotes(ms, n - 1, LexStmt(ms[n - 1].fn, [DeclareAll([], ms[n - 1].params, 0)], 1, r).1, inFunc, ok);
      } else {
        MethodsNotes(ms, n - 1, r, inFunc, ok);
      }
    }
  }

  /** A rule that every node of a program obeys holds of every annotation the resolver gives it. */
  lemma ProgramNotes(program: RStmt, ok: Rule)
    requires StmtObeys(program, 0, ok)
    ensures Obey(Lexical(program).notes, ok)
  {
    hide LexStmt, StmtObeys;
    StmtNotes(program, [[]], 0, Result(map[], 0), ok);
  }

  // ----- warm nodes -----

  function NeverWarm(ids: set<Id>): Rule {
    (id: Id, n: Note) => id in ids ==> !n.warm
  }

  /** Nodes that can only stand for persistent declarations are never warm, anywhere in the program. */
  lemma PersistentNeverWarm(program: RStmt, ids: set<Id>, id: Id)
    requires StmtObeys(program, 0, NeverWarm(ids)) && id in ids && id in Lexical(program).notes
    ensures !Lexical(program).notes[id].warm
  {
    hide Lexical, StmtObeys;
    ProgramNotes(program, NeverWarm(ids));
  }

  /** A declaration is warm exactly when it is local to a function, not persistent, and has a slot. */
  lemma WarmIff(id: Id, name: Name, persistent: bool, env: Env, inFunc: nat, r: Result)
    requires env != []
    ensures var notes := LexStmt(VarDecl(id, name, Lit, persistent), env, inFunc, r).1.notes;
            && id in notes && notes[id].offset == DeclareIn(env[0], name).1
            && (notes[id].warm <==> inFunc > 0 && !persistent && name in DeclareIn(env[0], name).0)
  {
    var (names, off) := DeclareIn(env[0], name);
    if off >= 0 {
      assert names[off] == name;
    }
  }

  // ----- the order of scoping -----

  /** An initializer is resolved before its variable is declared, so it sees the variable of that name outside. */
  lemma InitializerSeesOutside(id: Id, at: Id, x: Name, env: Env, inFunc: nat, r: Result)
    requires env != [] && id != at
    ensures var notes := LexStmt(VarDecl(id, x, Ident(at, x), false), env, inFunc, r).1.notes;
            at in notes && notes[at].offset == LexFind(env, x)
  {
    hide IndexOf;
  }

  /** The array of a loop is resolved before its variable is declared. */
  lemma LoopArraySeesOutside(id: Id, at: Id, x: Name, env: Env, inFunc: nat, r: Result)
    requires env != [] && id != at
    ensures var notes := LexStmt(For(id, at, x, x, Seq([])), env, inFunc, r).1.notes;
            at in notes && notes[at].offset == LexFind(env, x)
  {
    hide IndexOf;
    var body: seq<RStmt> := [];
    var (names, off) := DeclareIn(env[0], x);
    var r1 := Widened(Noted(Noted(r, at, Note(LexFind(env, x), false)), id, Note(off, false)), names);
    assert LexStmt(Seq(body), [names] + env[1..], inFunc, r1) == LexSeq(body, 0, [names] + env[1..], inFunc, r1);
  }

  /** A function can call itself: its name is declared outside before its body is resolved. */
  lemma FunctionSeesItself(f: Name, params: seq<Name>, at: Id, env: Env, inFunc: nat, r: Result)
    requires env != [] && f !in DeclareAll([], params, 0) && |env[0]| < SYM_MAX
    ensures var (names, r') := LexStmt(FuncDecl(f, params, Exprs([Ident(at, f)])), env, inFunc, r);
            && f in names && at in r'.notes
            && r'.notes[at] == Note(DeclareIn(env[0], f).1, true) && r'.notes[at].offset >= 0
  {
    var ps := DeclareAll([], params, 0);
    var (names, off) := DeclareIn(env[0], f);
    var inner: Env := [ps, names] + env[1..];
    assert inner[0] == ps && inner[1..] == [names] + env[1..];
    assert names[off] == f && IndexOf(names, f, 0) == off;
    assert IndexOf(ps, f, 0) == -1;
    assert LexFind(inner, f) == LexFind(inner[1..], f) == off;
    var es := [Ident(at, f)];
    assert LexExprs(r.notes, es, 0, inner, inFunc + 1) == LexExpr(r.notes, es[0], inner, inFunc + 1);
  }

  // ----- slots -----

  /** No node of the expression has one of the ids. */
  ghost predicate ExprApart(e: RExpr, vars: set<Id>) {
    match e
    case Lit => true
    case Ident(id, _) => id !in vars
    case Node(id, subs, _) => id !in vars && forall i | 0 <= i < |subs| :: ExprApart(subs[i], vars)
  }

  /** The ids are those of variables and loop variables, and of no other node. */
  ghost predicate StmtApart(s: RStmt, vars: set<Id>)
    decreases s, 0
  {
    match s
    case Seq(body) => forall i | 0 <= i < |body| :: StmtApart(body[i], vars)
    case VarDecl(_, _, init, _) => ExprApart(init, vars)
    case If(cond, thn, els) =>
      ExprApart(cond, vars) && StmtApart(thn, vars) && (els.Some? ==> StmtApart(els.value, vars))
    case While(cond, loop) => ExprApart(cond, vars) && StmtApart(loop, vars)
    case For(_, arrId, _, _, each) => arrId !in vars && StmtApart(each, vars)
    case Exprs(es) => forall i | 0 <= i < |es| :: ExprApart(es[i], vars)
    case FuncDecl(_, _, fn) => StmtApart(fn, vars)
    case BlockDecl(_, members) => forall i | 0 <= i < |members| :: MemberApart(members[i], vars)
    case TypeofInst(id, _) => id !in vars
    case Danger(risky) => StmtApart(risky, vars)
  }

  ghost predicate MemberApart(m: Member, vars: set<Id>)
    decreases m, 0
  {
    match m
    case Field(id, _, init) => id !in vars && ExprApart(init, vars)
    case Method(_, _, fn) => StmtApart(fn, vars)
    case OtherMember => true
  }

  function Below(vars: set<Id>, slots: nat): Rule {
    (id: Id, n: Note) => id in vars ==> n.offset < slots
  }

  /** The variables resolved so far fit the slots counted so far. */
  ghost predicate Covered(r: Result, vars: set<Id>) {
    Obey(r.notes, Below(vars, r.slots))
  }

  lemma {:induction false} ApartObeys(e: RExpr, inFunc: nat, vars: set<Id>, slots: nat)
    requires ExprApart(e, vars)
    ensures ExprObeys(e, inFunc, Below(vars, slots))
  {
    if e.Node? {
      forall i | 0 <= i < |e.subs| ensures ExprObeys(e.subs[i], inFunc, Below(vars, slots)) {
        ApartObeys(e.subs[i], inFunc, vars, slots);
      }
    }
  }

  /** An expression, and then annotations of a declared variable. */
  lemma ExprCovered(e: RExpr, env: Env, inFunc: nat, r: Result, vars: set<Id>)
    requires Covered(r, vars) && ExprApart(e, vars)
    ensures Covered(r.(notes := LexExpr(r.notes, e, env, inFunc)), vars)
  {
    ApartObeys(e, inFunc, vars, r.slots);
    ExprNotes(r.notes, e, env, inFunc, Below(vars, r.slots));
  }

  lemma DeclaredCovered(r: Result, id: Id, names: seq<Name>, name: Name, warm: bool, vars: set<Id>)
    requires Covered(r, vars)
    ensures var (names', off) := DeclareIn(names, name);
            Covered(Widened(Noted(r, id, Note(off, warm)), names'), vars)
  {
  }

  lemma NotedCovered(r: Result, id: Id, n: Note, vars: set<Id>)
    requires Covered(r, vars) && id !in vars
    ensures Covered(Noted(r, id, n), vars)
  {
  }

  lemma {:induction false} StmtCovered(s: RStmt, env: Env, inFunc: nat, r: Result, vars: set<Id>)
    requires env != [] && Covered(r, vars) && StmtApart(s, vars)
    ensures Covered(LexStmt(s, env, inFunc, r).1, vars)
    decreases s, 1
  {
    hide LexExpr, LexFind, DeclareIn, DeclareAll, Widened, Covered, ExprApart;
    match s
    case Seq(body) => SeqCovered(body, 0, env, inFunc, r, vars);
    case VarDecl(id, name, init, persistent) =>
      ExprCovered(init, env, inFunc, r, vars);
      var off := DeclareIn(env[0], name).1;
      DeclaredCovered(r.(notes := LexExpr(r.notes, init, env, inFunc)), id, env[0], name,
                      inFunc > 0 && !persistent && off >= 0, vars);
    case If(cond, thn, els) =>
      ExprCovered(cond, env, inFunc, r, vars);
      var r1 := r.(notes := LexExpr(r.notes, cond, env, inFunc));
      StmtCovered(thn, env, inFunc, r1, vars);
      var (names, r2) := LexStmt(thn, env, inFunc, r1);
      if els.Some? {
        StmtCovered(els.value, [names] + env[1..], inFunc, r2, vars);
      }
    case While(cond, loop) =>
      ExprCovered(cond, env, inFunc, r, vars);
      StmtCovered(loop, env, inFunc, r.(notes := LexExpr(r.notes, cond, env, inFunc)), vars);
    case For(id, arrId, arr, name, each) =>
      var r1 := Noted(r, arrId, Note(LexFind(env, arr), false));
      var (names, off) := DeclareIn(env[0], name);
      NotedCovered(r, arrId, Note(LexFind(env, arr), false), vars);
      DeclaredCovered(r1, id, env[0], name, false, vars);
      StmtCovered(each, [names] + env[1..], inFunc, Widened(Noted(r1, id, Note(off, false)), names), vars);
    case Exprs(es) => ExprsCovered(es, env, inFunc, r, vars);
    case FuncDecl(name, params, fn) =>
      StmtCovered(fn, [DeclareAll([], params, 0), DeclareIn(env[0], name).0] + env[1..], inFunc + 1, r, vars);
    case BlockDecl(name, members) =>
      var env1 := [DeclareIn(env[0], name).0] + env[1..];
      FieldsCovered(members, env1, inFunc, r, vars);
      MethodsCovered(members, |members|, r.(notes := LexFields(members, 0, env1, inFunc, [], r.notes)), vars);
    case TypeofInst(id, _) => NotedCovered(r, id, Note(-1, false), vars);
    case Danger(risky) => StmtCovered(risky, env, inFunc, r, vars);
  }

  lemma ExprsCovered(es: seq<RExpr>, env: Env, inFunc: nat, r: Result, vars: set<Id>)
    requires Covered(r, vars) && forall i | 0 <= i < |es| :: ExprApart(es[i], vars)
    ensures Covered(r.(notes := LexExprs(r.notes, es, 0, env, inFunc)), vars)
  {
    forall i | 0 <= i < |es| ensures ExprObeys(es[i], inFunc, Below(vars, r.slots)) {
      ApartObeys(es[i], inFunc, vars, r.slots);
    }
    ExprsNotes(r.notes, es, 0, env, inFunc, Below(vars, r.slots));
  }

  lemma FieldsCovered(ms: seq<Member>, env: Env, inFunc: nat, r: Result, vars: set<Id>)
    requires Covered(r, vars) && forall i | 0 <= i < |ms| :: MemberApart(ms[i], vars)
    ensures Covered(r.(notes := LexFields(ms, 0, env, inFunc, [], r.notes)), vars)
  {
    FieldsBelow(ms, 0, env, inFunc, [], r.notes, vars, r.slots);
  }

  lemma {:induction false} FieldsBelow(
    ms: seq<Member>, i: nat, env: Env, inFunc: nat, own: seq<Name>, notes: Notes, vars: set<Id>, slots: nat)
    requires i <= |ms| && Obey(notes, Below(vars, slots)) && forall j | 0 <= j < |ms| :: MemberApart(ms[j], vars)
    ensures Obey(LexFields(ms, i, env, inFunc, own, notes), Below(vars, slots))
    decreases |ms| - i
  {
    hide LexExpr, DeclareIn, ExprApart, StmtApart;
    if i < |ms| {
      assert MemberApart(ms[i], vars);
      match ms[i]
      case OtherMember => FieldsBelow(ms, i + 1, env, inFunc, own, notes, vars, slots);
      case Field(id, name, init) =>
        ApartObeys(init, inFunc, vars, slots);
        ExprNotes(notes, init, env, inFunc, Below(vars, slots));
        var (own', off) := DeclareIn(own, name);
        var notes' := LexExpr(notes, init, env, inFunc)[id := Note(off, false)];
        FieldsBelow(ms, i + 1, env, inFunc, own', notes', vars, slots);
      case Method(name, _, _) => FieldsBelow(ms, i + 1, env, inFunc, DeclareIn(own, name).0, notes, vars, slots);
    }
  }

  lemma {:induction false} SeqCovered(body: seq<RStmt>, i: nat, env: Env, inFunc: nat, r: Result, vars: set<Id>)
    requires i <= |body| && env != [] && Covered(r, vars)
    requires forall j | 0 <= j < |body| :: StmtApart(body[j], vars)
    ensures Covered(LexSeq(body, i, env, inFunc, r).1, vars)
    decreases body, |body| - i
  {
    hide Covered, LexStmt;
    if i < |body| {
      StmtCovered(body[i], env, inFunc, r, vars);
      var (names, r1) := LexStmt(body[i], env, inFunc, r);
      SeqCovered(body, i + 1, [names] + env[1..], inFunc, r1, vars);
    }
  }

  lemma {:induction false} MethodsCovered(ms: seq<Member>, n: nat, r: Result, vars: set<Id>)
    requires n <= |ms| && Covered(r, vars) && forall j | 0 <= j < |ms| :: MemberApart(ms[j], vars)
    ensures Covered(LexMethods(ms, n, r), vars)
    decreases ms, n
  {
    hide Covered, LexStmt, DeclareAll;
    if n > 0 {
      assert MemberApart(ms[n - 1], vars);
      if ms[n - 1].Method? {
        StmtCovered(ms[n - 1].fn, [DeclareAll([], ms[n - 1].params, 0)], 1, r, vars);
        MethodsCovered(ms, n - 1, LexStmt(ms[n - 1].fn, [DeclareAll([], ms[n - 1].params, 0)], 1, r).1, vars);
      } else {
        MethodsCovered(ms, n - 1, r, vars);
      }
    }
  }

  /** Every variable and loop variable of a program has an offset below the slot count the resolver returns. */
  lemma SlotsCoverVariables(program: RStmt, vars: set<Id>, id: Id)
    requires StmtApart(program, vars) && id in vars && id in Lexical(program).notes
    ensures Lexical(program).notes[id].offset < Lexical(program).slots
  {
    hide LexStmt, StmtApart;
    StmtCovered(program, [[]], 0, Result(map[], 0), vars);
  }
}
