/**
 Lexical scoping, stated by recursion over the program, and the proof that the
 resolver's pool of tables and stack of work items realise it.
 */
module LexicalScope {
  import opened Values
  import opened Resolver

  /** The tables in view, innermost first. */
  type Env = seq<seq<Name>>

  function LexFind(env: Env, name: Name): int {
    if env == [] then -1
    else
      var i := IndexOf(env[0], name, 0);
      if i >= 0 then i else LexFind(env[1..], name)
  }

  function LexExpr(notes: Notes, e: RExpr, env: Env, inFunc: nat): Notes
    decreases e, 0
  {
    match e
    case Lit => notes
    case Ident(id, name) => notes[id := Note(LexFind(env, name), inFunc > 0 && LexFind(env, name) >= 0)]
    case Node(id, subs, target) =>
      var n1 := LexExprs(notes, subs, 0, env, inFunc);
      match target
      case NoTarget => n1
      case Unresolved => n1[id := Note(-1, false)]
      case Lookup(name) => n1[id := Note(LexFind(env, name), false)]
  }

  function LexExprs(notes: Notes, es: seq<RExpr>, i: nat, env: Env, inFunc: nat): Notes
    requires i <= |es|
    decreases es, |es| - i
  {
    if i == |es| then notes else LexExprs(LexExpr(notes, es[i], env, inFunc), es, i + 1, env, inFunc)
  }

  /** What resolution has produced so far: annotations, and the largest table a variable was added to. */
  datatype Result = Result(notes: Notes, slots: nat)

  function Noted(r: Result, id: Id, n: Note): Result {
    r.(notes := r.notes[id := n])
  }

  function Widened(r: Result, names: seq<Name>): Result {
    if |names| > r.slots then r.(slots := |names|) else r
  }

  /** The innermost table after the statement, and the result; tables further out do not change. */
  function LexStmt(s: RStmt, env: Env, inFunc: nat, r: Result): (seq<Name>, Result)
    requires env != []
    decreases s, 1
  {
    match s
    case Seq(body) => LexSeq(body, 0, env, inFunc, r)
    case VarDecl(id, name, init, persistent) =>
      var r1 := r.(notes := LexExpr(r.notes, init, env, inFunc));
      var (names, off) := DeclareIn(env[0], name);
      (names, Widened(Noted(r1, id, Note(off, inFunc > 0 && !persistent && off >= 0)), names))
    case If(cond, thn, els) =>
      var (names, r2) := LexStmt(thn, env, inFunc, r.(notes := LexExpr(r.notes, cond, env, inFunc)));
      if els.None? then (names, r2) else LexStmt(els.value, [names] + env[1..], inFunc, r2)
    case While(cond, loop) => LexStmt(loop, env, inFunc, r.(notes := LexExpr(r.notes, cond, env, inFunc)))
    case For(id, arrId, arr, name, each) =>
      var r1 := Noted(r, arrId, Note(LexFind(env, arr), false));
      var (names, off) := DeclareIn(env[0], name);
      LexStmt(each, [names] + env[1..], inFunc, Widened(Noted(r1, id, Note(off, false)), names))
    case Exprs(es) => (env[0], r.(notes := LexExprs(r.notes, es, 0, env, inFunc)))
    case FuncDecl(name, params, fn) =>
      var names := DeclareIn(env[0], name).0;
      var (_, r1) := LexStmt(fn, [DeclareAll([], params, 0), names] + env[1..], inFunc + 1, r);
      (names, r1)
    case BlockDecl(name, members) =>
      var names := DeclareIn(env[0], name).0;
      var r1 := r.(notes := LexFields(members, 0, [names] + env[1..], inFunc, [], r.notes));
      (names, LexMethods(members, |members|, r1))
    case TypeofInst(id, name) => (DeclareIn(env[0], name).0, Noted(r, id, Note(-1, false)))
    case Danger(risky) => LexStmt(risky, env, inFunc, r)
  }

  function LexSeq(body: seq<RStmt>, i: nat, env: Env, inFunc: nat, r: Result): (seq<Name>, Result)
    requires i <= |body| && env != []
    decreases body, |body| - i
  {
    if i == |body| then (env[0], r)
    else
      var (names, r1) := LexStmt(body[i], env, inFunc, r);
      LexSeq(body, i + 1, [names] + env[1..], inFunc, r1)
  }

  /** Field initializers see the scope around the block, not the block. */
  function LexFields(ms: seq<Member>, i: nat, env: Env, inFunc: nat, own: seq<Name>, notes: Notes): Notes
    requires i <= |ms|
    decreases |ms| - i
  {
    if i == |ms| then notes
    else
      match ms[i]
      case OtherMember => LexFields(ms, i + 1, env, inFunc, own, notes)
      case Field(id, name, init) =>
        var n1 := LexExpr(notes, init, env, inFunc);
        var (own', off) := DeclareIn(own, name);
        LexFields(ms, i + 1, env, inFunc, own', n1[id := Note(off, false)])
      case Method(name, _, _) => LexFields(ms, i + 1, env, inFunc, DeclareIn(own, name).0, notes)
  }

  /** Method bodies see their parameters and nothing else. */
  function LexMethods(ms: seq<Member>, n: nat, r: Result): Result
    requires n <= |ms|
    decreases ms, n
  {
    if n == 0 then r
    else if !ms[n - 1].Method? then LexMethods(ms, n - 1, r)
    else LexMethods(ms, n - 1, LexStmt(ms[n - 1].fn, [DeclareAll([], ms[n - 1].params, 0)], 1, r).1)
  }

  // ----- tables in the pool -----

  /** The tables in view from a scope of the pool. */
  function Chain(pool: seq<Table>, scope: nat): Env
    decreases scope
  {
    if scope >= |pool| then []
    else
      [pool[scope].names] +
      match pool[scope].parent
      case Some(p) => if p < scope then Chain(pool, p) else []
      case None => []
  }

  lemma {:induction false} FindIsLexical(pool: seq<Table>, scope: nat, name: Name)
    ensures Find(pool, scope, name) == LexFind(Chain(pool, scope), name)
    decreases scope
  {
    if scope < |pool| && pool[scope].parent.Some? && pool[scope].parent.value < scope {
      FindIsLexical(pool, pool[scope].parent.value, name);
    }
  }

  /** Only `scope` has changed; new tables may have been added. */
  ghost predicate OnlyTouches(pool: seq<Table>, pool': seq<Table>, scope: nat) {
    && |pool| <= |pool'| && (forall j | 0 <= j < |pool| && j != scope :: pool'[j] == pool[j])
    && (scope < |pool| ==> pool'[scope].parent == pool[scope].parent)
  }

  lemma {:induction false} ChainAfter(pool: seq<Table>, pool': seq<Table>, scope: nat, at: nat)
    requires OnlyTouches(pool, pool', scope) && at < |pool|
    ensures at < scope ==> Chain(pool', at) == Chain(pool, at)
    ensures at == scope ==> Chain(pool', at) == [pool'[at].names] + Chain(pool, at)[1..]
    decreases at
  {
    match pool[at].parent
    case Some(p) =>
      if p < at {
        ChainAfter(pool, pool', scope, p);
      }
    case None =>
  }

  lemma {:induction false} ExprIsLexical(st: St, e: RExpr, scope: nat, inFunc: nat)
    ensures ResolveExpr(st, e, scope, inFunc) == st.(notes := LexExpr(st.notes, e, Chain(st.pool, scope), inFunc))
    decreases e, 0
  {
    match e
    case Lit =>
    case Ident(_, name) => FindIsLexical(st.pool, scope, name);
    case Node(_, subs, target) =>
      ExprsAreLexical(st, subs, 0, scope, inFunc);
      if target.Lookup? {
        FindIsLexical(st.pool, scope, target.name);
      }
  }

  lemma {:induction false} ExprsAreLexical(st: St, es: seq<RExpr>, i: nat, scope: nat, inFunc: nat)
    requires i <= |es|
    ensures ResolveExprs(st, es, i, scope, inFunc)
         == st.(notes := LexExprs(st.notes, es, i, Chain(st.pool, scope), inFunc))
    decreases es, |es| - i
  {
    if i < |es| {
      ExprIsLexical(st, es[i], scope, inFunc);
      ExprsAreLexical(ResolveExpr(st, es[i], scope, inFunc), es, i + 1, scope, inFunc);
    }
  }

  // ----- statements -----

  function ResultOf(st: St): Result {
    Result(st.notes, st.maxSlots)
  }

  /** The resolver has done to the scope and to its result what the specification says. */
  ghost predicate Realises(st: St, st': St, scope: nat, lex: (seq<Name>, Result)) {
    st'.failed ||
    (&& scope < |st.pool| && OnlyTouches(st.pool, st'.pool, scope)
     && st'.pool[scope].names == lex.0 && ResultOf(st') == lex.1)
  }

  lemma FailedStays(st: St, cap: nat, items: seq<Item>)
    requires st.failed
    ensures ResolveAll(st, cap, items) == st
  {
  }

  lemma ResolveSingle(st: St, cap: nat, it: Item)
    requires !st.failed
    ensures ResolveAll(st, cap, [it]) == ResolveAll(Expand(st, cap, it).0, cap, Expand(st, cap, it).1)
  {
    hide Expand, Total;
    assert [it][0] == it && [it][1..] == [];
  }

  lemma ResolveHead(st: St, cap: nat, items: seq<Item>)
    requires items != []
    ensures ResolveAll(st, cap, items) == ResolveAll(ResolveAll(st, cap, [items[0]]), cap, items[1..])
  {
    hide Expand, Total;
    assert items == [items[0]] + items[1..];
    ResolveAppend(st, cap, [items[0]], items[1..]);
  }

  lemma {:induction false} ItemIsLexical(st: St, cap: nat, it: Item)
    requires !st.failed && it.scope < |st.pool|
    ensures Realises(st, ResolveAll(st, cap, [it]), it.scope,
                     LexStmt(it.s, Chain(st.pool, it.scope), it.inFunc, ResultOf(st)))
    decreases Size(it.s), 1
  {
    hide ResolveExpr, ResolveExprs, LexExpr, LexExprs, Find, LexFind, ResolveAll, ExpandMembers, DeclareIn, DeclareAll;
    hide Chain;
    ResolveSingle(st, cap, it);
    ChainHead(st.pool, it.scope);
    var scope, inFunc := it.scope, it.inFunc;
    match it.s
    case Seq(body) =>
      assert ItemsOf(body, scope, inFunc)[0..] == ItemsOf(body, scope, inFunc);
      SeqIsLexical(st, cap, body, 0, scope, inFunc);
    case VarDecl(_, _, init, _) =>
      ExprIsLexical(st, init, scope, inFunc);
      NothingLeft(Expand(st, cap, it).0, cap);
    case If(cond, thn, els) => IfIsLexical(st, cap, it);
    case While(cond, loop) =>
      ExprIsLexical(st, cond, scope, inFunc);
      ItemIsLexical(Expand(st, cap, it).0, cap, Item(loop, scope, inFunc));
    case For(_, _, _, _, _) => ForIsLexical(st, cap, it);
    case Exprs(es) =>
      ExprsAreLexical(st, es, 0, scope, inFunc);
      NothingLeft(Expand(st, cap, it).0, cap);
    case FuncDecl(_, _, _) => FuncIsLexical(st, cap, it);
    case BlockDecl(_, _) => BlockIsLexical(st, cap, it);
    case TypeofInst(_, _) => NothingLeft(Expand(st, cap, it).0, cap);
    case Danger(risky) => ItemIsLexical(st, cap, Item(risky, scope, inFunc));
  }

  lemma ChainHead(pool: seq<Table>, scope: nat)
    requires scope < |pool|
    ensures Chain(pool, scope) != [] && Chain(pool, scope)[0] == pool[scope].names
  {
  }

  lemma NothingLeft(st: St, cap: nat)
    ensures ResolveAll(st, cap, []) == st
  {
  }

  lemma {:induction false} IfIsLexical(st: St, cap: nat, it: Item)
    requires !st.failed && it.scope < |st.pool| && it.s.If?
    ensures Realises(st, ResolveAll(Expand(st, cap, it).0, cap, Expand(st, cap, it).1), it.scope,
                     LexStmt(it.s, Chain(st.pool, it.scope), it.inFunc, ResultOf(st)))
    decreases Size(it.s), 0
  {
    hide ResolveExpr, LexExpr, ResolveAll, Chain;
    var scope, inFunc := it.scope, it.inFunc;
    ExprIsLexical(st, it.s.cond, scope, inFunc);
    var (st1, kids) := Expand(st, cap, it);
    ItemIsLexical(st1, cap, Item(it.s.thn, scope, inFunc));
    var st2 := ResolveAll(st1, cap, [Item(it.s.thn, scope, inFunc)]);
    ChainHead(st.pool, scope);
    if it.s.els.Some? {
      ResolveAppend(st1, cap, [Item(it.s.thn, scope, inFunc)], [Item(it.s.els.value, scope, inFunc)]);
      if st2.failed {
        FailedStays(st2, cap, [Item(it.s.els.value, scope, inFunc)]);
      } else {
        ChainAfter(st1.pool, st2.pool, scope, scope);
        ItemIsLexical(st2, cap, Item(it.s.els.value, scope, inFunc));
      }
    } else {
      assert kids == [Item(it.s.thn, scope, inFunc)];
    }
  }

  lemma DeclareTouches(st: St, scope: nat, name: Name)
    requires scope < |st.pool|
    ensures var (st1, off) := Declare(st, scope, name);
            && OnlyTouches(st.pool, st1.pool, scope) && |st1.pool| == |st.pool| && ResultOf(st1) == ResultOf(st)
            && st1.failed == st.failed && st1.pool[scope].names == DeclareIn(st.pool[scope].names, name).0
            && off == DeclareIn(st.pool[scope].names, name).1
            && Chain(st1.pool, scope) == [st1.pool[scope].names] + Chain(st.pool, scope)[1..]
  {
    hide DeclareIn, Chain;
    ChainAfter(st.pool, Declare(st, scope, name).0.pool, scope, scope);
  }

  lemma {:induction false} ForIsLexical(st: St, cap: nat, it: Item)
    requires !st.failed && it.scope < |st.pool| && it.s.For?
    ensures Realises(st, ResolveAll(Expand(st, cap, it).0, cap, Expand(st, cap, it).1), it.scope,
                     LexStmt(it.s, Chain(st.pool, it.scope), it.inFunc, ResultOf(st)))
    decreases Size(it.s), 0
  {
    hide ResolveAll, Chain, Find, LexFind, Declare, DeclareIn;
    FindIsLexical(st.pool, it.scope, it.s.arr);
    ChainHead(st.pool, it.scope);
    var st1 := Annotate(st, it.s.arrId, Note(Find(st.pool, it.scope, it.s.arr), false));
    DeclareTouches(st1, it.scope, it.s.name);
    ItemIsLexical(Expand(st, cap, it).0, cap, Item(it.s.each, it.scope, it.inFunc));
  }

  /** A table that was just allocated: nothing else has changed. */
  lemma Allocated(st: St, cap: nat, parent: Option<nat>, names: seq<Name>)
    requires !st.failed && (parent.Some? ==> parent.value < |st.pool|)
    ensures var st1 := AllocScope(st, cap, parent, names);
            !st1.failed ==>
            && |st1.pool| == |st.pool| + 1 && ResultOf(st1) == ResultOf(st)
            && (forall j | 0 <= j < |st.pool| :: st1.pool[j] == st.pool[j])
            && st1.pool[|st.pool|] == Table(names, parent)
            && Chain(st1.pool, |st.pool|) == [names] + (if parent.Some? then Chain(st.pool, parent.value) else [])
            && (forall j | 0 <= j < |st.pool| :: Chain(st1.pool, j) == Chain(st.pool, j))
  {
    var st1 := AllocScope(st, cap, parent, names);
    if !st1.failed {
      forall j | 0 <= j < |st.pool| ensures Chain(st1.pool, j) == Chain(st.pool, j) {
        ChainAfter(st.pool, st1.pool, |st.pool|, j);
      }
    }
  }

  lemma {:induction false} FuncIsLexical(st: St, cap: nat, it: Item)
    requires !st.failed && it.scope < |st.pool| && it.s.FuncDecl?
    ensures Realises(st, ResolveAll(Expand(st, cap, it).0, cap, Expand(st, cap, it).1), it.scope,
                     LexStmt(it.s, Chain(st.pool, it.scope), it.inFunc, ResultOf(st)))
    decreases Size(it.s), 0
  {
    hide ResolveAll, Chain, Declare, DeclareIn, DeclareAll, AllocScope;
    ChainHead(st.pool, it.scope);
    DeclareTouches(st, it.scope, it.s.name);
    var st1 := Declare(st, it.scope, it.s.name).0;
    var params := DeclareAll([], it.s.params, 0);
    Allocated(st1, cap, Some(it.scope), params);
    var st2 := AllocScope(st1, cap, Some(it.scope), params);
    if st2.failed {
      FailedStays(st2, cap, []);
    } else {
      var names := st1.pool[it.scope].names;
      assert [params] + ([names] + Chain(st.pool, it.scope)[1..]) == [params, names] + Chain(st.pool, it.scope)[1..];
      ItemIsLexical(st2, cap, Item(it.s.fn, |st1.pool|, it.inFunc + 1));
    }
  }

  lemma {:induction false} SeqIsLexical(st: St, cap: nat, body: seq<RStmt>, i: nat, scope: nat, inFunc: nat)
    requires !st.failed && scope < |st.pool| && i <= |body|
    ensures Realises(st, ResolveAll(st, cap, ItemsOf(body, scope, inFunc)[i..]), scope,
                     LexSeq(body, i, Chain(st.pool, scope), inFunc, ResultOf(st)))
    decreases BodySize(body, i), 2
  {
    hide ResolveAll, Chain, LexStmt;
    ChainHead(st.pool, scope);
    var items := ItemsOf(body, scope, inFunc);
    if i == |body| {
      assert items[i..] == [];
      NothingLeft(st, cap);
    } else {
      SizePositive(body[i]);
      ResolveHead(st, cap, items[i..]);
      assert items[i..][1..] == items[i + 1..] && items[i..][0] == Item(body[i], scope, inFunc);
      ItemIsLexical(st, cap, items[i]);
      var st1 := ResolveAll(st, cap, [items[i]]);
      if st1.failed {
        FailedStays(st1, cap, items[i + 1..]);
      } else {
        ChainAfter(st.pool, st1.pool, scope, scope);
        SeqIsLexical(st1, cap, body, i + 1, scope, inFunc);
      }
    }
  }

  lemma SizePositive(s: RStmt)
    ensures Size(s) >= 1
  {
  }

  // ----- blocks -----

  /** The waiting items are the methods among the first `n` members, last first, each in a table of its own. */
  ghost predicate Waits(pool: seq<Table>, w: seq<Item>, ms: seq<Member>, n: nat)
    requires n <= |ms|
    decreases n
  {
    if n == 0 then w == []
    else if !ms[n - 1].Method? then Waits(pool, w, ms, n - 1)
    else
      && w != [] && w[0].s == ms[n - 1].fn && w[0].inFunc == 1 && w[0].scope < |pool|
      && pool[w[0].scope] == Table(DeclareAll([], ms[n - 1].params, 0), None)
      && (forall k | 1 <= k < |w| :: w[k].scope < w[0].scope)
      && Waits(pool, w[1..], ms, n - 1)
  }

  lemma {:induction false} WaitsFrame(pool: seq<Table>, pool': seq<Table>, w: seq<Item>, ms: seq<Member>, n: nat)
    requires n <= |ms| && Waits(pool, w, ms, n) && |pool| <= |pool'|
    requires forall k | 0 <= k < |w| :: w[k].scope < |pool| && pool'[w[k].scope] == pool[w[k].scope]
    ensures Waits(pool', w, ms, n)
    decreases n
  {
    hide DeclareAll;
    if n > 0 {
      if ms[n - 1].Method? {
        WaitsFrame(pool, pool', w[1..], ms, n - 1);
      } else {
        WaitsFrame(pool, pool', w, ms, n - 1);
      }
    }
  }

  lemma {:induction false} WaitingIsLexical(st: St, cap: nat, w: seq<Item>, ms: seq<Member>, n: nat, lo: nat)
    requires !st.failed && n <= |ms| && Waits(st.pool, w, ms, n)
    requires forall k | 0 <= k < |w| :: lo <= w[k].scope < |st.pool|
    ensures var r := ResolveAll(st, cap, w);
            r.failed || (ResultOf(r) == LexMethods(ms, n, ResultOf(st)) && |st.pool| <= |r.pool| &&
                         forall j | 0 <= j < lo && j < |st.pool| :: r.pool[j] == st.pool[j])
    decreases Total(w), 2, n
  {
    hide ResolveAll, LexStmt, DeclareAll, Size, Chain;
    if n == 0 {
      NothingLeft(st, cap);
    } else if !ms[n - 1].Method? {
      WaitingIsLexical(st, cap, w, ms, n - 1, lo);
    } else {
      SizePositive(w[0].s);
      ResolveHead(st, cap, w);
      LoneChain(st.pool, w[0].scope);
      ItemIsLexical(st, cap, w[0]);
      var st1 := ResolveAll(st, cap, [w[0]]);
      if st1.failed {
        FailedStays(st1, cap, w[1..]);
      } else {
        WaitsFrame(st.pool, st1.pool, w[1..], ms, n - 1);
        WaitingIsLexical(st1, cap, w[1..], ms, n - 1, lo);
      }
    }
  }

  lemma LoneChain(pool: seq<Table>, scope: nat)
    requires scope < |pool| && pool[scope].parent.None?
    ensures Chain(pool, scope) == [pool[scope].names]
  {
  }

  lemma {:induction false} MembersAreLexical(
    st: St, cap: nat, ms: seq<Member>, i: nat, scope: nat, child: nat, inFunc: nat, w: seq<Item>)
    requires !st.failed && i <= |ms| && scope < child < |st.pool| && Waits(st.pool, w, ms, i)
    requires forall k | 0 <= k < |w| :: child < w[k].scope < |st.pool|
    ensures var r := ExpandMembers(st, cap, ms, i, scope, child, inFunc, w);
            !r.0.failed ==>
            && r.0.notes == LexFields(ms, i, Chain(st.pool, scope), inFunc, st.pool[child].names, st.notes)
            && r.0.maxSlots == st.maxSlots
            && Waits(r.0.pool, r.1, ms, |ms|) && (forall k | 0 <= k < |r.1| :: child < r.1[k].scope < |r.0.pool|)
            && |st.pool| <= |r.0.pool| && forall j | 0 <= j < child :: r.0.pool[j] == st.pool[j]
    decreases |ms| - i
  {
    hide ResolveExpr, LexExpr, Chain, Declare, DeclareIn, DeclareAll, AllocScope;
    if i < |ms| {
      match ms[i]
      case OtherMember => MembersAreLexical(st, cap, ms, i + 1, scope, child, inFunc, w);
      case Field(id, name, init) =>
        ExprIsLexical(st, init, scope, inFunc);
        var st1 := ResolveExpr(st, init, scope, inFunc);
        DeclareTouches(st1, child, name);
        var (st2, off) := Declare(st1, child, name);
        var st3 := Annotate(st2, id, Note(off, false));
        ChainAfter(st.pool, st3.pool, child, scope);
        WaitsFrame(st.pool, st3.pool, w, ms, i);
        MembersAreLexical(st3, cap, ms, i + 1, scope, child, inFunc, w);
      case Method(name, params, fn) =>
        DeclareTouches(st, child, name);
        var st1 := Declare(st, child, name).0;
        Allocated(st1, cap, None, DeclareAll([], params, 0));
        var st2 := AllocScope(st1, cap, None, DeclareAll([], params, 0));
        if !st2.failed {
          ChainAfter(st.pool, st1.pool, child, scope);
          WaitsFrame(st.pool, st2.pool, w, ms, i);
          var more := [Item(fn, |st1.pool|, 1)] + w;
          assert more[1..] == w;
          MembersAreLexical(st2, cap, ms, i + 1, scope, child, inFunc, more);
        }
    }
  }

  lemma {:induction false} BlockIsLexical(st: St, cap: nat, it: Item)
    requires !st.failed && it.scope < |st.pool| && it.s.BlockDecl?
    ensures Realises(st, ResolveAll(Expand(st, cap, it).0, cap, Expand(st, cap, it).1), it.scope,
                     LexStmt(it.s, Chain(st.pool, it.scope), it.inFunc, ResultOf(st)))
    decreases Size(it.s), 0
  {
    hide ResolveAll, Chain, Declare, DeclareIn, AllocScope, ExpandMembers, Size, LexFields, LexMethods;
    ExpandShrinks(st, cap, it);
    ChainHead(st.pool, it.scope);
    DeclareTouches(st, it.scope, it.s.name);
    var st1 := Declare(st, it.scope, it.s.name).0;
    Allocated(st1, cap, None, []);
    var st2 := AllocScope(st1, cap, None, []);
    if st2.failed {
      FailedStays(st2, cap, []);
    } else {
      var child := |st1.pool|;
      MembersAreLexical(st2, cap, it.s.members, 0, it.scope, child, it.inFunc, []);
      var (st3, kids) := ExpandMembers(st2, cap, it.s.members, 0, it.scope, child, it.inFunc, []);
      if st3.failed {
        FailedStays(st3, cap, kids);
      } else {
        WaitingIsLexical(st3, cap, kids, it.s.members, |it.s.members|, child);
      }
    }
  }

  // ----- whole programs -----

  function Initial(): St {
    St([Table([], None)], map[], 0, false)
  }

  /** What lexical scoping gives every node of a program, and the slots its tables need. */
  function Lexical(program: RStmt): Result {
    LexStmt(program, [[]], 0, Result(map[], 0)).1
  }

  /** The program needs no more room on the work stack and no more tables than there are. */
  predicate Resolvable(program: RStmt, cap: nat) {
    Depth(program) <= WORK_CAP && Tables(program) <= cap
  }

  lemma ProgramIsLexical(program: RStmt, cap: nat)
    requires Resolvable(program, cap)
    ensures var (st, lost) := Loop(Initial(), cap, [Item(program, 0, 0)]);
            !lost && !st.failed && ResultOf(st) == Lexical(program)
  {
    hide Loop, LexStmt, Depth, Tables, Chain, ResolveAll;
    var root := Item(program, 0, 0);
    NeedsOf(root);
    LoopFits(Initial(), cap, [root]);
    FailsIff(Initial(), cap, [root]);
    LoneChain(Initial().pool, 0);
    ItemIsLexical(Initial(), cap, root);
  }

  /**
   A whole program.  Where its needs are met the loop gives every node the slot
   and the warm flag that lexical scoping gives it, and returns the number of
   slots its tables need; otherwise it reports missing tables, or silently drops
   statements.  The source returns neither `overflow` nor a sign of it.
   */
  method ResolverRun(program: RStmt, cap: nat) returns (slots: int, notes: Notes, overflow: bool)
    ensures var (st, lost) := Loop(Initial(), cap, [Item(program, 0, 0)]);
            notes == st.notes && overflow == lost && slots == if st.failed then -1 else st.maxSlots
    ensures !overflow && slots >= 0 <==> Resolvable(program, cap)
    ensures Resolvable(program, cap) ==> Result(notes, slots) == Lexical(program)
    ensures Depth(program) <= WORK_CAP ==> !overflow && (slots == -1 <==> Tables(program) > cap)
    ensures Tables(program) <= cap ==> slots >= 0 && (overflow <==> Depth(program) > WORK_CAP)
  {
    hide Loop, LexStmt, Depth, Tables, ResolveAll;
    var root := Item(program, 0, 0);
    var st;
    st, overflow := ResolveStmts(Initial(), cap, root);
    notes := st.notes;
    slots := if st.failed then -1 else st.maxSlots;
    NeedsOf(root);
    FailsIff(Initial(), cap, [root]);
    if Resolvable(program, cap) {
      ProgramIsLexical(program, cap);
    } else if !overflow && !st.failed {
      CleanRunHadTables(Initial(), cap, [root]);
    }
  }

  /** One declaration more than the work stack holds. */
  function TooLong(x: Name): seq<RStmt> {
    seq(WORK_CAP + 1, i requires 0 <= i < WORK_CAP + 1 => VarDecl(i, x, Lit, false))
  }

  /** Declarations annotate themselves and nothing else. */
  lemma {:induction false} DeclarationsKeep(st: St, cap: nat, items: seq<Item>, id: Id)
    requires |items| <= WORK_CAP && id !in st.notes
    requires forall i | 0 <= i < |items| :: items[i].s.VarDecl? && items[i].s.init == Lit && items[i].s.id != id
    ensures id !in Loop(st, cap, items).0.notes
    decreases |items|
  {
    if items != [] && !st.failed {
      var st1 := Expand(st, cap, items[0]).0;
      assert Kept([], items[1..]) == items[1..];
      DeclarationsKeep(st1, cap, items[1..], id);
    }
  }

  lemma {:induction false} LexKeeps(x: Name, i: nat, names: seq<Name>, r: Result)
    requires 0 < i <= WORK_CAP + 1 && 0 in r.notes
    ensures var r' := LexSeq(TooLong(x), i, [names], 0, r).1; 0 in r'.notes && r'.notes[0] == r.notes[0]
    decreases WORK_CAP + 1 - i
  {
    if i < WORK_CAP + 1 {
      var (names', r1) := LexStmt(TooLong(x)[i], [names], 0, r);
      assert [names'] + [names][1..] == [names'];
      LexKeeps(x, i + 1, names', r1);
    }
  }

  /** Such a program is resolved without a sign of trouble, but its first variable never gets its slot. */
  lemma OverflowLosesSlot(x: Name, cap: nat)
    ensures var program := Seq(TooLong(x));
            var (st, lost) := Loop(Initial(), cap, [Item(program, 0, 0)]);
            lost && !st.failed && 0 !in st.notes && 0 in Lexical(program).notes && Lexical(program).notes[0].offset == 0
  {
    hide Loop, Depth, DeclareIn;
    var body := TooLong(x);
    var items := ItemsOf(body[1..], 0, 0);
    FirstStatementsLost(Initial(), cap, body, 0, 0);
    assert body[|body| - WORK_CAP..] == body[1..];
    DeclarationsKeep(Initial(), cap, items, 0);
    NoTablesWanted(body, 0);
    NeedsOf(Item(Seq(body), 0, 0));
    LoopDropsIff(Initial(), cap, [Item(Seq(body), 0, 0)]);
    var env: Env, r0 := [[]], Result(map[], 0);
    FirstName(x);
    var (names, r) := LexStmt(body[0], env, 0, r0);
    assert body[0] == VarDecl(0, x, Lit, false) && 0 in r.notes && r.notes[0].offset == 0;
    assert [names] + env[1..] == [names];
    assert Lexical(Seq(body)) == LexSeq(body, 0, env, 0, r0).1 == LexSeq(body, 1, [names], 0, r).1;
    LexKeeps(x, 1, names, r);
  }

  lemma FirstName(x: Name)
    ensures DeclareIn([], x) == ([x], 0)
  {
    var none: seq<Name> := [];
    assert IndexOf(none, x, 0) == -1 && none + [x] == [x];
  }

  lemma {:induction false} NoTablesWanted(body: seq<RStmt>, i: nat)
    requires i <= |body| && forall j | 0 <= j < |body| :: body[j].VarDecl?
    ensures BodyTables(body, i) == 0
    decreases |body| - i
  {
    if i < |body| {
      NoTablesWanted(body, i + 1);
    }
  }

  // ----- what an offset identifies -----

  /** The name is found in the innermost table. */
  predicate Own(env: Env, name: Name) {
    env != [] && name in env[0]
  }

  /** An offset points back to the name in the innermost table exactly when the name is found there. */
  lemma OffsetDenotesOwnIff(env: Env, x: Name)
    requires env != [] && LexFind(env, x) >= 0
    ensures (LexFind(env, x) < |env[0]| && env[0][LexFind(env, x)] == x) <==> Own(env, x)
  {
  }

  /** A function body that uses a variable from outside: it shares slot and flag with one of its own names. */
  lemma OuterNameShares(own: seq<Name>, outer: seq<Name>, i: nat, inFunc: nat, notes: Notes)
    requires i < |own| && i < |outer| && outer[i] !in own && inFunc > 0
    requires Injective(own) && Injective(outer)
    ensures var n1 := LexExpr(notes, Ident(1, outer[i]), [own, outer], inFunc);
            var n2 := LexExpr(n1, Ident(2, own[i]), [own, outer], inFunc);
            n2[1] == n2[2] == Note(i, true)
  {
    var env: Env := [own, outer];
    assert env[1..] == [outer];
    assert LexFind(env, own[i]) == i;
    assert LexFind(env, outer[i]) == LexFind([outer], outer[i]) == i;
  }

  /** `x` is global; `f` takes `y` and uses both. */
  function Sharing(x: Name, f: Name, y: Name): RStmt {
    Seq([VarDecl(0, x, Lit, false), FuncDecl(f, [y], Exprs([Ident(1, x), Ident(2, y)]))])
  }

  /** A whole program in which two variables of one function get the same slot and flag. */
  lemma ProgramShares(x: Name, f: Name, y: Name, cap: nat)
    requires x != y && cap > 0
    ensures Resolvable(Sharing(x, f, y), cap)
    ensures var notes := Lexical(Sharing(x, f, y)).notes;
            1 in notes && 2 in notes && notes[1] == notes[2] == Note(0, true)
  {
    SharingNeeds(x, f, y);
    var es, fn := [Ident(1, x), Ident(2, y)], Exprs([Ident(1, x), Ident(2, y)]);
    var body := [VarDecl(0, x, Lit, false), FuncDecl(f, [y], fn)];
    var (names, r) := LexStmt(body[0], [[]], 0, Result(map[], 0));
    FirstName(x);
    FirstName(y);
    assert names == [x] && [names] + [[]][1..] == [[x]];
    var outer := DeclareIn([x], f).0;
    assert outer[0] == x && IndexOf(outer, x, 0) == 0;
    assert DeclareAll([], [y], 0) == [y];
    var env: Env := [[y], outer];
    assert [DeclareAll([], [y], 0), outer] + [[x]][1..] == env;
    assert env[1..] == [outer] && LexFind(env, x) == LexFind([outer], x) == 0 && LexFind(env, y) == 0;
    var n1 := LexExpr(r.notes, es[0], env, 1);
    assert LexExprs(r.notes, es, 0, env, 1) == LexExprs(n1, es, 1, env, 1) == LexExpr(n1, es[1], env, 1);
    var r2 := LexStmt(fn, env, 1, r).1;
    assert LexStmt(body[1], [[x]], 0, r) == (outer, r2);
    assert LexSeq(body, 0, [[]], 0, Result(map[], 0)) == LexSeq(body, 1, [[x]], 0, r);
    assert LexSeq(body, 1, [[x]], 0, r).1 == r2;
  }

  lemma SharingNeeds(x: Name, f: Name, y: Name)
    ensures Depth(Sharing(x, f, y)) == 2 && Tables(Sharing(x, f, y)) == 1
  {
    var body := Sharing(x, f, y).body;
    assert Depth(body[1]) == Depth(body[1].fn) == 1 && Tables(body[1]) == 1 + Tables(body[1].fn) == 1;
    assert BodyDepth(body, 1) == 1 && BodyTables(body, 1) == 1;
    assert Sharing(x, f, y) == Seq(body) && BodyDepth(body, 0) == 2 && BodyTables(body, 0) == 1;
  }
}
