/**
 Name resolution.  The resolver walks the program with an explicit work stack and
 a pool of symbol tables; this module states it one work item at a time, and
 states separately what lexical scoping demands.
 */
module Resolver {
  import opened Values

  type Id = nat

  /** What a node is looked up as, once its subexpressions are resolved. */
  datatype Target = NoTarget | Unresolved | Lookup(name: Name)

  datatype RExpr =
    | Lit
    | Ident(id: Id, name: Name)
    | Node(id: Id, subs: seq<RExpr>, target: Target)

  /** Statements that only resolve expressions (assignments, calls, returns) are `Exprs`. */
  datatype RStmt =
    | Seq(body: seq<RStmt>)
    | VarDecl(id: Id, name: Name, init: RExpr, persistent: bool)
    | If(cond: RExpr, thn: RStmt, els: Option<RStmt>)
    | While(cond: RExpr, loop: RStmt)
    | For(id: Id, arrId: Id, arr: Name, name: Name, each: RStmt)
    | Exprs(es: seq<RExpr>)
    | FuncDecl(name: Name, params: seq<Name>, fn: RStmt)
    | BlockDecl(name: Name, members: seq<Member>)
    | TypeofInst(id: Id, name: Name)
    | Danger(risky: RStmt)

  datatype Member =
    | Field(id: Id, name: Name, init: RExpr)
    | Method(name: Name, params: seq<Name>, fn: RStmt)
    | OtherMember

  /** The annotation of a node: its slot, or -1, and whether it is a warm local. */
  datatype Note = Note(offset: int, warm: bool)

  type Notes = map<Id, Note>

  const SYM_MAX: nat := 512
  const WORK_CAP: nat := 4096

  // ----- symbol tables -----

  /** Names in declaration order; the offset of a name is its position. */
  function IndexOf(names: seq<Name>, name: Name, i: nat): (r: int)
    requires i <= |names|
    ensures r == -1 ==> forall j | i <= j < |names| :: names[j] != name
    ensures r != -1 ==> i <= r < |names| && names[r] == name && forall j | i <= j < r :: names[j] != name
    decreases |names| - i
  {
    if i == |names| then -1 else if names[i] == name then i else IndexOf(names, name, i + 1)
  }

  /** A known name keeps its offset; a full table refuses new ones. */
  function DeclareIn(names: seq<Name>, name: Name): (seq<Name>, int) {
    var i := IndexOf(names, name, 0);
    if i >= 0 then (names, i)
    else if |names| >= SYM_MAX then (names, -1)
    else (names + [name], |names|)
  }

  function DeclareAll(names: seq<Name>, ps: seq<Name>, i: nat): seq<Name>
    requires i <= |ps|
    decreases |ps| - i
  {
    if i == |ps| then names else DeclareAll(DeclareIn(names, ps[i]).0, ps, i + 1)
  }

  ghost predicate Injective(names: seq<Name>) {
    forall i, j | 0 <= i < j < |names| :: names[i] != names[j]
  }

  /** Offsets stay dense and injective: old names keep theirs, a new one gets the next. */
  lemma DeclareKeeps(names: seq<Name>, name: Name)
    requires Injective(names)
    ensures var (names', off) := DeclareIn(names, name);
            && Injective(names') && names <= names' && |names'| <= |names| + 1
            && (off == -1 <==> name !in names && |names| >= SYM_MAX)
            && (off != -1 ==> 0 <= off < |names'| && names'[off] == name)
            && (off != -1 ==> IndexOf(names', name, 0) == off)
  {
    var (names', off) := DeclareIn(names, name);
    if off == |names| {
      assert names'[off] == name && forall j | 0 <= j < off :: names'[j] != name;
    }
  }

  /** Distinct parameters get the offsets 0, 1, 2 and so on, as far as the table goes. */
  lemma {:induction false} DeclaredInOrder(ps: seq<Name>, i: nat)
    requires Injective(ps) && |ps| <= SYM_MAX && i <= |ps|
    ensures DeclareAll(ps[..i], ps, i) == ps
    decreases |ps| - i
  {
    if i == |ps| {
      assert ps[..i] == ps;
    } else {
      assert ps[..i] + [ps[i]] == ps[..i + 1];
      DeclaredInOrder(ps, i + 1);
    }
  }

  /** So a parameter is found in the slot its argument is bound to. */
  lemma ParameterOffsets(ps: seq<Name>, i: nat)
    requires Injective(ps) && |ps| <= SYM_MAX && i < |ps|
    ensures DeclareAll([], ps, 0) == ps && IndexOf(DeclareAll([], ps, 0), ps[i], 0) == i
  {
    assert ps[..0] == [];
    DeclaredInOrder(ps, 0);
  }

  /** Of a repeated name the first occurrence counts, and no table has more than 512 names. */
  lemma {:induction false} DeclaredOnce(names: seq<Name>, ps: seq<Name>, i: nat)
    requires Injective(names) && |names| <= SYM_MAX && i <= |ps|
    ensures var all := DeclareAll(names, ps, i);
            && Injective(all) && names <= all && |all| <= SYM_MAX
            && (forall x :: x in all ==> x in names || x in ps[i..])
            && (|all| < SYM_MAX ==> forall j | i <= j < |ps| :: ps[j] in all)
    decreases |ps| - i
  {
    if i < |ps| {
      DeclareKeeps(names, ps[i]);
      var (names', off) := DeclareIn(names, ps[i]);
      DeclaredOnce(names', ps, i + 1);
      assert ps[i..] == [ps[i]] + ps[i + 1..];
      assert off != -1 ==> names'[off] == ps[i];
    }
  }

  // ----- the work item machine -----

  datatype Table = Table(names: seq<Name>, parent: Option<nat>)

  datatype St = St(pool: seq<Table>, notes: Notes, maxSlots: nat, failed: bool)

  /** A statement with the scope and the function depth that were current when it was pushed. */
  datatype Item = Item(s: RStmt, scope: nat, inFunc: nat)

  /** Innermost table first; parents were allocated before their children. */
  function Find(pool: seq<Table>, scope: nat, name: Name): int
    decreases scope
  {
    if scope >= |pool| then -1
    else
      var i := IndexOf(pool[scope].names, name, 0);
      if i >= 0 then i
      else
        match pool[scope].parent
        case Some(p) => if p < scope then Find(pool, p, name) else -1
        case None => -1
  }

  function Declare(st: St, scope: nat, name: Name): (St, int) {
    if scope >= |st.pool| then (st, -1)
    else
      var (names, off) := DeclareIn(st.pool[scope].names, name);
      (st.(pool := st.pool[scope := st.pool[scope].(names := names)]), off)
  }

  function Annotate(st: St, id: Id, n: Note): St {
    st.(notes := st.notes[id := n])
  }

  function NoteSlots(st: St, scope: nat): St {
    if scope < |st.pool| && |st.pool[scope].names| > st.maxSlots
    then st.(maxSlots := |st.pool[scope].names|) else st
  }

  function ResolveExpr(st: St, e: RExpr, scope: nat, inFunc: nat): St
    decreases e, 0
  {
    match e
    case Lit => st
    case Ident(id, name) =>
      var off := Find(st.pool, scope, name);
      Annotate(st, id, Note(off, inFunc > 0 && off >= 0))
    case Node(id, subs, target) =>
      var st1 := ResolveExprs(st, subs, 0, scope, inFunc);
      match target
      case NoTarget => st1
      case Unresolved => Annotate(st1, id, Note(-1, false))
      case Lookup(name) => Annotate(st1, id, Note(Find(st1.pool, scope, name), false))
  }

  function ResolveExprs(st: St, es: seq<RExpr>, i: nat, scope: nat, inFunc: nat): St
    requires i <= |es|
    decreases es, |es| - i
  {
    if i == |es| then st else ResolveExprs(ResolveExpr(st, es[i], scope, inFunc), es, i + 1, scope, inFunc)
  }

  /** A new table from the pool of `cap`, or a failure that ends the run. */
  function AllocScope(st: St, cap: nat, parent: Option<nat>, names: seq<Name>): St {
    if |st.pool| > cap then st.(failed := true) else st.(pool := st.pool + [Table(names, parent)])
  }

  function ItemsOf(body: seq<RStmt>, scope: nat, inFunc: nat): seq<Item> {
    seq(|body|, i requires 0 <= i < |body| => Item(body[i], scope, inFunc))
  }

  /** Fields go into the block's own table; method bodies wait, the last one first. */
  function ExpandMembers(
    st: St, cap: nat, ms: seq<Member>, i: nat, scope: nat, child: nat, inFunc: nat, waiting: seq<Item>)
    : (St, seq<Item>)
    requires i <= |ms|
    decreases |ms| - i
  {
    if i == |ms| then (st, waiting)
    else
      match ms[i]
      case OtherMember => ExpandMembers(st, cap, ms, i + 1, scope, child, inFunc, waiting)
      case Field(id, name, init) =>
        var st1 := ResolveExpr(st, init, scope, inFunc);
        var (st2, off) := Declare(st1, child, name);
        var st3 := Annotate(st2, id, Note(off, false));
        ExpandMembers(st3, cap, ms, i + 1, scope, child, inFunc, waiting)
      case Method(name, params, fn) =>
        var st1 := Declare(st, child, name).0;
        var st2 := AllocScope(st1, cap, None, DeclareAll([], params, 0));
        if st2.failed then (st2, waiting)
        else ExpandMembers(st2, cap, ms, i + 1, scope, child, inFunc, [Item(fn, |st1.pool|, 1)] + waiting)
  }

  /** One turn of the loop: the new state, and what has to be resolved next, in that order. */
  function Expand(st: St, cap: nat, it: Item): (St, seq<Item>) {
    var scope, inFunc := it.scope, it.inFunc;
    match it.s
    case Seq(body) => (st, ItemsOf(body, scope, inFunc))
    case VarDecl(id, name, init, persistent) =>
      var st1 := ResolveExpr(st, init, scope, inFunc);
      var (st2, off) := Declare(st1, scope, name);
      var st3 := Annotate(st2, id, Note(off, inFunc > 0 && !persistent && off >= 0));
      (NoteSlots(st3, scope), [])
    case If(cond, thn, els) =>
      var st1 := ResolveExpr(st, cond, scope, inFunc);
      (st1, [Item(thn, scope, inFunc)] + (if els.Some? then [Item(els.value, scope, inFunc)] else []))
    case While(cond, loop) => (ResolveExpr(st, cond, scope, inFunc), [Item(loop, scope, inFunc)])
    case For(id, arrId, arr, name, each) =>
      var st1 := Annotate(st, arrId, Note(Find(st.pool, scope, arr), false));
      var (st2, off) := Declare(st1, scope, name);
      var st3 := Annotate(st2, id, Note(off, false));
      (NoteSlots(st3, scope), [Item(each, scope, inFunc)])
    case Exprs(es) => (ResolveExprs(st, es, 0, scope, inFunc), [])
    case FuncDecl(name, params, fn) =>
      var st1 := Declare(st, scope, name).0;
      var st2 := AllocScope(st1, cap, Some(scope), DeclareAll([], params, 0));
      (st2, if st2.failed then [] else [Item(fn, |st1.pool|, inFunc + 1)])
    case BlockDecl(name, members) =>
      var st1 := Declare(st, scope, name).0;
      var st2 := AllocScope(st1, cap, None, []);
      if st2.failed then (st2, [])
      else ExpandMembers(st2, cap, members, 0, scope, |st1.pool|, inFunc, [])
    case TypeofInst(id, name) => (Annotate(Declare(st, scope, name).0, id, Note(-1, false)), [])
    case Danger(risky) => (st, [Item(risky, scope, inFunc)])
  }

  // ----- sizes, for termination -----

  function Size(s: RStmt): nat
    decreases s, 0
  {
    match s
    case Seq(body) => 1 + BodySize(body, 0)
    case If(_, thn, els) => 1 + Size(thn) + (if els.Some? then Size(els.value) else 0)
    case While(_, loop) => 1 + Size(loop)
    case For(_, _, _, _, each) => 1 + Size(each)
    case FuncDecl(_, _, fn) => 1 + Size(fn)
    case BlockDecl(_, members) => 1 + MembersSize(members, 0)
    case Danger(risky) => 1 + Size(risky)
    case _ => 1
  }

  function BodySize(body: seq<RStmt>, i: nat): nat
    requires i <= |body|
    decreases body, |body| - i
  {
    if i == |body| then 0 else Size(body[i]) + BodySize(body, i + 1)
  }

  function MembersSize(ms: seq<Member>, i: nat): nat
    requires i <= |ms|
    decreases ms, |ms| - i
  {
    if i == |ms| then 0 else (if ms[i].Method? then Size(ms[i].fn) else 0) + MembersSize(ms, i + 1)
  }

  function Total(items: seq<Item>): nat {
    if items == [] then 0 else Size(items[0].s) + Total(items[1..])
  }

  lemma {:induction false} TotalAppend(a: seq<Item>, b: seq<Item>)
    ensures Total(a + b) == Total(a) + Total(b)
  {
    if a == [] {
      assert a + b == b;
    } else {
      assert (a + b)[1..] == a[1..] + b;
      TotalAppend(a[1..], b);
    }
  }

  lemma {:induction false} ItemsSize(body: seq<RStmt>, i: nat, scope: nat, inFunc: nat)
    requires i <= |body|
    ensures Total(ItemsOf(body, scope, inFunc)[i..]) == BodySize(body, i)
    decreases |body| - i
  {
    if i < |body| {
      var items := ItemsOf(body, scope, inFunc);
      assert items[i..][1..] == items[i + 1..];
      ItemsSize(body, i + 1, scope, inFunc);
    }
  }

  lemma {:induction false} MembersTotal(
    st: St, cap: nat, ms: seq<Member>, i: nat, scope: nat, child: nat, inFunc: nat, waiting: seq<Item>)
    requires i <= |ms|
    ensures Total(ExpandMembers(st, cap, ms, i, scope, child, inFunc, waiting).1) <= Total(waiting) + MembersSize(ms, i)
    decreases |ms| - i
  {
    hide ResolveExpr, Size;
    if i < |ms| {
      match ms[i]
      case OtherMember => MembersTotal(st, cap, ms, i + 1, scope, child, inFunc, waiting);
      case Field(id, name, init) =>
        var st1 := ResolveExpr(st, init, scope, inFunc);
        var (st2, off) := Declare(st1, child, name);
        MembersTotal(Annotate(st2, id, Note(off, false)), cap, ms, i + 1, scope, child, inFunc, waiting);
      case Method(name, params, fn) =>
        var st1 := Declare(st, child, name).0;
        var st2 := AllocScope(st1, cap, None, DeclareAll([], params, 0));
        var more := [Item(fn, |st1.pool|, 1)] + waiting;
        assert more[1..] == waiting;
        if !st2.failed {
          MembersTotal(st2, cap, ms, i + 1, scope, child, inFunc, more);
        }
    }
  }

  /** What an item leaves to do is smaller than the item. */
  lemma ExpandShrinks(st: St, cap: nat, it: Item)
    ensures Total(Expand(st, cap, it).1) < Size(it.s)
  {
    hide ResolveExpr, ResolveExprs, ExpandMembers, Declare, AllocScope;
    match it.s
    case Seq(body) =>
      ItemsSize(body, 0, it.scope, it.inFunc);
      assert ItemsOf(body, it.scope, it.inFunc)[0..] == ItemsOf(body, it.scope, it.inFunc);
    case If(_, thn, els) =>
      if els.Some? {
        TotalAppend([Item(thn, it.scope, it.inFunc)], [Item(els.value, it.scope, it.inFunc)]);
      }
    case BlockDecl(name, members) =>
      var st1 := Declare(st, it.scope, name).0;
      var st2 := AllocScope(st1, cap, None, []);
      if !st2.failed {
        MembersTotal(st2, cap, members, 0, it.scope, |st1.pool|, it.inFunc, []);
      }
    case _ =>
  }

  // ----- what a program needs: room on the work stack, and tables -----

  function Max(x: nat, y: nat): nat {
    if x < y then y else x
  }

  /** The most items that wait on the stack at once while the statement is resolved, itself included. */
  function Depth(s: RStmt): (d: nat)
    ensures d >= 1
    decreases s, 0
  {
    match s
    case Seq(body) => Max(1, BodyDepth(body, 0))
    case If(_, thn, els) => if els.Some? then Max(Depth(thn) + 1, Depth(els.value)) else Depth(thn)
    case While(_, loop) => Depth(loop)
    case For(_, _, _, _, each) => Depth(each)
    case FuncDecl(_, _, fn) => Depth(fn)
    case BlockDecl(_, members) => Max(1, MembersDepth(members, |members|))
    case Danger(risky) => Depth(risky)
    case _ => 1
  }

  /** A statement of a sequence is resolved on top of those that follow it. */
  function BodyDepth(body: seq<RStmt>, i: nat): nat
    requires i <= |body|
    decreases body, |body| - i
  {
    if i == |body| then 0 else Max(Depth(body[i]) + |body| - i - 1, BodyDepth(body, i + 1))
  }

  function Methods(ms: seq<Member>, n: nat): nat
    requires n <= |ms|
  {
    if n == 0 then 0 else Methods(ms, n - 1) + if ms[n - 1].Method? then 1 else 0
  }

  /** A method body is resolved on top of those of the methods before it. */
  function MembersDepth(ms: seq<Member>, n: nat): nat
    requires n <= |ms|
    decreases ms, n
  {
    if n == 0 then 0
    else if !ms[n - 1].Method? then MembersDepth(ms, n - 1)
    else Max(Depth(ms[n - 1].fn) + Methods(ms, n - 1), MembersDepth(ms, n - 1))
  }

  /** One table for every function, block and method. */
  function Tables(s: RStmt): nat
    decreases s, 0
  {
    match s
    case Seq(body) => BodyTables(body, 0)
    case If(_, thn, els) => Tables(thn) + (if els.Some? then Tables(els.value) else 0)
    case While(_, loop) => Tables(loop)
    case For(_, _, _, _, each) => Tables(each)
    case FuncDecl(_, _, fn) => 1 + Tables(fn)
    case BlockDecl(_, members) => 1 + MembersTables(members, 0)
    case Danger(risky) => Tables(risky)
    case _ => 0
  }

  function BodyTables(body: seq<RStmt>, i: nat): nat
    requires i <= |body|
    decreases body, |body| - i
  {
    if i == |body| then 0 else Tables(body[i]) + BodyTables(body, i + 1)
  }

  function MembersTables(ms: seq<Member>, i: nat): nat
    requires i <= |ms|
    decreases ms, |ms| - i
  {
    if i == |ms| then 0 else (if ms[i].Method? then 1 + Tables(ms[i].fn) else 0) + MembersTables(ms, i + 1)
  }

  function Peak(items: seq<Item>): nat {
    if items == [] then 0 else Max(Depth(items[0].s) + |items| - 1, Peak(items[1..]))
  }

  function Wanted(items: seq<Item>): nat {
    if items == [] then 0 else Tables(items[0].s) + Wanted(items[1..])
  }

  lemma {:induction false} PeakAppend(a: seq<Item>, b: seq<Item>)
    ensures Peak(a + b) == if a == [] then Peak(b) else Max(Peak(a) + |b|, Peak(b))
    ensures |a| <= Peak(a)
  {
    hide Depth;
    if a == [] {
      assert a + b == b;
    } else {
      assert (a + b)[1..] == a[1..] + b && (a + b)[0] == a[0];
      PeakAppend(a[1..], b);
    }
  }

  lemma {:induction false} WantedAppend(a: seq<Item>, b: seq<Item>)
    ensures Wanted(a + b) == Wanted(a) + Wanted(b)
  {
    hide Tables;
    if a == [] {
      assert a + b == b;
    } else {
      assert (a + b)[1..] == a[1..] + b;
      WantedAppend(a[1..], b);
    }
  }

  lemma {:induction false} BodyNeeds(body: seq<RStmt>, i: nat, scope: nat, inFunc: nat)
    requires i <= |body|
    ensures var items := ItemsOf(body, scope, inFunc)[i..];
            Peak(items) == BodyDepth(body, i) && Wanted(items) == BodyTables(body, i)
    decreases |body| - i
  {
    hide Depth, Tables;
    if i < |body| {
      var items := ItemsOf(body, scope, inFunc);
      assert items[i..][1..] == items[i + 1..];
      BodyNeeds(body, i + 1, scope, inFunc);
    }
  }

  /** Tables that can still be had. */
  function Room(st: St, cap: nat): int {
    cap + 1 - |st.pool|
  }

  lemma {:induction false} MembersNeed(
    st: St, cap: nat, ms: seq<Member>, i: nat, scope: nat, child: nat, inFunc: nat, waiting: seq<Item>)
    requires i <= |ms| && !st.failed && Room(st, cap) >= 0
    requires Peak(waiting) == MembersDepth(ms, i) && |waiting| == Methods(ms, i)
    ensures var (st', kids) := ExpandMembers(st, cap, ms, i, scope, child, inFunc, waiting);
            && Peak(kids) <= MembersDepth(ms, |ms|) && Room(st', cap) >= 0
            && (!st'.failed ==> && Peak(kids) == MembersDepth(ms, |ms|)
                                && Room(st', cap) - Wanted(kids)
                                == Room(st, cap) - Wanted(waiting) - MembersTables(ms, i))
            && (st'.failed ==> MembersTables(ms, i) > Room(st, cap))
    decreases |ms| - i
  {
    hide ResolveExpr, Depth, Tables, DeclareIn, DeclareAll;
    if i < |ms| {
      match ms[i]
      case OtherMember => MembersNeed(st, cap, ms, i + 1, scope, child, inFunc, waiting);
      case Field(id, name, init) =>
        KeepsPool(st, init, scope, inFunc);
        var st1 := ResolveExpr(st, init, scope, inFunc);
        var (st2, off) := Declare(st1, child, name);
        MembersNeed(Annotate(st2, id, Note(off, false)), cap, ms, i + 1, scope, child, inFunc, waiting);
      case Method(name, params, fn) =>
        var st1 := Declare(st, child, name).0;
        var st2 := AllocScope(st1, cap, None, DeclareAll([], params, 0));
        if st2.failed {
          DepthGrows(ms, i, |ms|);
        } else {
          var more := [Item(fn, |st1.pool|, 1)] + waiting;
          assert more[1..] == waiting;
          MembersNeed(st2, cap, ms, i + 1, scope, child, inFunc, more);
        }
    }
  }

  lemma {:induction false} DepthGrows(ms: seq<Member>, i: nat, n: nat)
    requires i <= n <= |ms|
    ensures MembersDepth(ms, i) <= MembersDepth(ms, n)
    decreases n
  {
    hide Depth;
    if i < n {
      DepthGrows(ms, i, n - 1);
    }
  }

  /** Expressions only add annotations. */
  lemma {:induction false} KeepsPool(st: St, e: RExpr, scope: nat, inFunc: nat)
    ensures var st' := ResolveExpr(st, e, scope, inFunc); st' == st.(notes := st'.notes)
    decreases e, 0
  {
    if e.Node? {
      KeepsPools(st, e.subs, 0, scope, inFunc);
    }
  }

  lemma {:induction false} KeepsPools(st: St, es: seq<RExpr>, i: nat, scope: nat, inFunc: nat)
    requires i <= |es|
    ensures var st' := ResolveExprs(st, es, i, scope, inFunc); st' == st.(notes := st'.notes)
    decreases es, |es| - i
  {
    if i < |es| {
      KeepsPool(st, es[i], scope, inFunc);
      KeepsPools(ResolveExpr(st, es[i], scope, inFunc), es, i + 1, scope, inFunc);
    }
  }

  /** What an item leaves to do needs what the item needed, less the tables it took. */
  lemma ExpandNeeds(st: St, cap: nat, it: Item)
    requires !st.failed && Room(st, cap) >= 0
    ensures var (st', kids) := Expand(st, cap, it);
            && Peak(kids) <= Depth(it.s) && Room(st', cap) >= 0
            && (!st'.failed ==> && Depth(it.s) == Max(1, Peak(kids))
                                && Room(st', cap) - Wanted(kids) == Room(st, cap) - Tables(it.s))
            && (st'.failed ==> Tables(it.s) > Room(st, cap))
  {
    hide ResolveExpr, ResolveExprs, ExpandMembers, DeclareIn, DeclareAll, Find, Peak, Wanted;
    var scope, inFunc := it.scope, it.inFunc;
    NeedsNothing();
    match it.s
    case Seq(body) =>
      BodyNeeds(body, 0, scope, inFunc);
      assert ItemsOf(body, scope, inFunc)[0..] == ItemsOf(body, scope, inFunc);
    case VarDecl(_, _, init, _) => KeepsPool(st, init, scope, inFunc);
    case If(cond, thn, els) =>
      KeepsPool(st, cond, scope, inFunc);
      NeedsOf(Item(thn, scope, inFunc));
      if els.Some? {
        NeedsOf(Item(els.value, scope, inFunc));
        PeakAppend([Item(thn, scope, inFunc)], [Item(els.value, scope, inFunc)]);
        WantedAppend([Item(thn, scope, inFunc)], [Item(els.value, scope, inFunc)]);
      } else {
        assert Expand(st, cap, it).1 == [Item(thn, scope, inFunc)];
      }
    case While(cond, loop) =>
      KeepsPool(st, cond, scope, inFunc);
      NeedsOf(Item(loop, scope, inFunc));
    case For(_, _, _, _, each) => NeedsOf(Item(each, scope, inFunc));
    case Exprs(es) => KeepsPools(st, es, 0, scope, inFunc);
    case FuncDecl(_, _, fn) => NeedsOf(Item(fn, |st.pool|, inFunc + 1));
    case BlockDecl(name, members) =>
      var st1 := Declare(st, scope, name).0;
      var st2 := AllocScope(st1, cap, None, []);
      if !st2.failed {
        MembersNeed(st2, cap, members, 0, scope, |st1.pool|, inFunc, []);
      }
    case TypeofInst(_, _) =>
    case Danger(risky) => NeedsOf(Item(risky, scope, inFunc));
  }

  lemma NeedsNothing()
    ensures Peak([]) == 0 && Wanted([]) == 0
  {
  }

  lemma NeedsOf(it: Item)
    ensures Peak([it]) == Depth(it.s) && Wanted([it]) == Tables(it.s)
  {
    assert [it][1..] == [];
  }

  // ----- recursive pre-order and the loop -----

  /** Items one after the other, each with everything below it before the next. */
  function ResolveAll(st: St, cap: nat, items: seq<Item>): St
    decreases Total(items)
  {
    if items == [] || st.failed then st
    else
      var (st1, kids) := Expand(st, cap, items[0]);
      ExpandShrinks(st, cap, items[0]);
      ResolveAll(ResolveAll(st1, cap, kids), cap, items[1..])
  }

  lemma {:induction false} ResolveAppend(st: St, cap: nat, a: seq<Item>, b: seq<Item>)
    ensures ResolveAll(st, cap, a + b) == ResolveAll(ResolveAll(st, cap, a), cap, b)
    decreases |a|
  {
    hide Expand, Total;
    if a == [] {
      assert a + b == b;
    } else if !st.failed {
      assert (a + b)[0] == a[0] && (a + b)[1..] == a[1..] + b;
      var (st1, kids) := Expand(st, cap, a[0]);
      ResolveAppend(ResolveAll(st1, cap, kids), cap, a[1..], b);
    }
  }

  // ----- the loop with its bounded stack -----

  /** What is waiting once `xs` is pushed, the last one first: pushes onto a full stack are dropped. */
  function Kept(xs: seq<Item>, rest: seq<Item>): (r: seq<Item>)
    requires |rest| <= WORK_CAP
    ensures |r| <= WORK_CAP && (|xs| + |rest| <= WORK_CAP ==> r == xs + rest)
  {
    (if |xs| + |rest| <= WORK_CAP then xs else xs[|xs| + |rest| - WORK_CAP..]) + rest
  }

  lemma KeptTotal(xs: seq<Item>, rest: seq<Item>)
    requires |rest| <= WORK_CAP
    ensures Total(Kept(xs, rest)) <= Total(xs) + Total(rest)
  {
    hide Total;
    var n := if |xs| + |rest| <= WORK_CAP then 0 else |xs| + |rest| - WORK_CAP;
    assert xs == xs[..n] + xs[n..];
    TotalAppend(xs[..n], xs[n..]);
    TotalAppend(xs[n..], rest);
    assert Kept(xs, rest) == xs[n..] + rest;
  }

  lemma TotalHead(items: seq<Item>)
    requires items != []
    ensures Total(items) == Size(items[0].s) + Total(items[1..])
  {
  }

  /** The loop on what is waiting: the state it ends in, and whether anything was dropped on the way. */
  function Loop(st: St, cap: nat, pending: seq<Item>): (St, bool)
    requires |pending| <= WORK_CAP
    decreases Total(pending)
  {
    if pending == [] || st.failed then (st, false)
    else
      var (st1, kids) := Expand(st, cap, pending[0]);
      ExpandShrinks(st, cap, pending[0]);
      KeptTotal(kids, pending[1..]);
      TotalHead(pending);
      var (st2, lost) := Loop(st1, cap, Kept(kids, pending[1..]));
      (st2, lost || |kids| + |pending| - 1 > WORK_CAP)
  }

  /** Where the work fits on the stack nothing is dropped, and the loop is recursive resolution. */
  lemma {:induction false} LoopFits(st: St, cap: nat, pending: seq<Item>)
    requires |pending| <= WORK_CAP && Room(st, cap) >= 0 && Peak(pending) <= WORK_CAP
    ensures Loop(st, cap, pending) == (ResolveAll(st, cap, pending), false)
    decreases Total(pending)
  {
    hide Expand, Peak, Total;
    if pending != [] && !st.failed {
      var it, rest := pending[0], pending[1..];
      var (st1, kids) := Expand(st, cap, it);
      ExpandShrinks(st, cap, it);
      TotalHead(pending);
      TotalAppend(kids, rest);
      assert [it] + rest == pending;
      PeakAppend([it], rest);
      NeedsOf(it);
      ExpandNeeds(st, cap, it);
      PeakAppend(kids, rest);
      LoopFits(st1, cap, kids + rest);
      ResolveAppend(st1, cap, kids, rest);
    }
  }

  /** One turn of the loop: what still has to fit, and the tables still wanted. */
  lemma TurnNeeds(st: St, cap: nat, it: Item, rest: seq<Item>)
    requires |rest| < WORK_CAP && !st.failed && Wanted([it] + rest) <= Room(st, cap)
    ensures var (st1, kids) := Expand(st, cap, it);
            && !st1.failed && Wanted(Kept(kids, rest)) <= Room(st1, cap)
            && (if |kids| + |rest| > WORK_CAP then Peak([it] + rest) > WORK_CAP
                else Peak(kids + rest) > WORK_CAP <==> Peak([it] + rest) > WORK_CAP)
  {
    hide Expand, Peak, Wanted, Depth, Tables, Kept;
    var (st1, kids) := Expand(st, cap, it);
    NeedsNothing();
    PeakAppend([it], rest);
    WantedAppend([it], rest);
    NeedsOf(it);
    ExpandNeeds(st, cap, it);
    KeptWanted(kids, rest);
    PeakAppend(kids, rest);
  }

  /** Where the tables suffice the loop never fails, and it drops something exactly when the work does not fit. */
  lemma {:induction false} LoopDropsIff(st: St, cap: nat, pending: seq<Item>)
    requires |pending| <= WORK_CAP && !st.failed && Wanted(pending) <= Room(st, cap)
    ensures var (st', lost) := Loop(st, cap, pending); !st'.failed && (lost <==> Peak(pending) > WORK_CAP)
    decreases Total(pending)
  {
    hide Expand, Peak, Total, Wanted;
    if pending == [] {
      NeedsNothing();
    } else {
      var it, rest := pending[0], pending[1..];
      assert pending == [it] + rest;
      var (st1, kids) := Expand(st, cap, it);
      ExpandShrinks(st, cap, it);
      TotalHead(pending);
      KeptTotal(kids, rest);
      TurnNeeds(st, cap, it, rest);
      LoopDropsIff(st1, cap, Kept(kids, rest));
    }
  }

  /** A run that neither fails nor drops anything had the tables it wanted. */
  lemma {:induction false} CleanRunHadTables(st: St, cap: nat, pending: seq<Item>)
    requires |pending| <= WORK_CAP && !st.failed && Room(st, cap) >= 0
    requires var (st', lost) := Loop(st, cap, pending); !st'.failed && !lost
    ensures Wanted(pending) <= Room(st, cap)
    decreases Total(pending)
  {
    hide Expand, Peak, Total, Wanted, Depth, Tables;
    if pending == [] {
      NeedsNothing();
    } else {
      var it, rest := pending[0], pending[1..];
      assert pending == [it] + rest;
      var (st1, kids) := Expand(st, cap, it);
      ExpandShrinks(st, cap, it);
      TotalHead(pending);
      KeptTotal(kids, rest);
      WantedAppend([it], rest);
      WantedAppend(kids, rest);
      NeedsOf(it);
      ExpandNeeds(st, cap, it);
      CleanRunHadTables(st1, cap, kids + rest);
    }
  }

  lemma KeptWanted(xs: seq<Item>, rest: seq<Item>)
    requires |rest| <= WORK_CAP
    ensures Wanted(Kept(xs, rest)) <= Wanted(xs) + Wanted(rest)
  {
    hide Wanted;
    var n := if |xs| + |rest| <= WORK_CAP then 0 else |xs| + |rest| - WORK_CAP;
    assert xs == xs[..n] + xs[n..];
    WantedAppend(xs[..n], xs[n..]);
    WantedAppend(xs[n..], rest);
    assert Kept(xs, rest) == xs[n..] + rest;
  }

  /** Recursive resolution fails exactly when the tables do not suffice. */
  lemma {:induction false} FailsIff(st: St, cap: nat, items: seq<Item>)
    requires !st.failed && Room(st, cap) >= 0
    ensures var st' := ResolveAll(st, cap, items);
            && Room(st', cap) >= 0 && (st'.failed <==> Wanted(items) > Room(st, cap))
            && (!st'.failed ==> Room(st', cap) == Room(st, cap) - Wanted(items))
    decreases Total(items)
  {
    hide Expand, Total, Wanted, Depth, Tables, Peak;
    if items == [] {
      NeedsNothing();
    } else {
      var it, rest := items[0], items[1..];
      var (st1, kids) := Expand(st, cap, it);
      ExpandShrinks(st, cap, it);
      TotalHead(items);
      assert [it] + rest == items;
      WantedAppend([it], rest);
      NeedsOf(it);
      ExpandNeeds(st, cap, it);
      if st1.failed {
        assert ResolveAll(st1, cap, kids) == st1;
      } else {
        FailsIff(st1, cap, kids);
        var st2 := ResolveAll(st1, cap, kids);
        if !st2.failed {
          FailsIff(st2, cap, rest);
        }
      }
    }
  }

  /** Of a sequence too long for the stack the first statements are lost, and nothing else is. */
  lemma FirstStatementsLost(st: St, cap: nat, body: seq<RStmt>, scope: nat, inFunc: nat)
    requires |body| > WORK_CAP && !st.failed
    ensures var (st', lost) := Loop(st, cap, [Item(Seq(body), scope, inFunc)]);
            lost && st' == Loop(st, cap, ItemsOf(body[|body| - WORK_CAP..], scope, inFunc)).0
  {
    var root := [Item(Seq(body), scope, inFunc)];
    assert root[1..] == [];
    assert Kept(ItemsOf(body, scope, inFunc), []) == ItemsOf(body[|body| - WORK_CAP..], scope, inFunc);
  }

  // ----- the loop as it runs -----

  function Rev(s: seq<Item>): (r: seq<Item>)
    ensures |r| == |s|
  {
    if s == [] then [] else [s[|s| - 1]] + Rev(s[..|s| - 1])
  }

  lemma RevPush(s: seq<Item>, x: Item)
    ensures Rev(s + [x]) == [x] + Rev(s)
  {
    assert (s + [x])[..|s|] == s;
  }

  /** The work stack, last pushed first; pushes beyond its capacity are dropped. */
  class WorkStack {
    const items: array<Item>
    var top: nat
    var dropped: bool

    ghost predicate Valid()
      reads this
    {
      items.Length == WORK_CAP && top <= WORK_CAP
    }

    ghost function Pending(): (s: seq<Item>)
      requires Valid()
      reads this, items
      ensures |s| == top
    {
      Rev(items[..top])
    }

    constructor (filler: Item)
      ensures Valid() && fresh(items) && Pending() == [] && !dropped
    {
      items := new Item[WORK_CAP](_ => filler);
      top, dropped := 0, false;
    }

    method Push(x: Item)
      requires Valid()
      modifies this, items
      ensures Valid() && dropped == (old(dropped) || old(top) >= WORK_CAP)
      ensures Pending() == if old(top) >= WORK_CAP then old(Pending()) else [x] + old(Pending())
    {
      if top >= WORK_CAP {
        dropped := true;
        return;
      }
      RevPush(items[..top], x);
      items[top] := x;
      top := top + 1;
      assert items[..top] == old(items[..top]) + [x];
    }

    method Pop() returns (x: Item)
      requires Valid() && top > 0
      modifies this
      ensures Valid() && dropped == old(dropped) && old(Pending()) == [x] + Pending()
    {
      x := items[top - 1];
      RevPush(items[..top - 1], x);
      assert items[..top] == items[..top - 1] + [x];
      top := top - 1;
    }

    /** In reverse order, so that the first one is processed first. */
    method PushList(xs: seq<Item>)
      requires Valid()
      modifies this, items
      ensures Valid() && Pending() == Kept(xs, old(Pending()))
      ensures dropped == (old(dropped) || |xs| + old(top) > WORK_CAP)
    {
      hide Rev;
      var i := |xs|;
      ghost var start := Pending();
      while i > 0
        invariant 0 <= i <= |xs| && Valid() && Pending() == Kept(xs[i..], start)
        invariant dropped == (old(dropped) || |xs| - i + |start| > WORK_CAP)
      {
        i := i - 1;
        KeptStep(xs, i, start);
        Push(xs[i]);
      }
      assert xs[0..] == xs;
    }
  }

  lemma KeptStep(xs: seq<Item>, i: nat, rest: seq<Item>)
    requires i < |xs| && |rest| <= WORK_CAP
    ensures var before := Kept(xs[i + 1..], rest);
            && (|before| >= WORK_CAP <==> |xs| - i + |rest| > WORK_CAP)
            && Kept(xs[i..], rest) == if |before| >= WORK_CAP then before else [xs[i]] + before
  {
    if |xs| - i + |rest| > WORK_CAP {
      var k := |xs| + |rest| - WORK_CAP;
      assert xs[i..][k - i..] == xs[k..] == xs[i + 1..][k - i - 1..];
    } else {
      assert xs[i..] + rest == [xs[i]] + (xs[i + 1..] + rest);
    }
  }

  /** The resolver's loop over its work stack. */
  method ResolveStmts(st0: St, cap: nat, root: Item) returns (st: St, overflow: bool)
    ensures (st, overflow) == Loop(st0, cap, [root])
    ensures Room(st0, cap) >= 0 && Depth(root.s) <= WORK_CAP ==>
              !overflow && st == ResolveAll(st0, cap, [root])
    ensures !st0.failed && Tables(root.s) <= Room(st0, cap) ==>
              !st.failed && (overflow <==> Depth(root.s) > WORK_CAP)
  {
    hide Expand, Total, Kept, Depth, Tables, Peak, Wanted;
    var ws := new WorkStack(root);
    st := st0;
    ws.Push(root);
    assert [root] + [] == [root];
    ghost var want := Loop(st0, cap, [root]);
    while ws.top > 0 && !st.failed
      invariant ws.Valid() && fresh(ws) && fresh(ws.items)
      invariant want == (Loop(st, cap, ws.Pending()).0, ws.dropped || Loop(st, cap, ws.Pending()).1)
      decreases Total(ws.Pending())
    {
      ghost var before := ws.Pending();
      var it := ws.Pop();
      ghost var rest := ws.Pending();
      assert before[0] == it && before[1..] == rest;
      TotalHead(before);
      ExpandShrinks(st, cap, it);
      var (next, kids) := Expand(st, cap, it);
      KeptTotal(kids, rest);
      ws.PushList(kids);
      st := next;
    }
    overflow := ws.dropped;
    NeedsOf(root);
    if Room(st0, cap) >= 0 && Depth(root.s) <= WORK_CAP {
      LoopFits(st0, cap, [root]);
    }
    if !st0.failed && Tables(root.s) <= Room(st0, cap) {
      LoopDropsIff(st0, cap, [root]);
    }
  }
}
