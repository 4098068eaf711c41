/**
 Pins against slots: whatever the order of stores and sweeps, an object that a
 slot of the frame still holds is pinned, so no sweep frees it.
 */
module PinSafety {
  import opened Values
  import opened Ast
  import opened Bytecode
  import opened Compiler
  import opened GcTable

  /** The frame's slots and the collector's map. */
  datatype State = State(slots: seq<Value>, gc: Table)

  datatype Event =
    | Registered(p: Ptr, size: nat)
    | WalkerStore(i: nat, v: Value)
    | MachineStore(i: nat, v: Value)
    | StringMove(i: nat, v: Value)
    | Sweep

  function DynPtr(v: Value): Option<Ptr> {
    if v.Handle? && v.kind == Dyn && v.id > 0 then Some(v.id) else None
  }

  function Pinned1(m: Table, p: Option<Ptr>): Table {
    if p.Some? && p.value in m then m[p.value := Info(m[p.value].pins + 1, m[p.value].size)] else m
  }

  function Unpinned1(m: Table, p: Option<Ptr>): Table {
    if p.Some? && p.value in m && m[p.value].pins > 0
    then m[p.value := Info(m[p.value].pins - 1, m[p.value].size)] else m
  }

  /** The walker's store: it pins again even when the slot already holds the object. */
  function AfterWalkerStore(s: State, i: nat, v: Value): State
    requires i < |s.slots|
  {
    var was, now := DynPtr(s.slots[i]), DynPtr(v);
    State(s.slots[i := v], Pinned1(if was == now then s.gc else Unpinned1(s.gc, was), now))
  }

  /** The machine's store through its callback: nothing happens to the pins of an object that stays. */
  function AfterMachineStore(s: State, i: nat, v: Value): State
    requires i < |s.slots|
  {
    var was, now := DynPtr(s.slots[i]), DynPtr(v);
    State(s.slots[i := v], if was == now then s.gc else Pinned1(Unpinned1(s.gc, was), now))
  }

  ghost function Step(s: State, e: Event): State {
    match e
    case Registered(p, size) =>
      if p == NULL || p in s.gc then s else s.(gc := s.gc[p := Info(0, size)])
    case WalkerStore(i, v) => if i < |s.slots| then AfterWalkerStore(s, i, v) else s
    case MachineStore(i, v) => if i < |s.slots| then AfterMachineStore(s, i, v) else s
    case StringMove(i, v) => if i < |s.slots| then s.(slots := s.slots[i := v]) else s
    case Sweep => s.(gc := Pinned(s.gc))
  }

  /** Objects are tracked before they are stored. */
  ghost predicate Tracked(s: State, e: Event) {
    match e
    case WalkerStore(_, v) => DynPtr(v).Some? ==> DynPtr(v).value in s.gc
    case MachineStore(_, v) => DynPtr(v).Some? ==> DynPtr(v).value in s.gc
    case StringMove(_, v) => DynPtr(v).Some? ==> DynPtr(v).value in s.gc
    case _ => true
  }

  /** How many slots hold the object. */
  function Holders(slots: seq<Value>, p: Ptr): nat {
    if slots == [] then 0
    else (if DynPtr(slots[0]) == Some(p) then 1 else 0) + Holders(slots[1..], p)
  }

  /** Every object a slot holds is tracked, with at least as many pins as slots. */
  ghost predicate Safe(s: State) {
    forall p: Ptr :: Holders(s.slots, p) > 0 ==> p in s.gc && s.gc[p].pins >= Holders(s.slots, p)
  }

  function One(b: bool): nat {
    if b then 1 else 0
  }

  lemma {:induction false} HoldersAfter(slots: seq<Value>, i: nat, v: Value, p: Ptr)
    requires i < |slots|
    ensures Holders(slots[i := v], p) + One(DynPtr(slots[i]) == Some(p))
         == Holders(slots, p) + One(DynPtr(v) == Some(p))
    decreases |slots|
  {
    if i > 0 {
      assert slots[i := v][1..] == slots[1..][i - 1 := v];
      HoldersAfter(slots[1..], i - 1, v, p);
    } else {
      assert slots[0 := v][1..] == slots[1..];
    }
  }

  lemma {:induction false} HoldsOne(slots: seq<Value>, i: nat)
    requires i < |slots| && DynPtr(slots[i]).Some?
    ensures Holders(slots, DynPtr(slots[i]).value) > 0
    decreases |slots|
  {
    if i > 0 {
      HoldsOne(slots[1..], i - 1);
    }
  }

  lemma StoreSafe(s: State, e: Event)
    requires Safe(s) && Tracked(s, e) && (e.WalkerStore? || e.MachineStore?) && e.i < |s.slots|
    ensures Safe(Step(s, e))
  {
    hide Holders;
    var s' := Step(s, e);
    var was, now := DynPtr(s.slots[e.i]), DynPtr(e.v);
    if was.Some? {
      HoldsOne(s.slots, e.i);
    }
    forall p: Ptr | Holders(s'.slots, p) > 0 ensures p in s'.gc && s'.gc[p].pins >= Holders(s'.slots, p) {
      HoldersAfter(s.slots, e.i, e.v, p);
    }
  }

  lemma StepSafe(s: State, e: Event)
    requires Safe(s) && Tracked(s, e) && !e.StringMove?
    ensures Safe(Step(s, e))
  {
    hide Holders;
    if (e.WalkerStore? || e.MachineStore?) && e.i < |s.slots| {
      StoreSafe(s, e);
    }
  }

  /** States along a run. */
  ghost function Run(s: State, es: seq<Event>): State {
    if es == [] then s else Step(Run(s, es[..|es| - 1]), es[|es| - 1])
  }

  ghost predicate Disciplined(s: State, es: seq<Event>) {
    forall n | 0 <= n < |es| :: !es[n].StringMove? && Tracked(Run(s, es[..n]), es[n])
  }

  /** Over any interleaving of stores, registrations and sweeps every held object stays pinned. */
  lemma {:induction false} RunSafe(s: State, es: seq<Event>)
    requires Safe(s) && Disciplined(s, es)
    ensures Safe(Run(s, es))
    decreases |es|
  {
    if es != [] {
      var before := es[..|es| - 1];
      forall n | 0 <= n < |before| ensures !before[n].StringMove? && Tracked(Run(s, before[..n]), before[n]) {
        assert before[..n] == es[..n];
      }
      RunSafe(s, before);
      StepSafe(Run(s, before), es[|es| - 1]);
    }
  }

  /** So a sweep at any point of a run frees exactly the unpinned objects, and none that a slot holds. */
  lemma SweepFreesNothingHeld(s: State, es: seq<Event>, p: Ptr)
    requires Safe(s) && Disciplined(s, es) && p in Run(s, es).gc
    ensures p !in Step(Run(s, es), Sweep).gc <==> Run(s, es).gc[p].pins == 0
    ensures p !in Step(Run(s, es), Sweep).gc ==> Holders(Run(s, es).slots, p) == 0
  {
    RunSafe(s, es);
  }

  // ----- what is never freed -----

  /** The walker stores an object into a slot that already holds it. */
  predicate Repeat(s: State, e: Event, p: Ptr) {
    e.WalkerStore? && e.i < |s.slots| && DynPtr(s.slots[e.i]) == DynPtr(e.v) == Some(p)
  }

  /** How often that has happened to the object since it was registered. */
  ghost function Repeats(s: State, es: seq<Event>, p: Ptr): nat {
    if es == [] || p !in Run(s, es).gc then 0
    else
      var before, e := es[..|es| - 1], es[|es| - 1];
      Repeats(s, before, p) + One(p in Run(s, before).gc && Repeat(Run(s, before), e, p))
  }

  lemma {:induction false} HeldSomewhere(slots: seq<Value>, i: nat, p: Ptr)
    requires i < |slots| && DynPtr(slots[i]) == Some(p)
    ensures Holders(slots, p) > 0
  {
    HoldsOne(slots, i);
  }

  /** One store moves a pin with each slot, and the walker's adds one more where the object was there already. */
  lemma StoreCounts(s: State, e: Event, p: Ptr, n: nat)
    requires (e.WalkerStore? || e.MachineStore?) && e.i < |s.slots| && Tracked(s, e)
    requires DynPtr(s.slots[e.i]).Some? ==> DynPtr(s.slots[e.i]).value in s.gc
    requires p in s.gc && s.gc[p].pins == Holders(s.slots, p) + n
    ensures var s' := Step(s, e);
            p in s'.gc && s'.gc[p].pins == Holders(s'.slots, p) + n + One(Repeat(s, e, p))
  {
    hide Holders;
    HoldersAfter(s.slots, e.i, e.v, p);
    if DynPtr(s.slots[e.i]) == Some(p) {
      HeldSomewhere(s.slots, e.i, p);
    }
  }

  lemma StoreKeepsKeys(s: State, e: Event)
    requires e.WalkerStore? || e.MachineStore?
    ensures Step(s, e).gc.Keys == s.gc.Keys
  {
  }

  /** A step keeps the books: pins are holders and repeats. */
  lemma StepCounts(s: State, e: Event, p: Ptr, n: nat)
    requires Tracked(s, e) && !e.StringMove?
    requires forall q: Ptr :: Holders(s.slots, q) > 0 ==> q in s.gc
    requires p in s.gc ==> s.gc[p].pins == Holders(s.slots, p) + n
    requires p !in s.gc ==> n == 0
    ensures var s' := Step(s, e);
            p in s'.gc ==> s'.gc[p].pins == Holders(s'.slots, p) + n + One(p in s.gc && Repeat(s, e, p))
  {
    hide Holders;
    if (e.WalkerStore? || e.MachineStore?) && e.i < |s.slots| {
      StoreKeepsKeys(s, e);
      if DynPtr(s.slots[e.i]).Some? {
        HeldSomewhere(s.slots, e.i, DynPtr(s.slots[e.i]).value);
      }
      if p in s.gc {
        StoreCounts(s, e, p, n);
      }
    }
  }

  /** Held objects are tracked, and each tracked object has exactly one pin for each slot that holds it. */
  ghost predicate Balanced(s: State) {
    forall p: Ptr ::
      && (Holders(s.slots, p) > 0 ==> p in s.gc)
      && (p in s.gc ==> s.gc[p].pins == Holders(s.slots, p))
  }

  lemma BalancedSafe(s: State)
    requires Balanced(s)
    ensures Safe(s)
  {
  }

  /** A frame of empty slots, with nothing tracked, is balanced. */
  lemma EmptyBalanced(n: nat)
    ensures Balanced(State(seq(n, _ => Nil), map[]))
  {
    var slots := seq(n, _ => Nil);
    forall p: Ptr ensures Holders(slots, p) == 0 { NothingHeld(n, p); }
  }

  lemma {:induction false} NothingHeld(n: nat, p: Ptr)
    ensures Holders(seq(n, _ => Nil), p) == 0
  {
    if n > 0 {
      NothingHeld(n - 1, p);
      assert seq(n, _ => Nil)[1..] == seq(n - 1, _ => Nil);
    }
  }

  lemma DisciplinedBefore(s: State, es: seq<Event>)
    requires es != [] && Disciplined(s, es)
    ensures Disciplined(s, es[..|es| - 1])
  {
    var before := es[..|es| - 1];
    forall n | 0 <= n < |before| ensures !before[n].StringMove? && Tracked(Run(s, before[..n]), before[n]) {
      assert before[..n] == es[..n];
    }
  }

  /** After any run an object has one pin for each slot that holds it and one for each repeated store. */
  lemma {:induction false} PinsAreCounted(s: State, es: seq<Event>, p: Ptr)
    requires Balanced(s) && Disciplined(s, es) && p in Run(s, es).gc
    ensures Run(s, es).gc[p].pins == Holders(Run(s, es).slots, p) + Repeats(s, es, p)
    decreases |es|
  {
    hide Step, Holders, Safe;
    if es != [] {
      var before, e := es[..|es| - 1], es[|es| - 1];
      DisciplinedBefore(s, es);
      var m := Run(s, before);
      if p in m.gc {
        PinsAreCounted(s, before, p);
      }
      BalancedSafe(s);
      RunSafe(s, before);
      SafeTracks(m);
      assert Tracked(Run(s, es[..|es| - 1]), es[|es| - 1]);
      StepCounts(m, e, p, Repeats(s, before, p));
    }
  }

  lemma SafeTracks(s: State)
    requires Safe(s)
    ensures forall q: Ptr :: Holders(s.slots, q) > 0 ==> q in s.gc
  {
  }

  /**
   An object that no slot holds any more is freed by the next sweep if and only if
   the walker never stored it into a slot that held it already; otherwise it leaks.
   */
  lemma FreedIff(s: State, es: seq<Event>, p: Ptr)
    requires Balanced(s) && Disciplined(s, es) && p in Run(s, es).gc && Holders(Run(s, es).slots, p) == 0
    ensures p !in Step(Run(s, es), Sweep).gc <==> Repeats(s, es, p) == 0
  {
    hide Holders, Run;
    PinsAreCounted(s, es, p);
  }

  lemma {:induction false} NoRepeats(s: State, es: seq<Event>, p: Ptr)
    requires forall k | 0 <= k < |es| :: !es[k].WalkerStore?
    ensures Repeats(s, es, p) == 0
    decreases |es|
  {
    if es != [] {
      NoRepeats(s, es[..|es| - 1], p);
    }
  }

  /** The machine's stores keep the balance, so an object without a slot is gone after the next sweep. */
  lemma MachineNeverLeaks(s: State, es: seq<Event>, p: Ptr)
    requires Balanced(s) && Disciplined(s, es) && forall k | 0 <= k < |es| :: !es[k].WalkerStore?
    requires p in Run(s, es).gc
    ensures Run(s, es).gc[p].pins == Holders(Run(s, es).slots, p)
    ensures p in Step(Run(s, es), Sweep).gc <==> Holders(Run(s, es).slots, p) > 0
  {
    hide Holders, Run;
    NoRepeats(s, es, p);
    PinsAreCounted(s, es, p);
  }

  // ----- moves that may carry a string -----

  /** Such a move stores without touching pins: it keeps the discipline exactly when nothing more is held. */
  lemma StringMoveSafeIff(s: State, i: nat, v: Value)
    requires Safe(s) && i < |s.slots| && Tracked(s, StringMove(i, v))
    ensures Safe(Step(s, StringMove(i, v))) <==>
      match DynPtr(v)
      case None => true
      case Some(p) => DynPtr(s.slots[i]) == Some(p) || Holders(s.slots, p) < s.gc[p].pins
  {
    hide Holders;
    var s' := Step(s, StringMove(i, v));
    forall p: Ptr
      ensures Holders(s'.slots, p) + One(DynPtr(s.slots[i]) == Some(p))
           == Holders(s.slots, p) + One(DynPtr(v) == Some(p))
    {
      HoldersAfter(s.slots, i, v, p);
    }
    if DynPtr(v).Some? {
      var p := DynPtr(v).value;
      assert Holders(s'.slots, p) + One(DynPtr(s.slots[i]) == Some(p)) == Holders(s.slots, p) + 1;
    }
  }

  /**
   Variables, calls and fields can yield such objects, and a compiled assignment
   of any of them to a local is that kind of move.
   */
  lemma ObjectsMoveAsStrings(p: Probe, c: Chunk, name: Name, slot: nat, e: Expr) returns (at: nat, src: nat)
    requires (e.Ident? || e.Call? || e.FieldGet?) && CompileStmt(p, c, Assign(name, slot, e)).ok
    ensures var c' := CompileStmt(p, c, Assign(name, slot, e));
            |c.code| <= at < |c'.code| && c'.code[at] == Instr(MoveStr, slot, src, 0, 0)
  {
    hide CompileExpr;
    var (c1, r) := CompileExpr(p, c, e);
    at, src := |c1.code|, r;
  }

  /** The object that the example below tracks, and the states it goes through. */
  function Example(slots: seq<Value>, pins: nat): State {
    State(slots, map[1 := Info(pins, 0)])
  }

  lemma ExampleSteps(d: Value)
    requires d == Handle(Dyn, 1)
    ensures Step(State([Nil, Nil], map[]), Registered(1, 0)) == Example([Nil, Nil], 0)
    ensures Step(Example([Nil, Nil], 0), WalkerStore(0, d)) == Example([d, Nil], 1)
    ensures Step(Example([d, Nil], 1), StringMove(1, d)) == Example([d, d], 1)
    ensures Step(Example([d, d], 1), WalkerStore(0, Nil)) == Example([Nil, d], 0)
    ensures Step(Example([Nil, d], 0), Sweep).gc == map[] && Step(Example([Nil, d], 0), Sweep).slots == [Nil, d]
  {
  }

  /** A run with one such move in which a sweep frees an object that a slot holds. */
  lemma StringMoveLosesObject()
    ensures var d := Handle(Dyn, 1);
            var es := [Registered(1, 0), WalkerStore(0, d), StringMove(1, d), WalkerStore(0, Nil), Sweep];
            var end := Run(State([Nil, Nil], map[]), es);
            Holders(end.slots, 1) == 1 && 1 !in end.gc
  {
    hide Step, Example;
    var d := Handle(Dyn, 1);
    var s0 := State([Nil, Nil], map[]);
    var e1, e2, e3, e4 := Registered(1, 0), WalkerStore(0, d), StringMove(1, d), WalkerStore(0, Nil);
    ExampleSteps(d);
    RunSnoc(s0, [], e1);
    assert [] + [e1] == [e1];
    RunSnoc(s0, [e1], e2);
    assert [e1] + [e2] == [e1, e2];
    RunSnoc(s0, [e1, e2], e3);
    assert [e1, e2] + [e3] == [e1, e2, e3];
    RunSnoc(s0, [e1, e2, e3], e4);
    assert [e1, e2, e3] + [e4] == [e1, e2, e3, e4];
    RunSnoc(s0, [e1, e2, e3, e4], Sweep);
    assert [e1, e2, e3, e4] + [Sweep] == [e1, e2, e3, e4, Sweep];
    var slots := [Nil, d];
    assert slots[1..] == [d];
    assert Holders([d], 1) == 1 + Holders([d][1..], 1);
  }

  lemma RunSnoc(s: State, es: seq<Event>, e: Event)
    ensures Run(s, es + [e]) == Step(Run(s, es), e)
  {
    assert (es + [e])[..|es|] == es;
  }

  // ----- the stores as the runtime performs them -----

  class Frame {
    var slots: seq<Value>
    const gc: Gc

    ghost predicate Valid()
      reads this, gc, gc.slots
    {
      gc.Valid()
    }

    ghost function View(): State
      reads this, gc
    {
      State(slots, gc.table)
    }

    constructor (n: nat, g: Gc)
      requires g.Valid()
      ensures Valid() && gc == g && |slots| == n && forall i | 0 <= i < n :: slots[i] == Nil
    {
      slots := seq(n, _ => Nil);
      gc := g;
    }

    /** The walker's store to a resolved slot. */
    method RtSet(i: nat, v: Value)
      requires Valid() && i < |slots|
      modifies this, gc, gc.slots
      ensures Valid() && gc.slots == old(gc.slots) && View() == Step(old(View()), WalkerStore(i, v))
    {
      hide Gc.Valid;
      var was := slots[i];
      if DynPtr(was).Some? && DynPtr(v) != DynPtr(was) {
        var _ := gc.Unpin(DynPtr(was).value);
      }
      slots := slots[i := v];
      if DynPtr(v).Some? {
        gc.Pin(DynPtr(v).value);
      }
    }

    /** The machine's store: callback first, then the register. */
    method VmStore(i: nat, v: Value)
      requires Valid() && i < |slots|
      modifies this, gc, gc.slots
      ensures Valid() && gc.slots == old(gc.slots) && View() == Step(old(View()), MachineStore(i, v))
    {
      hide Gc.Valid;
      var oldD, newD := DynPtr(slots[i]), DynPtr(v);
      if oldD != newD {
        if oldD.Some? {
          var _ := gc.Unpin(oldD.value);
        }
        if newD.Some? {
          gc.Pin(newD.value);
        }
      }
      slots := slots[i := v];
    }
  }
}
