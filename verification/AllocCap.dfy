/**
 The simulated memory cap: threads allocate, resize and free with atomic
 operations on a shared counter of live bytes, in any interleaving.
 */
module AllocCap {

  const HEADER: nat := 8
  const WORD: nat := 0x1_0000_0000_0000_0000

  /** `size_t` arithmetic. */
  function Wrap(n: int): (r: nat)
    ensures r < WORD && (0 <= n < WORD ==> r == n)
  {
    n % WORD
  }

  /** What a request for `n` bytes is accounted as. */
  function Accounted(n: nat): nat {
    Wrap((if n == 0 then 1 else n) + HEADER)
  }

  /**
   Where a thread stands in `fluxa_malloc`, with the bytes it has added to the
   counter, or in `fluxa_realloc`, with the block it is resizing: `Checked` has
   passed the comparison, `Grown` holds the new memory, and neither has touched
   the counter yet.
   */
  datatype Phase =
    | Outside
    | Passed(total: nat)
    | Refused(total: nat)
    | OutOfMemory(total: nat)
    | Checked(before: nat, total: nat)
    | Grown(before: nat, total: nat)

  /** `blocks` are the accounted sizes of the blocks handed out that nobody is resizing. */
  datatype State = State(live: nat, blocks: seq<nat>, threads: seq<Phase>)

  datatype Action =
    | Add(t: nat, n: nat)
    | Grant(t: nat)
    | NoMemory(t: nat)
    | TakeBack(t: nat)
    | Free(b: nat)
    | ResizeCheck(t: nat, b: nat, n: nat)
    | ResizeFails(t: nat)
    | ResizeMoves(t: nat)
    | ResizeAdds(t: nat)

  function Remove(s: seq<nat>, i: nat): seq<nat>
    requires i < |s|
  {
    s[..i] + s[i + 1..]
  }

  ghost predicate AllOutside(s: State) {
    forall t | 0 <= t < |s.threads| :: s.threads[t].Outside?
  }

  /** A resize to zero bytes is a free, and one of no block an allocation. */
  predicate Enabled(s: State, a: Action) {
    match a
    case Add(t, n) => t < |s.threads| && s.threads[t].Outside? && n < WORD
    case Grant(t) => t < |s.threads| && s.threads[t].Passed?
    case NoMemory(t) => t < |s.threads| && s.threads[t].Passed?
    case TakeBack(t) => t < |s.threads| && (s.threads[t].Refused? || s.threads[t].OutOfMemory?)
    case Free(b) => b < |s.blocks|
    case ResizeCheck(t, b, n) => t < |s.threads| && s.threads[t].Outside? && b < |s.blocks| && 0 < n < WORD
    case ResizeFails(t) => t < |s.threads| && s.threads[t].Checked?
    case ResizeMoves(t) => t < |s.threads| && s.threads[t].Checked?
    case ResizeAdds(t) => t < |s.threads| && s.threads[t].Grown?
  }

  function Step(cap: nat, s: State, a: Action): State {
    if !Enabled(s, a) then s else
    match a
    case Add(t, n) =>
      var total := Accounted(n);
      var phase := if Wrap(s.live + total) > cap then Refused(total) else Passed(total);
      State(Wrap(s.live + total), s.blocks, s.threads[t := phase])
    case Grant(t) => State(s.live, s.blocks + [s.threads[t].total], s.threads[t := Outside])
    case NoMemory(t) => s.(threads := s.threads[t := OutOfMemory(s.threads[t].total)])
    case TakeBack(t) => State(Wrap(s.live - s.threads[t].total), s.blocks, s.threads[t := Outside])
    case Free(b) => State(Wrap(s.live - s.blocks[b]), Remove(s.blocks, b), s.threads)
    case ResizeCheck(t, b, n) =>
      var total := Wrap(n + HEADER);
      if Wrap(s.live - s.blocks[b] + total) > cap then s
      else State(s.live, Remove(s.blocks, b), s.threads[t := Checked(s.blocks[b], total)])
    case ResizeFails(t) => State(s.live, s.blocks + [s.threads[t].before], s.threads[t := Outside])
    case ResizeMoves(t) => s.(threads := s.threads[t := Grown(s.threads[t].before, s.threads[t].total)])
    case ResizeAdds(t) =>
      var p := s.threads[t];
      State(Wrap(s.live + Wrap(p.total - p.before)), s.blocks + [p.total], s.threads[t := Outside])
  }

  function Run(cap: nat, s: State, actions: seq<Action>): State {
    if actions == [] then s
    else Step(cap, Run(cap, s, actions[..|actions| - 1]), actions[|actions| - 1])
  }

  // ----- sums -----

  function Sum(s: seq<nat>): nat {
    if s == [] then 0 else s[0] + Sum(s[1..])
  }

  lemma {:induction false} SumAppend(a: seq<nat>, b: seq<nat>)
    ensures Sum(a + b) == Sum(a) + Sum(b)
  {
    if a == [] {
      assert a + b == b;
    } else {
      assert (a + b)[1..] == a[1..] + b;
      SumAppend(a[1..], b);
    }
  }

  lemma SumOne(x: nat)
    ensures Sum([x]) == x
  {
    assert [x][1..] == [];
  }

  lemma SumAt(s: seq<nat>, i: nat)
    requires i < |s|
    ensures Sum(s) == Sum(s[..i]) + s[i] + Sum(s[i + 1..])
    ensures Sum(Remove(s, i)) == Sum(s) - s[i]
  {
    hide Sum;
    assert s == s[..i] + ([s[i]] + s[i + 1..]);
    SumAppend(s[..i], [s[i]] + s[i + 1..]);
    SumAppend([s[i]], s[i + 1..]);
    SumOne(s[i]);
    SumAppend(s[..i], s[i + 1..]);
  }

  lemma SumSet(s: seq<nat>, i: nat, x: nat)
    requires i < |s|
    ensures Sum(s[i := x]) == Sum(s) - s[i] + x
  {
    SumAt(s, i);
    SumAt(s[i := x], i);
    assert s[i := x][..i] == s[..i] && s[i := x][i + 1..] == s[i + 1..];
  }

  /** A quantity summed over the threads. */
  function All(ps: seq<Phase>, f: Phase -> nat): nat {
    Sum(seq(|ps|, i requires 0 <= i < |ps| => f(ps[i])))
  }

  lemma AllSet(ps: seq<Phase>, t: nat, p: Phase, f: Phase -> nat)
    requires t < |ps|
    ensures All(ps[t := p], f) == All(ps, f) - f(ps[t]) + f(p) && f(ps[t]) <= All(ps, f)
  {
    hide Sum;
    var h := seq(|ps|, i requires 0 <= i < |ps| => f(ps[i]));
    var qs := ps[t := p];
    assert seq(|qs|, i requires 0 <= i < |qs| => f(qs[i])) == h[t := f(p)];
    SumSet(h, t, f(p));
    SumAt(h, t);
  }

  lemma {:induction false} AllBelow(ps: seq<Phase>, f: Phase -> nat, g: Phase -> nat, h: Phase -> nat)
    requires forall i | 0 <= i < |ps| :: f(ps[i]) <= g(ps[i]) + h(ps[i])
    ensures All(ps, f) <= All(ps, g) + All(ps, h)
    decreases |ps|
  {
    if ps == [] {
      AllNone(f);
    } else {
      AllHead(ps, f);
      AllHead(ps, g);
      AllHead(ps, h);
      AllBelow(ps[1..], f, g, h);
    }
  }

  lemma AllNone(f: Phase -> nat)
    ensures All([], f) == 0
  {
  }

  lemma AllHead(ps: seq<Phase>, f: Phase -> nat)
    requires ps != []
    ensures All(ps, f) == f(ps[0]) + All(ps[1..], f)
  {
    hide Sum;
    var h := seq(|ps|, i requires 0 <= i < |ps| => f(ps[i]));
    assert h == [f(ps[0])] + h[1..];
    assert h[1..] == seq(|ps[1..]|, i requires 0 <= i < |ps[1..]| => f(ps[1..][i]));
    SumAppend([f(ps[0])], h[1..]);
    SumOne(f(ps[0]));
  }

  lemma {:induction false} AllWithin(ps: seq<Phase>, f: Phase -> nat, b: nat)
    requires forall i | 0 <= i < |ps| :: f(ps[i]) <= b
    ensures All(ps, f) <= b * |ps|
    decreases |ps|
  {
    if ps == [] {
      AllNone(f);
    } else {
      AllHead(ps, f);
      AllWithin(ps[1..], f, b);
    }
  }

  /** The same where one thread contributes nothing. */
  lemma AllOthersWithin(ps: seq<Phase>, f: Phase -> nat, b: nat, t: nat)
    requires t < |ps| && f(ps[t]) == 0 && forall i | 0 <= i < |ps| :: f(ps[i]) <= b
    ensures All(ps, f) <= b * (|ps| - 1)
  {
    hide All;
    var ps' := ps[..t] + ps[t + 1..];
    assert ps == ps[..t] + ([ps[t]] + ps[t + 1..]);
    AllAppend(ps[..t], [ps[t]] + ps[t + 1..], f);
    AllAppend([ps[t]], ps[t + 1..], f);
    AllAppend(ps[..t], ps[t + 1..], f);
    AllSingle(ps[t], f);
    AllWithin(ps', f, b);
  }

  lemma AllSingle(p: Phase, f: Phase -> nat)
    ensures All([p], f) == f(p)
  {
    AllHead([p], f);
    AllNone(f);
    assert [p][1..] == [];
  }

  lemma AllAppend(a: seq<Phase>, b: seq<Phase>, f: Phase -> nat)
    ensures All(a + b, f) == All(a, f) + All(b, f)
  {
    hide Sum;
    var ab := a + b;
    var x := seq(|a|, i requires 0 <= i < |a| => f(a[i]));
    var y := seq(|b|, i requires 0 <= i < |b| => f(b[i]));
    assert seq(|ab|, i requires 0 <= i < |ab| => f(ab[i])) == x + y;
    SumAppend(x, y);
  }

  lemma {:induction false} AllZero(ps: seq<Phase>, f: Phase -> nat)
    requires forall i | 0 <= i < |ps| :: f(ps[i]) == 0
    ensures All(ps, f) == 0
  {
    AllWithin(ps, f, 0);
  }

  // ----- what a thread has on the counter, and what it has been promised -----

  /** Bytes a thread has on the counter. */
  function Held(p: Phase): nat {
    match p
    case Outside => 0
    case Checked(before, _) => before
    case Grown(before, _) => before
    case _ => p.total
  }

  /** Bytes the cap has agreed to. */
  function Promised(p: Phase): nat {
    match p
    case Outside => 0
    case Refused(_) => 0
    case Checked(before, total) => if before < total then total else before
    case Grown(before, total) => if before < total then total else before
    case _ => p.total
  }

  /** Bytes agreed to that are not on the counter yet. */
  function Growing(p: Phase): nat {
    if (p.Checked? || p.Grown?) && p.before < p.total then p.total - p.before else 0
  }

  function Rejected(p: Phase): nat {
    if p.Refused? then p.total else 0
  }

  /** The size of the block a resizing thread has in its hands. */
  function InHand(p: Phase): nat {
    match p
    case Checked(before, _) => before
    case Grown(_, total) => total
    case _ => 0
  }

  /** Everything handed out. */
  function HandedOut(s: State): nat {
    Sum(s.blocks) + All(s.threads, InHand)
  }

  /** Requests under way are at most `b` each. */
  predicate Modest(b: nat, p: Phase) {
    p.Refused? || p.Checked? || p.Grown? ==> p.total <= b
  }

  /** The counter is exact, and what the cap has agreed to exceeds it by at most `g`. */
  ghost predicate Inv(cap: nat, g: nat, b: nat, s: State) {
    && s.live == Sum(s.blocks) + All(s.threads, Held)
    && Sum(s.blocks) + All(s.threads, Promised) <= cap + g
    && (forall t | 0 <= t < |s.threads| :: Modest(b, s.threads[t]))
  }

  /** The counter stays in range, with room for another request by a thread that has none under way. */
  lemma InRange(cap: nat, g: nat, b: nat, s: State)
    requires Inv(cap, g, b, s) && cap + g + b * |s.threads| < WORD
    ensures s.live < WORD
    ensures forall t | 0 <= t < |s.threads| && s.threads[t].Outside? :: s.live + b < WORD
  {
    hide All, Sum;
    AllBelow(s.threads, Held, Promised, Rejected);
    AllWithin(s.threads, Rejected, b);
    if t: nat :| t < |s.threads| && s.threads[t].Outside? {
      AllOthersWithin(s.threads, Rejected, b, t);
      assert b * (|s.threads| - 1) + b == b * |s.threads|;
    }
  }

  // ----- every step -----

  /** The request is for at most `b` bytes, header included. */
  predicate Small(b: nat, a: Action) {
    match a
    case Add(_, n) => (if n == 0 then 1 else n) + HEADER <= b
    case ResizeCheck(_, _, n) => n + HEADER <= b
    case _ => true
  }

  /** The step asks the cap for more. */
  predicate Asks(a: Action) {
    a.Add? || a.ResizeCheck?
  }

  /** Sums after one thread has moved. */
  lemma Moved(ps: seq<Phase>, t: nat, p: Phase)
    requires t < |ps|
    ensures All(ps[t := p], Held) == All(ps, Held) - Held(ps[t]) + Held(p) && Held(ps[t]) <= All(ps, Held)
    ensures All(ps[t := p], Promised) == All(ps, Promised) - Promised(ps[t]) + Promised(p)
    ensures Promised(ps[t]) <= All(ps, Promised)
    ensures All(ps, Promised) <= All(ps, Held) + All(ps, Growing)
  {
    hide All;
    AllSet(ps, t, p, Held);
    AllSet(ps, t, p, Promised);
    AllBelow(ps, Promised, Held, Growing);
  }

  lemma MallocKeeps(cap: nat, g: nat, b: nat, s: State, a: Action)
    requires Inv(cap, g, b, s) && cap + g + b * |s.threads| < WORD && Enabled(s, a) && Small(b, a)
    requires a.Add? || a.Grant? || a.NoMemory? || a.TakeBack?
    requires a.Add? ==> All(s.threads, Growing) <= g
    ensures Inv(cap, g, b, Step(cap, s, a))
  {
    hide All, Sum;
    var s' := Step(cap, s, a);
    InRange(cap, g, b, s);
    Moved(s.threads, a.t, s'.threads[a.t]);
    if a.Grant? {
      SumAppend(s.blocks, [s.threads[a.t].total]);
      SumOne(s.threads[a.t].total);
    }
  }

  lemma CheckKeeps(cap: nat, g: nat, b: nat, s: State, a: Action)
    requires Inv(cap, g, b, s) && cap + g + b * |s.threads| < WORD && Enabled(s, a) && Small(b, a)
    requires a.ResizeCheck? && All(s.threads, Growing) <= g
    ensures Inv(cap, g, b, Step(cap, s, a))
  {
    hide All, Sum;
    InRange(cap, g, b, s);
    SumAt(s.blocks, a.b);
    Moved(s.threads, a.t, Checked(s.blocks[a.b], Wrap(a.n + HEADER)));
  }

  lemma ResizeKeeps(cap: nat, g: nat, b: nat, s: State, a: Action)
    requires Inv(cap, g, b, s) && cap + g + b * |s.threads| < WORD && Enabled(s, a)
    requires a.ResizeFails? || a.ResizeMoves?
    ensures Inv(cap, g, b, Step(cap, s, a))
  {
    hide All, Sum;
    var s', p := Step(cap, s, a), s.threads[a.t];
    Moved(s.threads, a.t, s'.threads[a.t]);
    if a.ResizeFails? {
      SumAppend(s.blocks, [p.before]);
      SumOne(p.before);
    }
  }

  /** The state after the growth has been added, were the counter unbounded. */
  function Added(s: State, t: nat): State
    requires t < |s.threads| && s.threads[t].Grown? && s.threads[t].before <= s.live
  {
    var p := s.threads[t];
    State(s.live - p.before + p.total, s.blocks + [p.total], s.threads[t := Outside])
  }

  lemma AddedKeeps(cap: nat, g: nat, b: nat, s: State, t: nat)
    requires Inv(cap, g, b, s) && t < |s.threads| && s.threads[t].Grown?
    ensures s.threads[t].before <= s.live && Inv(cap, g, b, Added(s, t))
  {
    hide All, Sum;
    Moved(s.threads, t, Outside);
    SumAppend(s.blocks, [s.threads[t].total]);
    SumOne(s.threads[t].total);
  }

  lemma AddsKeep(cap: nat, g: nat, b: nat, s: State, a: Action)
    requires Inv(cap, g, b, s) && cap + g + b * |s.threads| < WORD && Enabled(s, a) && a.ResizeAdds?
    ensures Inv(cap, g, b, Step(cap, s, a))
  {
    hide All, Sum, Inv;
    var p := s.threads[a.t];
    InRange(cap, g, b, s);
    AddedKeeps(cap, g, b, s, a.t);
    InRange(cap, g, b, Added(s, a.t));
    TotalModest(cap, g, b, s, a.t);
    AddedDifference(s.live, p.before, p.total);
  }

  lemma TotalModest(cap: nat, g: nat, b: nat, s: State, t: nat)
    requires Inv(cap, g, b, s) && t < |s.threads| && s.threads[t].Grown? && cap + g + b * |s.threads| < WORD
    ensures s.threads[t].total < WORD
  {
    assert Modest(b, s.threads[t]) && b <= b * |s.threads|;
  }

  /** Adding a difference that may be negative. */
  lemma AddedDifference(live: nat, before: nat, total: nat)
    requires before <= live < WORD && total < WORD && live - before + total < WORD
    ensures Wrap(live + Wrap(total - before)) == live - before + total
  {
    if total < before {
      assert Wrap(total - before) == WORD + total - before;
    }
  }

  lemma FreeKeeps(cap: nat, g: nat, b: nat, s: State, a: Action)
    requires Inv(cap, g, b, s) && cap + g + b * |s.threads| < WORD && Enabled(s, a) && a.Free?
    ensures Inv(cap, g, b, Step(cap, s, a))
  {
    hide All, Sum;
    InRange(cap, g, b, s);
    SumAt(s.blocks, a.b);
  }

  lemma StepKeeps(cap: nat, g: nat, b: nat, s: State, a: Action)
    requires Inv(cap, g, b, s) && cap + g + b * |s.threads| < WORD && Small(b, a)
    requires Asks(a) && Enabled(s, a) ==> All(s.threads, Growing) <= g
    ensures Inv(cap, g, b, Step(cap, s, a)) && |Step(cap, s, a).threads| == |s.threads|
  {
    hide Inv, All, Small;
    if Enabled(s, a) {
      if a.Free? {
        FreeKeeps(cap, g, b, s, a);
      } else if a.ResizeCheck? {
        CheckKeeps(cap, g, b, s, a);
      } else if a.ResizeFails? || a.ResizeMoves? {
        ResizeKeeps(cap, g, b, s, a);
      } else if a.ResizeAdds? {
        AddsKeep(cap, g, b, s, a);
      } else {
        MallocKeeps(cap, g, b, s, a);
      }
    }
  }

  // ----- whole runs -----

  ghost predicate NobodyResizes(s: State) {
    forall t | 0 <= t < |s.threads| :: !s.threads[t].Checked? && !s.threads[t].Grown?
  }

  /** Nobody asks for memory while another thread is inside a resize. */
  ghost predicate Serial(cap: nat, s: State, actions: seq<Action>) {
    forall i | 0 <= i < |actions| && Asks(actions[i]) :: NobodyResizes(Run(cap, s, actions[..i]))
  }

  /** By how much overlapping resizes can exceed the cap. */
  ghost function Slack(cap: nat, b: nat, s: State, actions: seq<Action>): nat {
    if |s.threads| == 0 || Serial(cap, s, actions) then 0 else b * (|s.threads| - 1)
  }

  /** No call is under way and the blocks fit. */
  ghost predicate Quiet(cap: nat, s: State) {
    AllOutside(s) && s.live == Sum(s.blocks) <= cap
  }

  ghost predicate AllSmall(b: nat, actions: seq<Action>) {
    forall i | 0 <= i < |actions| :: Small(b, actions[i])
  }

  lemma QuietInv(cap: nat, g: nat, b: nat, s: State)
    requires Quiet(cap, s)
    ensures Inv(cap, g, b, s)
  {
    hide All, Sum;
    AllZero(s.threads, Held);
    AllZero(s.threads, Promised);
  }

  /** Whoever asks finds at most the slack under way. */
  lemma GrowthUnderWay(cap: nat, b: nat, s: State, a: Action, slack: nat)
    requires Inv(cap, slack, b, s) && Asks(a) && Enabled(s, a)
    requires NobodyResizes(s) || |s.threads| == 0 || slack == b * (|s.threads| - 1)
    ensures All(s.threads, Growing) <= slack
  {
    hide All, Sum;
    if NobodyResizes(s) {
      AllZero(s.threads, Growing);
    } else {
      AllOthersWithin(s.threads, Growing, b, a.t);
    }
  }

  lemma {:induction false} RunKeeps(cap: nat, b: nat, s: State, actions: seq<Action>, slack: nat)
    requires Quiet(cap, s) && AllSmall(b, actions) && cap + slack + b * |s.threads| < WORD
    requires Serial(cap, s, actions) || |s.threads| == 0 || slack == b * (|s.threads| - 1)
    ensures var s' := Run(cap, s, actions); Inv(cap, slack, b, s') && |s'.threads| == |s.threads|
    decreases |actions|
  {
    hide Inv, Step, Quiet, Small, NobodyResizes;
    if actions == [] {
      QuietInv(cap, slack, b, s);
    } else {
      var before, a := actions[..|actions| - 1], actions[|actions| - 1];
      if Serial(cap, s, actions) {
        forall i | 0 <= i < |before| && Asks(before[i]) ensures NobodyResizes(Run(cap, s, before[..i])) {
          assert before[..i] == actions[..i] && before[i] == actions[i];
        }
        assert Asks(a) ==> NobodyResizes(Run(cap, s, actions[..|actions| - 1]));
      }
      RunKeeps(cap, b, s, before, slack);
      var m := Run(cap, s, before);
      if Asks(a) && Enabled(m, a) {
        GrowthUnderWay(cap, b, m, a, slack);
      }
      StepKeeps(cap, slack, b, m, a);
    }
  }

  /**
   In every interleaving of any number of threads, requests of at most `b` bytes
   that cannot run the counter out of its range keep what is handed out under the
   cap, give or take the growth of overlapping resizes; and whenever no call is
   under way the counter is the sum over the live blocks.
   */
  lemma CapHolds(cap: nat, b: nat, s: State, actions: seq<Action>)
    requires Quiet(cap, s) && AllSmall(b, actions)
    requires cap + Slack(cap, b, s, actions) + b * |s.threads| < WORD
    ensures var s' := Run(cap, s, actions);
            && HandedOut(s') <= cap + Slack(cap, b, s, actions)
            && (AllOutside(s') ==> s'.live == Sum(s'.blocks))
  {
    hide All, Sum, Run, Quiet;
    RunKeeps(cap, b, s, actions, Slack(cap, b, s, actions));
    var s' := Run(cap, s, actions);
    AllBelow(s'.threads, InHand, Promised, Nothing);
    AllZero(s'.threads, Nothing);
    if AllOutside(s') {
      AllZero(s'.threads, Held);
    }
  }

  function Nothing(p: Phase): nat {
    0
  }

  // ----- how many blocks there can be -----

  /** A block, or a request for one, takes its header and at least one byte. */
  predicate Real(total: nat) {
    total > 8
  }

  predicate RealPhase(p: Phase) {
    match p
    case Outside => true
    case Checked(before, total) => Real(before) && Real(total)
    case Grown(before, total) => Real(before) && Real(total)
    case _ => Real(p.total)
  }

  ghost predicate AllReal(s: State) {
    && (forall i | 0 <= i < |s.blocks| :: Real(s.blocks[i]))
    && (forall t | 0 <= t < |s.threads| :: RealPhase(s.threads[t]))
  }

  lemma StepReal(cap: nat, b: nat, s: State, a: Action)
    requires AllReal(s) && Small(b, a) && b < WORD
    ensures AllReal(Step(cap, s, a))
  {
  }

  lemma {:induction false} RunReal(cap: nat, b: nat, s: State, actions: seq<Action>)
    requires AllReal(s) && AllSmall(b, actions) && b < WORD
    ensures AllReal(Run(cap, s, actions))
    decreases |actions|
  {
    hide Step, AllReal, Small;
    if actions != [] {
      RunReal(cap, b, s, actions[..|actions| - 1]);
      StepReal(cap, b, Run(cap, s, actions[..|actions| - 1]), actions[|actions| - 1]);
    }
  }

  lemma {:induction false} SumOfReal(blocks: seq<nat>)
    requires forall i | 0 <= i < |blocks| :: Real(blocks[i])
    ensures 9 * |blocks| <= Sum(blocks)
    decreases |blocks|
  {
    if blocks != [] {
      SumOfReal(blocks[1..]);
    }
  }

  /** Even blocks of no bytes cost nine, so the cap bounds how many there can be. */
  lemma BlocksAreFew(cap: nat, b: nat, threads: nat, actions: seq<Action>)
    requires AllSmall(b, actions)
    requires var s := Start(threads); cap + Slack(cap, b, s, actions) + b * |s.threads| < WORD
    ensures var s := Start(threads); 9 * |Run(cap, s, actions).blocks| <= cap + Slack(cap, b, s, actions)
  {
    hide Run, All, Slack, AllSmall, Quiet;
    var s := Start(threads);
    StartQuiet(cap, threads);
    CapHolds(cap, b, s, actions);
    if actions == [] {
      assert Run(cap, s, actions).blocks == [] by { NothingRun(cap, s); }
    } else if threads == 0 {
      NobodyThere(cap, s, actions);
    } else {
      assert b <= b * threads;
      RunReal(cap, b, s, actions);
      SumOfReal(Run(cap, s, actions).blocks);
    }
  }

  lemma StartQuiet(cap: nat, threads: nat)
    ensures Quiet(cap, Start(threads)) && AllReal(Start(threads))
  {
  }

  lemma NothingRun(cap: nat, s: State)
    ensures Run(cap, s, []) == s
  {
  }

  lemma {:induction false} NobodyThere(cap: nat, s: State, actions: seq<Action>)
    requires s == Start(0)
    ensures Run(cap, s, actions) == s
    decreases |actions|
  {
    if actions != [] {
      NobodyThere(cap, s, actions[..|actions| - 1]);
    }
  }

  /** No thread has called yet. */
  function Start(threads: nat): State {
    State(0, [], seq(threads, _ => Outside))
  }

  // ----- overlapping resizes -----

  /** Both threads pass the comparison before either adds its growth. */
  function Overlapping(n: nat): seq<Action> {
    [ResizeCheck(0, 0, n), ResizeCheck(1, 0, n), ResizeMoves(0), ResizeMoves(1), ResizeAdds(0), ResizeAdds(1)]
  }

  /** Two blocks of `x` bytes, in two threads that stand where `p` says. */
  function Pair(x: nat, blocks: seq<nat>, p: Phase, q: Phase): State {
    State(2 * x, blocks, [p, q])
  }

  /** Two blocks with room for one of them to grow by `d`: both grow, and the cap is exceeded by `d`. */
  lemma OverlapExceedsCap(x: nat, d: nat)
    requires d > 0 && HEADER < x && 2 * x + 2 * d < WORD
    ensures var s := Pair(x, [x, x], Outside, Outside);
            Quiet(2 * x + d, s) && AllSmall(x + d, Overlapping(x + d - HEADER)) &&
            HandedOut(Run(2 * x + d, s, Overlapping(x + d - HEADER))) == 2 * x + d + d
  {
    hide Run, Step;
    var s, cap, acts := Pair(x, [x, x], Outside, Outside), 2 * x + d, Overlapping(x + d - HEADER);
    SumTwo(x, x);
    BothChecked(x, d);
    BothAdded(x, d);
    RunSix(cap, s, acts);
    SumTwo(x + d, x + d);
    AllZero([Outside, Outside], InHand);
  }

  lemma BothChecked(x: nat, d: nat)
    requires d > 0 && HEADER < x && 2 * x + 2 * d < WORD
    ensures var cap, n := 2 * x + d, x + d - HEADER;
            Step(cap, Step(cap, Pair(x, [x, x], Outside, Outside), ResizeCheck(0, 0, n)), ResizeCheck(1, 0, n))
            == Pair(x, [], Checked(x, x + d), Checked(x, x + d))
  {
    var cap, n := 2 * x + d, x + d - HEADER;
    assert Remove([x, x], 0) == [x] && Remove([x], 0) == [];
    var s1 := Step(cap, Pair(x, [x, x], Outside, Outside), ResizeCheck(0, 0, n));
    assert s1 == Pair(x, [x], Checked(x, x + d), Outside);
  }

  lemma BothAdded(x: nat, d: nat)
    requires d > 0 && HEADER < x && 2 * x + 2 * d < WORD
    ensures var cap, s2 := 2 * x + d, Pair(x, [], Checked(x, x + d), Checked(x, x + d));
            var s4 := Step(cap, Step(cap, s2, ResizeMoves(0)), ResizeMoves(1));
            var s6 := Step(cap, Step(cap, s4, ResizeAdds(0)), ResizeAdds(1));
            s6.blocks == [x + d, x + d] && s6.threads == [Outside, Outside]
  {
    var cap, s2 := 2 * x + d, Pair(x, [], Checked(x, x + d), Checked(x, x + d));
    var s4 := Step(cap, Step(cap, s2, ResizeMoves(0)), ResizeMoves(1));
    assert s4 == Pair(x, [], Grown(x, x + d), Grown(x, x + d));
    var s5 := Step(cap, s4, ResizeAdds(0));
    assert s5 == State(2 * x + d, [x + d], [Outside, Grown(x, x + d)]);
  }

  lemma SumTwo(x: nat, y: nat)
    ensures Sum([x, y]) == x + y
  {
    assert [x, y][1..] == [y];
    SumOne(y);
  }

  lemma RunSix(cap: nat, s: State, a: seq<Action>)
    requires |a| == 6
    ensures Run(cap, s, a) ==
      Step(cap, Step(cap, Step(cap, Step(cap, Step(cap, Step(cap, s, a[0]), a[1]), a[2]), a[3]), a[4]), a[5])
  {
    hide Step;
    RunThree(cap, s, a[..3]);
    RunThree(cap, Run(cap, s, a[..3]), a[3..]);
    RunAppend(cap, s, a[..3], a[3..]);
    assert a == a[..3] + a[3..];
  }

  lemma RunThree(cap: nat, s: State, a: seq<Action>)
    requires |a| == 3
    ensures Run(cap, s, a) == Step(cap, Step(cap, Step(cap, s, a[0]), a[1]), a[2])
  {
    hide Step;
    assert a[..2][..1] == [a[0]] && a[..2][..1][..0] == [];
    assert Run(cap, s, a[..2][..1]) == Step(cap, s, a[0]);
    assert Run(cap, s, a[..2]) == Step(cap, Step(cap, s, a[0]), a[1]);
  }

  lemma {:induction false} RunAppend(cap: nat, s: State, a: seq<Action>, b: seq<Action>)
    ensures Run(cap, s, a + b) == Run(cap, Run(cap, s, a), b)
    decreases |b|
  {
    hide Step;
    if b == [] {
      assert a + b == a;
    } else {
      assert (a + b)[..|a + b| - 1] == a + b[..|b| - 1];
      RunAppend(cap, s, a, b[..|b| - 1]);
    }
  }

  // ----- requests near the end of the range -----

  /** Requests of at most `b` bytes, with no overlapping resizes, never exceed the cap. */
  ghost predicate CapIsSafe(cap: nat, b: nat, threads: nat) {
    forall s, actions: seq<Action> |
      Quiet(cap, s) && |s.threads| == threads && AllSmall(b, actions) && Serial(cap, s, actions) ::
      HandedOut(Run(cap, s, actions)) <= cap
  }

  /** What `j` requests of `b` bytes come to. */
  function Times(b: nat, j: nat): nat {
    if j == 0 then 0 else Times(b, j - 1) + b
  }

  lemma {:induction false} TimesIs(b: nat, j: nat)
    ensures Times(b, j) == b * j
  {
    if j > 0 {
      TimesIs(b, j - 1);
      assert b * j == b * (j - 1) + b;
    }
  }

  /** `cap` bytes are handed out and the first `j` threads have asked for `b` more in vain. */
  function InVain(cap: nat, b: nat, threads: nat, j: nat): State {
    State(cap + Times(b, j), [cap], seq(threads, i => if i < j then Refused(b) else Outside))
  }

  function Requests(b: nat, j: nat): seq<Action>
    requires b > HEADER
  {
    seq(j, i requires 0 <= i < j => Add(i, b - HEADER))
  }

  lemma {:induction false} AllInVain(cap: nat, b: nat, threads: nat, j: nat)
    requires HEADER < b && j <= threads && cap + Times(b, j) < WORD
    ensures Run(cap, InVain(cap, b, threads, 0), Requests(b, j)) == InVain(cap, b, threads, j)
  {
    hide Step;
    if j > 0 {
      AllInVain(cap, b, threads, j - 1);
      assert Requests(b, j)[..j - 1] == Requests(b, j - 1);
      var s := InVain(cap, b, threads, j - 1);
      OneInVain(cap, b, s, j - 1);
      assert s.threads[j - 1 := Refused(b)] == InVain(cap, b, threads, j).threads;
    }
  }

  lemma OneInVain(cap: nat, b: nat, s: State, t: nat)
    requires HEADER < b && t < |s.threads| && s.threads[t].Outside? && cap <= s.live && s.live + b < WORD
    ensures Step(cap, s, Add(t, b - HEADER)) == State(s.live + b, s.blocks, s.threads[t := Refused(b)])
  {
  }

  /** One more request runs the counter past its range and is granted. */
  lemma LastIsGranted(cap: nat, s: State, t: nat, y: nat)
    requires HEADER < y && t < |s.threads| && s.threads[t].Outside? && s.blocks == [cap] && s.live < WORD && y < WORD
    requires WORD <= s.live + y <= WORD + cap
    ensures Run(cap, s, [Add(t, y - HEADER), Grant(t)]).blocks == [cap, y]
  {
    var s1 := Step(cap, s, Add(t, y - HEADER));
    assert Wrap(s.live + y) == s.live + y - WORD;
    var acts := [Add(t, y - HEADER), Grant(t)];
    assert acts[..1] == [acts[0]] && acts[..1][..0] == [];
    assert Run(cap, s, acts[..1]) == s1;
    assert [cap] + [y] == [cap, y];
  }

  lemma {:induction false} NoResizes(cap: nat, s: State, actions: seq<Action>)
    requires NobodyResizes(s) && forall i | 0 <= i < |actions| :: !actions[i].ResizeCheck?
    ensures NobodyResizes(Run(cap, s, actions))
    decreases |actions|
  {
    hide Accounted, Sum, Wrap, Remove;
    if actions != [] {
      NoResizes(cap, s, actions[..|actions| - 1]);
    }
  }

  lemma UnsafeRun(cap: nat, b: nat, threads: nat) returns (s: State, actions: seq<Action>)
    requires HEADER <= cap < WORD && HEADER < b < WORD && cap + b * threads >= WORD
    ensures Quiet(cap, s) && |s.threads| == threads && AllSmall(b, actions) && Serial(cap, s, actions)
    ensures HandedOut(Run(cap, s, actions)) > cap
  {
    hide Run, Step, All, Times;
    var j := EnoughThreads(cap, b, threads);
    s := InVain(cap, b, threads, 0);
    var m := InVain(cap, b, threads, j);
    var y := if WORD - m.live <= HEADER then HEADER + 1 else WORD - m.live;
    var last := [Add(j, y - HEADER), Grant(j)];
    actions := Requests(b, j) + last;
    AllInVain(cap, b, threads, j);
    RunAppend(cap, s, Requests(b, j), last);
    LastIsGranted(cap, m, j, y);
    SumTwo(cap, y);
    SumOne(cap);
    TimesIs(b, 0);
    forall i | 0 <= i < |actions| && Asks(actions[i]) ensures NobodyResizes(Run(cap, s, actions[..i])) {
      NoResizes(cap, s, actions[..i]);
    }
  }

  /** After some of the threads have asked for `b` bytes, one more request reaches the end of the range. */
  lemma EnoughThreads(cap: nat, b: nat, threads: nat) returns (j: nat)
    requires cap < WORD && 0 < b && cap + b * threads >= WORD
    ensures j < threads && cap + Times(b, j) < WORD <= cap + Times(b, j) + b
  {
    TimesIs(b, threads);
    j := 0;
    while cap + Times(b, j) + b < WORD
      invariant j < threads && cap + Times(b, j) < WORD
      decreases threads - j
    {
      assert Times(b, j + 1) == Times(b, j) + b;
      j := j + 1;
    }
  }

  /** The exact bound on requests: all threads' requests on top of the cap must fit the counter. */
  lemma CapIsSafeIff(cap: nat, b: nat, threads: nat)
    requires HEADER <= cap < WORD && HEADER < b < WORD
    ensures CapIsSafe(cap, b, threads) <==> cap + b * threads < WORD
  {
    hide Run, HandedOut, Serial, AllSmall, Quiet;
    if cap + b * threads < WORD {
      forall s, actions: seq<Action> |
        Quiet(cap, s) && |s.threads| == threads && AllSmall(b, actions) && Serial(cap, s, actions)
        ensures HandedOut(Run(cap, s, actions)) <= cap
      {
        CapHolds(cap, b, s, actions);
      }
    } else {
      var s, actions := UnsafeRun(cap, b, threads);
    }
  }
}
