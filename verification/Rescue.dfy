/**
 The flood response of the hardened IPC server: a clean mode, a soft mode that
 decays by itself, and a hard mode that nothing can shorten or prolong.
 */
module Rescue {

  datatype Mode = Clean | Soft | Hard

  /** `entered` is when the current drain began; it is read only in hard mode. */
  datatype Server = Server(mode: Mode, burst: nat, windowStart: int, drainStart: int)

  const THRESHOLD: nat := 10
  const WINDOW: int := 1
  const DRAIN: int := 30

  /** What one turn of the loop receives; `later` is the clock when a packet is judged. */
  datatype Traffic =
    | Quiet
    | BadPeer
    | ShortPacket(later: int)
    | BadMagic(later: int, peeked: bool)
    | GoodPacket

  function Start(now: int): Server {
    Server(Clean, 0, now, 0)
  }

  /** The three checks at the head of the loop, in order. */
  function Drained(s: Server, now: int): Server {
    if s.mode == Hard && now - s.drainStart >= DRAIN then Server(Clean, 0, now, s.drainStart) else s
  }

  function Escalated(s: Server, now: int): Server {
    if s.mode == Soft && s.burst >= THRESHOLD * 2 then s.(mode := Hard, drainStart := now) else s
  }

  function Decayed(s: Server, now: int): Server {
    if now - s.windowStart >= WINDOW then
      var burst := s.burst / 2;
      s.(burst := burst, windowStart := now, mode := if s.mode == Soft && burst == 0 then Clean else s.mode)
    else s
  }

  function Head(s: Server, now: int): Server {
    Decayed(Escalated(Drained(s, now), now), now)
  }

  /** One more bad packet; a flood seen by `dispatch` also restarts the window. */
  function Counted(s: Server, restart: bool, later: int): Server {
    if s.mode == Hard then s
    else
      var s1 := s.(burst := s.burst + 1);
      if s1.burst >= THRESHOLD && s.mode == Clean
      then s1.(mode := Soft, windowStart := if restart then later else s.windowStart) else s1
  }

  function Handle(s: Server, t: Traffic): Server {
    match t
    case Quiet => s
    case GoodPacket => s
    case BadPeer => Counted(s, false, 0)
    case ShortPacket(later) => Counted(s, true, later)
    // outside the clean mode a packet whose magic can be read is dropped uncounted
    case BadMagic(later, peeked) => if s.mode != Clean && peeked then s else Counted(s, true, later)
  }

  function Turn(s: Server, now: int, t: Traffic): Server {
    Handle(Head(s, now), t)
  }

  /** One turn of the loop: the clock at its head and what it receives. */
  datatype Tick = Tick(now: int, t: Traffic)

  function Run(s: Server, ticks: seq<Tick>): Server {
    if ticks == [] then s else Turn(Run(s, ticks[..|ticks| - 1]), ticks[|ticks| - 1].now, ticks[|ticks| - 1].t)
  }

  // ----- bounds -----

  ghost predicate Bounded(s: Server) {
    (s.mode == Clean ==> s.burst < THRESHOLD) && (s.mode == Soft ==> s.burst > 0) && s.burst <= 2 * THRESHOLD
  }

  lemma TurnBounded(s: Server, now: int, t: Traffic)
    requires Bounded(s)
    ensures Bounded(Turn(s, now, t))
  {
  }

  /** Whatever arrives and whenever: clean means fewer than 10, soft at least 1 and at most 20. */
  lemma {:induction false} RunBounded(s: Server, ticks: seq<Tick>)
    requires Bounded(s)
    ensures Bounded(Run(s, ticks))
    decreases |ticks|
  {
    if ticks != [] {
      RunBounded(s, ticks[..|ticks| - 1]);
      TurnBounded(Run(s, ticks[..|ticks| - 1]), ticks[|ticks| - 1].now, ticks[|ticks| - 1].t);
    }
  }

  // ----- the hard mode -----

  /** In hard mode only the clock counts: any traffic leaves mode and drain as they are. */
  lemma HardIsImmune(s: Server, now: int, t: Traffic)
    requires s.mode == Hard
    ensures var s' := Turn(s, now, t);
            && (now - s.drainStart < DRAIN ==> s'.mode == Hard && s'.drainStart == s.drainStart)
            && (now - s.drainStart >= DRAIN ==> Head(s, now).mode == Clean && Head(s, now).burst == 0)
  {
  }

  /** Before 30 seconds have passed no run of turns leaves the hard mode. */
  lemma {:induction false} HardLasts(s: Server, ticks: seq<Tick>)
    requires s.mode == Hard && forall i | 0 <= i < |ticks| :: ticks[i].now - s.drainStart < DRAIN
    ensures Run(s, ticks).mode == Hard && Run(s, ticks).drainStart == s.drainStart
    decreases |ticks|
  {
    if ticks != [] {
      HardLasts(s, ticks[..|ticks| - 1]);
      HardIsImmune(Run(s, ticks[..|ticks| - 1]), ticks[|ticks| - 1].now, ticks[|ticks| - 1].t);
    }
  }

  /** The first loop head after them does. */
  lemma HardEnds(s: Server, ticks: seq<Tick>, now: int)
    requires s.mode == Hard && now - s.drainStart >= DRAIN
    requires forall i | 0 <= i < |ticks| :: ticks[i].now - s.drainStart < DRAIN
    ensures Head(Run(s, ticks), now).mode == Clean && Head(Run(s, ticks), now).burst == 0
  {
    HardLasts(s, ticks);
  }

  /** The drain starts when the mode is entered, and the mode is entered nowhere else. */
  lemma HardEntry(s: Server, now: int, t: Traffic)
    requires s.mode != Hard && Turn(s, now, t).mode == Hard
    ensures s.mode == Soft && s.burst >= 2 * THRESHOLD && Turn(s, now, t).drainStart == now
  {
  }

  // ----- floods -----

  /** Traffic that counts against the server in clean mode. */
  predicate Bad(t: Traffic) {
    t.BadPeer? || t.ShortPacket? || t.BadMagic?
  }

  /** Outside it, packets whose magic could be read do not count. */
  predicate BadInSoft(t: Traffic) {
    t.BadPeer? || t.ShortPacket? || (t.BadMagic? && !t.peeked)
  }

  function Count(ticks: seq<Tick>, bad: Traffic -> bool): nat {
    if ticks == [] then 0
    else Count(ticks[..|ticks| - 1], bad) + (if bad(ticks[|ticks| - 1].t) then 1 else 0)
  }

  /** Below the threshold every bad packet of a window counts, and nothing else changes. */
  lemma {:induction false} CleanCounts(s: Server, ticks: seq<Tick>)
    requires s.mode == Clean && Windows(s, ticks) == 0 && s.burst + Count(ticks, Bad) < 10
    ensures Run(s, ticks) == s.(burst := s.burst + Count(ticks, Bad))
    decreases |ticks|
  {
    if ticks != [] {
      CleanCounts(s, ticks[..|ticks| - 1]);
    }
  }

  /** When the window is restarted: at once if the packet was judged, not at all if the peer was. */
  function Noticed(t: Traffic, windowStart: int): int {
    match t
    case ShortPacket(later) => later
    case BadMagic(later, _) => later
    case _ => windowStart
  }

  /** The tenth bad packet of a window puts a clean server into the soft mode, whatever else arrives. */
  lemma FloodNoticed(s: Server, ticks: seq<Tick>)
    requires s.mode == Clean && s.burst < 10 && ticks != [] && Windows(s, ticks) == 0
    requires s.burst + Count(ticks, Bad) == 10 && Bad(ticks[|ticks| - 1].t)
    ensures var r := Run(s, ticks);
            r.mode == Soft && r.burst == 10 && r.windowStart == Noticed(ticks[|ticks| - 1].t, s.windowStart)
  {
    CleanCounts(s, ticks[..|ticks| - 1]);
  }

  /** In soft mode the counting goes on. */
  lemma {:induction false} SoftCounts(s: Server, ticks: seq<Tick>)
    requires s.mode == Soft && Windows(s, ticks) == 0
    requires ticks != [] ==> s.burst + Count(ticks[..|ticks| - 1], BadInSoft) < 20
    ensures Run(s, ticks) == s.(burst := s.burst + Count(ticks, BadInSoft))
    decreases |ticks|
  {
    if ticks != [] {
      var before := ticks[..|ticks| - 1];
      if before != [] {
        assert Count(before[..|before| - 1], BadInSoft) <= Count(before, BadInSoft);
      }
      SoftCounts(s, before);
    }
  }

  /** A flood that goes on to twice the threshold puts the server into the hard mode at the next loop head. */
  lemma FloodEscalates(s: Server, ticks: seq<Tick>, now: int)
    requires s.mode == Soft && s.burst < 20 && ticks != [] && Windows(s, ticks) == 0
    requires s.burst + Count(ticks, BadInSoft) == 20 && BadInSoft(ticks[|ticks| - 1].t)
    ensures Head(Run(s, ticks), now).mode == Hard && Head(Run(s, ticks), now).drainStart == now
  {
    SoftCounts(s, ticks);
  }

  // ----- decay -----

  function Half(n: nat, times: nat): nat {
    if times == 0 then n else Half(n / 2, times - 1)
  }

  /** Turns that find the window over. */
  function Windows(s: Server, ticks: seq<Tick>): nat {
    if ticks == [] then 0
    else
      var before := ticks[..|ticks| - 1];
      Windows(s, before) + (if ticks[|ticks| - 1].now - Run(s, before).windowStart >= WINDOW then 1 else 0)
  }

  lemma {:induction false} HalfStep(n: nat, times: nat)
    ensures Half(n, times + 1) == Half(n, times) / 2
    decreases times
  {
    if times > 0 {
      HalfStep(n / 2, times - 1);
    }
  }

  ghost predicate AllQuiet(ticks: seq<Tick>) {
    forall i | 0 <= i < |ticks| :: ticks[i].t in {Quiet, GoodPacket}
  }

  /** With no bad traffic the burst halves once a window, and the soft mode ends when nothing is left. */
  lemma {:induction false} QuietDecays(s: Server, ticks: seq<Tick>)
    requires Bounded(s) && s.mode != Hard && s.burst < 2 * THRESHOLD && AllQuiet(ticks)
    ensures var r := Run(s, ticks);
            && r.mode != Hard && r.burst == Half(s.burst, Windows(s, ticks)) && r.burst <= s.burst
            && (r.mode == Soft ==> r.burst > 0)
    decreases |ticks|
  {
    if ticks != [] {
      var before := ticks[..|ticks| - 1];
      QuietDecays(s, before);
      HalfStep(s.burst, Windows(s, before));
    }
  }

  /** A soft mode that has not reached the second threshold is over after five windows. */
  lemma SoftClears(s: Server, ticks: seq<Tick>)
    requires Bounded(s) && s.mode == Soft && s.burst < 2 * THRESHOLD && AllQuiet(ticks) && Windows(s, ticks) >= 5
    ensures Run(s, ticks).mode == Clean && Run(s, ticks).burst == 0
  {
    QuietDecays(s, ticks);
    FiveHalvings(s.burst, Windows(s, ticks));
  }

  lemma FiveHalvings(n: nat, times: nat)
    requires n < 32 && times >= 5
    ensures Half(n, times) == 0
  {
    assert Half(n, times) == Half(n / 2, times - 1) == Half(n / 2 / 2, times - 2);
    assert Half(n / 2 / 2, times - 2) == Half(n / 2 / 2 / 2, times - 3) == Half(n / 2 / 2 / 2 / 2, times - 4);
    assert Half(n / 2 / 2 / 2 / 2, times - 4) == Half(n / 2 / 2 / 2 / 2 / 2, times - 5);
    HalfZero(times - 5);
  }

  lemma {:induction false} HalfZero(times: nat)
    ensures Half(0, times) == 0
  {
    if times > 0 {
      HalfZero(times - 1);
    }
  }

  /** The clock at the last turn. */
  function Clock(ticks: seq<Tick>, from: int): int {
    if ticks == [] then from else ticks[|ticks| - 1].now
  }

  /** Successive turns see the same second or the next one. */
  predicate EverySecond(ticks: seq<Tick>, from: int) {
    ticks == [] ||
    (EverySecond(ticks[..|ticks| - 1], from) &&
     Clock(ticks[..|ticks| - 1], from) <= Clock(ticks, from) <= Clock(ticks[..|ticks| - 1], from) + 1)
  }

  /** In a quiet run that looks at the clock every second, windows and seconds are the same thing. */
  lemma {:induction false} WindowsAreSeconds(s: Server, ticks: seq<Tick>)
    requires s.mode != Hard && s.burst < 2 * THRESHOLD && AllQuiet(ticks) && EverySecond(ticks, s.windowStart)
    ensures Windows(s, ticks) == Clock(ticks, s.windowStart) - s.windowStart
    ensures Run(s, ticks).windowStart == Clock(ticks, s.windowStart)
    ensures Run(s, ticks).mode != Hard && Run(s, ticks).burst < 2 * THRESHOLD
    decreases |ticks|
  {
    if ticks != [] {
      WindowsAreSeconds(s, ticks[..|ticks| - 1]);
    }
  }

  /** So five seconds without bad traffic end the soft mode. */
  lemma FiveSecondsClear(s: Server, ticks: seq<Tick>)
    requires Bounded(s) && s.mode == Soft && s.burst < 2 * THRESHOLD
    requires AllQuiet(ticks) && EverySecond(ticks, s.windowStart) && Clock(ticks, s.windowStart) >= s.windowStart + 5
    ensures Run(s, ticks).mode == Clean && Run(s, ticks).burst == 0
  {
    WindowsAreSeconds(s, ticks);
    SoftClears(s, ticks);
  }

  // ----- the server's own fields -----

  class IpcServer {
    var mode: Mode
    var burst: nat
    var windowStart: int
    var drainStart: int
    var activeConns: nat
    const maxConns: nat

    ghost function View(): Server
      reads this
    {
      Server(mode, burst, windowStart, drainStart)
    }

    /** Connections are served one at a time, so none is open at the head of the loop. */
    ghost predicate Valid()
      reads this
    {
      activeConns == 0 && maxConns > 0
    }

    constructor (now: int, configured: int)
      ensures Valid() && View() == Start(now)
    {
      mode, burst, windowStart, drainStart := Clean, 0, now, 0;
      activeConns := 0;
      maxConns := if configured > 0 then configured else 16;
    }

    method CountBad(restart: bool, later: int)
      modifies this
      ensures View() == Counted(old(View()), restart, later) && activeConns == old(activeConns)
    {
      if mode != Hard {
        burst := burst + 1;
        if burst >= THRESHOLD && mode == Clean {
          mode := Soft;
          if restart { windowStart := later; }
        }
      }
    }

    /** One turn; the branch for too many connections is never taken. */
    method Iterate(now: int, t: Traffic)
      requires Valid()
      modifies this
      ensures Valid() && View() == Turn(old(View()), now, t)
    {
      if mode == Hard && now - drainStart >= DRAIN {
        mode, burst, windowStart := Clean, 0, now;
      }
      if mode == Soft && burst >= THRESHOLD * 2 {
        mode, drainStart := Hard, now;
      }
      if now - windowStart >= WINDOW {
        burst, windowStart := burst / 2, now;
        if mode == Soft && burst == 0 { mode := Clean; }
      }
      if t.Quiet? { return; }
      if activeConns >= maxConns {
        assert false;
      }
      if t.BadPeer? {
        CountBad(false, 0);
        return;
      }
      activeConns := activeConns + 1;
      if mode != Clean && t.BadMagic? && t.peeked {
        activeConns := activeConns - 1;
        return;
      }
      if t.ShortPacket? || t.BadMagic? {
        CountBad(true, t.later);
      }
      activeConns := activeConns - 1;
    }
  }
}
