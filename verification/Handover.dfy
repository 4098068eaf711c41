/**
 The five-step handover.  Everything the protocol cannot decide itself (the new
 program, memory, the Dry Run, the clock, A's safe points) is its environment;
 whatever the environment does, the run ends committed or failed, A's state is
 not touched, and nothing is leaked or released twice.
 */
module Handover {
  import opened Values
  import opened Wire
  import opened BitWords
  import opened ValueCodec
  import opened PrstPool
  import opened PrstGraph
  import opened Snapshot
  import opened Rehearsal
  import opened Reload
  import opened TwiceIsOnce
  import opened ErrorStack

  datatype State = Idle | Standby | Migration | DryRun | Switchover | Cleanup | Failed | Committed

  /** How the Dry Run of the new program ends, and the pool and graph it leaves. */
  datatype Rehearsed = Rehearsed(result: int, hadError: bool, errors: nat, pool: Pool, graph: Graph)

  /** `now(k)` is the k-th reading of the clock, `safe(k)` whether poll `k` finds A at a safe point. */
  datatype Env = Env(
    program: bool, slots: int,
    allocB: bool, allocPoolBuf: bool, allocGraphBuf: bool, allocSnap: bool,
    dryRun: (Pool, Graph) -> Rehearsed,
    now: nat -> int, safe: nat -> bool)

  /** The runtime being replaced. */
  class Runtime {
    var pool: Pool
    var graph: Graph
    var cycle: int
    const errs: ErrStack

    constructor (p: Pool, g: Graph, c: int)
      ensures pool == p && graph == g && cycle == c && fresh(errs) && fresh(errs.entries)
      ensures errs.Valid() && errs.Contents() == []
    {
      pool, graph, cycle := p, g, c;
      errs := new ErrStack();
    }
  }

  /** The candidate; `None` is a pool or graph that holds no memory. */
  datatype Candidate = Candidate(pool: Option<Pool>, graph: Option<Graph>)

  /** Blocks of memory the protocol answers for. */
  datatype Resource = BlockB | PoolB | GraphB | Snap | PoolBuf | GraphBuf

  lemma OnlyThese(live: set<Resource>)
    ensures BlockB !in live && GraphB !in live && Snap !in live && PoolBuf !in live && GraphBuf !in live ==>
              live == if PoolB in live then {PoolB} else {}
  {
    forall r | r in live ensures r in [BlockB, PoolB, GraphB, Snap, PoolBuf, GraphBuf] {
      assert r.BlockB? || r.PoolB? || r.GraphB? || r.Snap? || r.PoolBuf? || r.GraphBuf?;
    }
  }

  // ----- the verdict, as a function of the environment -----

  function DryFailed(r: Rehearsed): bool {
    r.result != 0 || r.hadError || r.errors > 0
  }

  lemma SavedStateReadable(p: Pool, pads: seq<Bytes>, g: Graph, cycle: int)
    requires |p| == |pads|
    ensures var b := SaveState(p, pads, g, cycle);
            |b| >= HEADER && HEADER + ReadWord32(b, 16) + ReadWord32(b, 20) <= |b|
  {
    hide Framed, ReadWord32, Serialize, SerializeGraph, Checksum, GraphChecksum, Holds;
    HeaderBack(Truth(p, g, cycle), p, pads, g);
  }

  function Moved(p: Pool, pads: seq<Bytes>, g: Graph, cycle: int): Migrated
    requires |p| == |pads|
  {
    SavedStateReadable(p, pads, g, cycle);
    RestoreState(SaveState(p, pads, g, cycle))
  }

  /** Poll `i` is the first that finds a safe point, and the deadline has not passed before it. */
  ghost predicate SafeAt(env: Env, timeout: int, i: nat) {
    && env.now(0) >= 0 && env.safe(i)
    && forall j | 0 <= j < i :: !env.safe(j) && env.now(j + 1) < env.now(0) + timeout
  }

  /** The wait is over by poll `horizon`: there is no clock, A is safe there, or the deadline has passed. */
  ghost predicate Ends(env: Env, timeout: int, horizon: nat) {
    env.now(0) < 0 || env.safe(horizon) || env.now(horizon + 1) >= env.now(0) + timeout
  }

  ghost predicate ReachesSafePoint(env: Env, timeout: int) {
    exists i: nat :: SafeAt(env, timeout, i)
  }

  ghost function Verdict(env: Env, p: Pool, pads: seq<Bytes>, g: Graph, cycle: int, timeout: int): Result
    requires |p| == |pads|
  {
    if !env.program then ErrNullProgram
    else if env.slots < 0 then ErrResolve
    else if !env.allocB then ErrAlloc
    else if !env.allocPoolBuf || !env.allocGraphBuf then ErrSerialize
    else if !env.allocSnap then ErrAlloc
    else
      var m := Moved(p, pads, g, cycle);
      if m.code != OK then m.code
      else if m.pool.None? || m.graph.None? || DryFailed(env.dryRun(m.pool.value, m.graph.value)) then ErrDryRun
      else if !ReachesSafePoint(env, timeout) then ErrSafePoint
      else OK
  }

  class Ctx {
    var state: State
    var lastResult: Result
    const rtA: Runtime
    var rtB: Option<Candidate>
    var snapshot: Option<Bytes>
    var poolAfter: Option<Pool>
    const timeout: int
    var swapPoll: nat
    var live: set<Resource>

    ghost predicate Valid()
      reads this, rtA.errs
    {
      && rtA.errs.Valid()
      && PoolBuf !in live && GraphBuf !in live
      && (BlockB in live <==> rtB.Some?)
      && (PoolB in live <==> (rtB.Some? && rtB.value.pool.Some?) || poolAfter.Some?)
      && !(rtB.Some? && rtB.value.pool.Some? && poolAfter.Some?)
      && (GraphB in live <==> rtB.Some? && rtB.value.graph.Some?)
      && (Snap in live <==> snapshot.Some?)
    }

    /** Nothing of an earlier attempt is left. */
    ghost predicate Ready()
      reads this, rtA.errs
    {
      Valid() && rtB.None? && snapshot.None? && poolAfter.None?
    }

    constructor (a: Runtime)
      requires a.errs.Valid()
      ensures rtA == a && Ready() && state == Idle && live == {}
    {
      state, lastResult, rtA, rtB, snapshot, poolAfter := Idle, OK, a, None, None, None;
      timeout, swapPoll, live := 5000, 0, {};
    }

    method Acquire(r: Resource)
      requires r !in live
      modifies this`live
      ensures live == old(live) + {r}
    {
      live := live + {r};
    }

    /** Only what is held may be released. */
    method Release(r: Resource)
      requires r in live
      modifies this`live
      ensures live == old(live) - {r}
    {
      live := live - {r};
    }

    method Abort()
      requires Valid() && poolAfter.None?
      modifies this
      ensures Ready() && state == Failed && live == {} && lastResult == old(lastResult)
    {
      if snapshot.Some? {
        Release(Snap);
        snapshot := None;
      }
      if rtB.Some? {
        if rtB.value.pool.Some? { Release(PoolB); }
        if rtB.value.graph.Some? { Release(GraphB); }
        Release(BlockB);
        rtB := None;
      }
      OnlyThese(live);
      state := State.Failed;
    }

    method Fail(r: Result)
      requires Valid() && poolAfter.None?
      modifies this, rtA.errs, rtA.errs.entries
      ensures Ready() && state == Failed && live == {} && lastResult == r
      ensures rtA.errs.Contents() == Newest(old(rtA.errs.Contents()) + [HandoverError])
    {
      lastResult := r;
      rtA.errs.Push(HandoverError);
      Abort();
    }

    method Step1(env: Env) returns (r: Result)
      requires Ready()
      modifies this, rtA.errs, rtA.errs.entries
      ensures Valid() && poolAfter.None?
      ensures r == if !env.program then ErrNullProgram else if env.slots < 0 then ErrResolve
                   else if !env.allocB then ErrAlloc else OK
      ensures r == OK ==>
        rtB == Some(Candidate(None, None)) && snapshot.None? && rtA.errs.Contents() == old(rtA.errs.Contents())
      ensures r != OK ==> Ended(old(rtA.errs.Contents()))
    {
      state := Standby;
      if !env.program { Fail(ErrNullProgram); return ErrNullProgram; }
      if env.slots < 0 { Fail(ErrResolve); return ErrResolve; }
      if !env.allocB { Fail(ErrAlloc); return ErrAlloc; }
      Acquire(BlockB);
      rtB := Some(Candidate(None, None));
      return OK;
    }

    /** Failed, with one more error on A and nothing held. */
    ghost predicate Ended(errsBefore: seq<ErrKind>)
      reads this, rtA.errs, rtA.errs.entries
    {
      Ready() && state == Failed && live == {} && rtA.errs.Contents() == Newest(errsBefore + [HandoverError])
    }

    method SerializeState(env: Env, pads: seq<Bytes>) returns (r: Result)
      requires Valid() && rtB.Some? && poolAfter.None? && |pads| == |rtA.pool|
      modifies this
      ensures Valid() && rtB == old(rtB) && poolAfter == old(poolAfter)
      ensures r == if !env.allocPoolBuf || !env.allocGraphBuf then ErrSerialize
                   else if !env.allocSnap then ErrAlloc else OK
      ensures snapshot == if r == OK then Some(SaveState(rtA.pool, pads, rtA.graph, rtA.cycle)) else old(snapshot)
    {
      hide SaveState;
      if !env.allocPoolBuf { return ErrSerialize; }
      Acquire(PoolBuf);
      if !env.allocGraphBuf { Release(PoolBuf); return ErrSerialize; }
      Acquire(GraphBuf);
      if !env.allocSnap { Release(PoolBuf); Release(GraphBuf); return ErrAlloc; }
      var snap := SaveState(rtA.pool, pads, rtA.graph, rtA.cycle);
      Release(PoolBuf);
      Release(GraphBuf);
      if snapshot.Some? { Release(Snap); }
      Acquire(Snap);
      snapshot := Some(snap);
      return OK;
    }

    /** Reads the snapshot into the candidate, which keeps what was read even where reading fails. */
    method DeserializeState() returns (r: Result)
      requires Valid() && rtB == Some(Candidate(None, None)) && poolAfter.None? && snapshot.Some?
      requires var b := snapshot.value; |b| >= HEADER ==> HEADER + ReadWord32(b, 16) + ReadWord32(b, 20) <= |b|
      modifies this
      ensures Valid() && poolAfter.None? && snapshot == old(snapshot)
      ensures var m := RestoreState(old(snapshot).value); r == m.code && rtB == Some(Candidate(m.pool, m.graph))
    {
      hide RestoreState, ReadWord32;
      var m := RestoreState(snapshot.value);
      if m.pool.Some? { Acquire(PoolB); }
      if m.graph.Some? { Acquire(GraphB); }
      rtB := Some(Candidate(m.pool, m.graph));
      r := m.code;
    }

    method Step2(env: Env, pads: seq<Bytes>) returns (r: Result)
      requires Valid() && rtB == Some(Candidate(None, None)) && poolAfter.None? && snapshot.None?
      requires |pads| == |rtA.pool|
      modifies this, rtA.errs, rtA.errs.entries
      ensures Valid() && poolAfter.None?
      ensures r == if !env.allocPoolBuf || !env.allocGraphBuf then ErrSerialize else if !env.allocSnap then ErrAlloc
                   else Moved(rtA.pool, pads, rtA.graph, rtA.cycle).code
      ensures r == OK ==> var m := Moved(rtA.pool, pads, rtA.graph, rtA.cycle);
                          rtB == Some(Candidate(m.pool, m.graph)) && rtA.errs.Contents() == old(rtA.errs.Contents())
      ensures r != OK ==> Ended(old(rtA.errs.Contents()))
    {
      hide RestoreState, SaveState, ReadWord32;
      state := Migration;
      r := SerializeState(env, pads);
      if r != OK { Fail(r); return r; }
      SavedStateReadable(rtA.pool, pads, rtA.graph, rtA.cycle);
      r := DeserializeState();
      if r != OK { Fail(r); return r; }
      return OK;
    }

    /** Rehearses the program in the candidate; the pool survives with its resources given up. */
    method Step3(env: Env) returns (r: Result)
      requires Valid() && rtB.Some? && rtB.value.pool.Some? && rtB.value.graph.Some? && poolAfter.None?
      modifies this, rtA.errs, rtA.errs.entries
      ensures Valid() && poolAfter.None?
      ensures var d := env.dryRun(old(rtB).value.pool.value, old(rtB).value.graph.value);
              && (r == OK <==> d.result == 0 && !d.hadError && d.errors == 0) && r in {OK, ErrDryRun}
              && (r == OK ==> rtB == Some(Candidate(Some(HeadstoneAll(d.pool)), Some(d.graph))))
      ensures r == OK ==> rtA.errs.Contents() == old(rtA.errs.Contents())
      ensures r != OK ==> Ended(old(rtA.errs.Contents()))
    {
      state := DryRun;
      var d := env.dryRun(rtB.value.pool.value, rtB.value.graph.value);
      rtB := Some(Candidate(Some(HeadstoneAll(d.pool)), Some(d.graph)));
      if DryFailed(d) { Fail(ErrDryRun); return ErrDryRun; }
      return OK;
    }

    /** Waits for a safe point. */
    method Step4(env: Env, ghost horizon: nat) returns (r: Result)
      requires Valid() && rtB.Some? && rtB.value.pool.Some? && poolAfter.None?
      requires Ends(env, timeout, horizon)
      modifies this, rtA.errs, rtA.errs.entries
      ensures Valid() && r == (if ReachesSafePoint(env, timeout) then OK else ErrSafePoint)
      ensures r == OK ==>
        && SafeAt(env, timeout, swapPoll) && rtB == Some(old(rtB).value.(pool := None))
        && poolAfter == old(rtB).value.pool && rtA.errs.Contents() == old(rtA.errs.Contents())
      ensures r != OK ==> Ended(old(rtA.errs.Contents()))
    {
      state := Switchover;
      if env.now(0) < 0 { Fail(ErrSafePoint); return ErrSafePoint; }
      var found, poll := AwaitSafePoint(env, timeout, horizon);
      if !found { Fail(ErrSafePoint); return ErrSafePoint; }
      swapPoll := poll;
      poolAfter := rtB.value.pool;
      rtB := Some(rtB.value.(pool := None));
      return OK;
    }

    method Step5()
      requires Valid() && rtB.Some? && rtB.value.pool.None? && poolAfter.Some?
      modifies this
      ensures Valid() && state == Committed && lastResult == OK && rtB.None? && snapshot.None?
      ensures poolAfter == old(poolAfter) && live == {PoolB} && swapPoll == old(swapPoll)
    {
      state := Cleanup;
      if snapshot.Some? {
        Release(Snap);
        snapshot := None;
      }
      if rtB.value.graph.Some? { Release(GraphB); }
      Release(BlockB);
      rtB := None;
      OnlyThese(live);
      state := Committed;
      lastResult := OK;
    }

    /**
     The whole protocol: the result is the environment's verdict; on success
     `poolAfter` owns the rehearsed pool and A stood at a safe point at the swap;
     on failure nothing is held and A has exactly one more error.
     */
    method Execute(env: Env, pads: seq<Bytes>, ghost horizon: nat) returns (r: Result)
      requires Ready() && |pads| == |rtA.pool| && Ends(env, timeout, horizon)
      modifies this, rtA.errs, rtA.errs.entries
      ensures Valid() && r == Verdict(env, rtA.pool, pads, rtA.graph, rtA.cycle, timeout)
      ensures rtA.pool == old(rtA.pool) && rtA.graph == old(rtA.graph) && rtA.cycle == old(rtA.cycle)
      ensures r != OK ==> Ended(old(rtA.errs.Contents()))
      ensures r == OK ==>
        && state == Committed && rtB.None? && snapshot.None? && live == {PoolB}
        && rtA.errs.Contents() == old(rtA.errs.Contents()) && SafeAt(env, timeout, swapPoll)
        && var m := Moved(rtA.pool, pads, rtA.graph, rtA.cycle);
           m.pool.Some? && m.graph.Some? &&
           var d := env.dryRun(m.pool.value, m.graph.value);
           poolAfter == Some(HeadstoneAll(d.pool)) && d.result == 0 && !d.hadError && d.errors == 0
    {
      hide Moved;
      r := Step1(env);
      if r != OK { return r; }
      r := Step2(env, pads);
      if r != OK { return r; }
      MovedWhole(rtA.pool, pads, rtA.graph, rtA.cycle);
      r := Step3(env);
      if r != OK { return r; }
      r := Step4(env, horizon);
      if r != OK { return r; }
      Step5();
      return OK;
    }
  }

  /** Polls A until it is at a safe point or the deadline has passed. */
  method AwaitSafePoint(env: Env, timeout: int, ghost horizon: nat) returns (found: bool, poll: nat)
    requires env.now(0) >= 0 && Ends(env, timeout, horizon)
    ensures found <==> ReachesSafePoint(env, timeout)
    ensures found ==> SafeAt(env, timeout, poll)
  {
    var deadline := env.now(0) + timeout;
    poll := 0;
    while !env.safe(poll)
      invariant poll <= horizon && forall j | 0 <= j < poll :: !env.safe(j) && env.now(j + 1) < deadline
      decreases horizon - poll
    {
      if env.now(poll + 1) >= deadline {
        NeverSafe(env, timeout, poll);
        return false, poll;
      }
      NotYet(env, timeout, horizon, poll);
      poll := poll + 1;
    }
    assert SafeAt(env, timeout, poll);
    found := true;
  }

  lemma NotYet(env: Env, timeout: int, horizon: nat, poll: nat)
    requires env.now(0) >= 0 && Ends(env, timeout, horizon)
    requires !env.safe(poll) && env.now(poll + 1) < env.now(0) + timeout
    ensures poll != horizon
  {
  }

  /** A poll that finds the deadline passed, with no safe point before it, rules out every later one. */
  lemma NeverSafe(env: Env, timeout: int, i: nat)
    requires !env.safe(i) && env.now(i + 1) >= env.now(0) + timeout
    requires forall j | 0 <= j < i :: !env.safe(j)
    ensures !ReachesSafePoint(env, timeout)
  {
  }

  lemma MovedWhole(p: Pool, pads: seq<Bytes>, g: Graph, cycle: int)
    requires |p| == |pads| && Moved(p, pads, g, cycle).code == OK
    ensures Moved(p, pads, g, cycle).pool.Some? && Moved(p, pads, g, cycle).graph.Some?
  {
    hide SaveState, RestoreState, ReadWord32;
    SavedStateReadable(p, pads, g, cycle);
    RestoredWhole(SaveState(p, pads, g, cycle));
  }

  /** The new program resolves and every allocation of the protocol succeeds. */
  predicate Provided(env: Env) {
    env.program && env.slots >= 0 && env.allocB && env.allocPoolBuf && env.allocGraphBuf && env.allocSnap
  }

  /** The Dry Run ends without an error of any kind, errors caught by a `danger` block included. */
  predicate Clean(d: Rehearsed) {
    d.result == 0 && !d.hadError && d.errors == 0
  }

  /**
   A handover of a well-formed state of less than 4 GiB commits exactly when the
   program resolves, memory suffices, the state is within the format's limits,
   the Dry Run is clean, and A reaches a safe point in time.  A larger one
   commits at most with an empty pool, unless a single initial value is that large.
   */
  lemma CommitsIff(env: Env, p: Pool, pads: seq<Bytes>, g: Graph, cycle: int, timeout: int)
    requires Sound(p) && IntsTyped(p) && Pads(p, pads) && |g| < 0x8000_0000
    ensures SizeFits(p, pads) ==>
              (Verdict(env, p, pads, g, cycle, timeout) == OK <==>
                 && Provided(env) && Migratable(p, g)
                 && Clean(env.dryRun(CarryAll(p), g)) && ReachesSafePoint(env, timeout))
    ensures !SizeFits(p, pads) && Verdict(env, p, pads, g, cycle, timeout) == OK ==>
              || HugeTail(p)
              || (|Serialize(p, pads)| % TWO32 == 0 && Moved(p, pads, g, cycle).pool == Some([]))
  {
    hide SaveState, RestoreState, ReadWord32, Migratable, ReachesSafePoint, CarryAll, SizeFits, HugeTail;
    SavedStateReadable(p, pads, g, cycle);
    Snapshot.Migration(p, pads, g, cycle);
  }

  /** Each way to fail, and when it is taken; the first one that applies is reported. */
  lemma FailuresIff(env: Env, p: Pool, pads: seq<Bytes>, g: Graph, cycle: int, timeout: int)
    requires Sound(p) && IntsTyped(p) && Pads(p, pads) && |g| < 0x8000_0000 && SizeFits(p, pads)
    ensures var r := Verdict(env, p, pads, g, cycle, timeout);
            var standby := env.program && env.slots >= 0 && env.allocB;
            var d := env.dryRun(CarryAll(p), g);
            && (r == ErrNullProgram <==> !env.program)
            && (r == ErrResolve <==> env.program && env.slots < 0)
            && (r == ErrSerialize <==> standby && !(env.allocPoolBuf && env.allocGraphBuf))
            && (r == ErrAlloc <==> env.program && env.slots >= 0 &&
                                   (!env.allocB || (env.allocPoolBuf && env.allocGraphBuf && !env.allocSnap)))
            && (r == ErrDeserialize <==> Provided(env) && !Migratable(p, g))
            && (r == ErrDryRun <==>
                  Provided(env) && Migratable(p, g) && (d.result != 0 || d.hadError || d.errors > 0))
            && (r == ErrSafePoint <==>
                  Provided(env) && Migratable(p, g) && Clean(d) && !ReachesSafePoint(env, timeout))
  {
    hide Framed, RestoreState, ReadWord32, SmallEntry, ReachesSafePoint, CarryAll, SizeFits, Unsigned;
    SavedStateReadable(p, pads, g, cycle);
    Snapshot.Migration(p, pads, g, cycle);
    GateIsExact(Truth(p, g, cycle), p, pads, g);
  }

  /**
   After a handover that commits, the live run of the new program on the pool
   handed over ends as one run of its declarations on A's migrated pool would,
   when the Dry Run touches the pool by its declarations only.
   */
  lemma CommittedStateSurvives(
    env: Env, p: Pool, pads: seq<Bytes>, g: Graph, cycle: int, timeout: int,
    ops: FloatOps, ds: seq<Decl>, dry: seq<Option<Value>>, live: seq<Option<Value>>)
    requires Sound(p) && IntsTyped(p) && Pads(p, pads) && SizeFits(p, pads) && |g| < 0x8000_0000
    requires Verdict(env, p, pads, g, cycle, timeout) == OK && Rehearses(ops, CarryAll(p), ds, dry, live)
    requires env.dryRun(CarryAll(p), g).pool == Pass(ops, CarryAll(p), ds, dry, 0).value
    ensures var m := Moved(p, pads, g, cycle);
            && m.pool == Some(CarryAll(p)) && m.graph == Some(g)
            && var twice := Pass(ops, HeadstoneAll(env.dryRun(m.pool.value, m.graph.value).pool), ds, live, 0);
               var once := Pass(ops, CarryAll(p), ds, MergedAll(dry, live), 0);
               && twice.Some? && once.Some? && |twice.value| == |once.value|
               && forall k | 0 <= k < |once.value| :: SameState(twice.value[k], once.value[k])
  {
    hide SaveState, RestoreState, ReadWord32, Migratable, ReachesSafePoint, CarryAll, SizeFits, HugeTail;
    hide Pass, SameState, Rehearses, SettledPool;
    SavedStateReadable(p, pads, g, cycle);
    Snapshot.Migration(p, pads, g, cycle);
    CarriedIsSettled(p);
    HandoverPreserves(ops, CarryAll(p), ds, dry, live);
  }
}
