/** How a running chunk responds to the cancel flag, whenever the flag is raised. */
module Cancellation {
  import opened Bytecode
  import opened Callbacks
  import opened Vm
  import opened ChunkSafety

  /** A run in which dispatch `j` reads `flags[j]`. */
  function RunFlags(k: Chunk, w: World, s: State, flags: seq<bool>): State
    decreases |flags|
  {
    if flags == [] then s else RunFlags(k, w, Step(k, w, flags[0], s), flags[1..])
  }

  /** A closed chunk never runs off its end, and only an uncancelled `Jump` can move back. */
  lemma StepMovesForward(k: Chunk, w: World, cancel: bool, s: State)
    requires Closed(k) && s.status.Running? && s.ip < |k.code|
    ensures var s' := Step(k, w, cancel, s);
            s'.status.Running? ==>
              s'.ip < |k.code| && (s.ip < s'.ip || (k.code[s.ip].op == Jump && !cancel))
  {
    var i := k.code[s.ip];
    assert s.ip < |k.code| - 1 ==> InstrOk(i, s.ip, |k.code| - 1, |k.consts|, Limit(k));
  }

  lemma {:induction false} StaysInside(k: Chunk, w: World, s: State, flags: seq<bool>)
    requires Closed(k) && s.ip < |k.code|
    ensures RunFlags(k, w, s, flags).status.Running? ==> RunFlags(k, w, s, flags).ip < |k.code|
    decreases |flags|
  {
    if flags != [] {
      var s' := Step(k, w, flags[0], s);
      if s.status.Running? {
        StepMovesForward(k, w, flags[0], s);
      }
      if s'.status.Running? {
        StaysInside(k, w, s', flags[1..]);
      } else {
        StoppedStays(k, w, s', flags[1..]);
      }
    }
  }

  lemma {:induction false} StoppedStays(k: Chunk, w: World, s: State, flags: seq<bool>)
    requires !s.status.Running?
    ensures RunFlags(k, w, s, flags) == s
    decreases |flags|
  {
    if flags != [] {
      StoppedStays(k, w, s, flags[1..]);
    }
  }

  /** With the flag up, at most `count - ip` more instructions execute. */
  lemma {:induction false} CancelBound(k: Chunk, w: World, s: State, flags: seq<bool>)
    requires Closed(k) && s.status.Running? && s.ip < |k.code|
    requires |flags| >= |k.code| - s.ip && forall j | 0 <= j < |flags| :: flags[j]
    ensures !RunFlags(k, w, s, flags).status.Running?
    decreases |flags|
  {
    var s' := Step(k, w, flags[0], s);
    StepMovesForward(k, w, flags[0], s);
    if s'.status.Running? {
      CancelBound(k, w, s', flags[1..]);
    } else {
      StoppedStays(k, w, s', flags[1..]);
    }
  }

  lemma {:induction false} RunFlagsCompose(k: Chunk, w: World, s: State, f1: seq<bool>, f2: seq<bool>)
    ensures RunFlags(k, w, s, f1 + f2) == RunFlags(k, w, RunFlags(k, w, s, f1), f2)
    decreases |f1|
  {
    if f1 == [] {
      assert f1 + f2 == f2;
    } else {
      assert (f1 + f2)[1..] == f1[1..] + f2;
      RunFlagsCompose(k, w, Step(k, w, f1[0], s), f1[1..], f2);
    }
  }

  /** Whatever the run did before, raising the flag ends it within one pass over the code. */
  lemma CancelStopsAnyRun(k: Chunk, w: World, s: State, before: seq<bool>, after: seq<bool>)
    requires Closed(k) && s.ip < |k.code| && forall j | 0 <= j < |after| :: after[j]
    requires var m := RunFlags(k, w, s, before); m.status.Running? ==> |after| >= |k.code| - m.ip
    ensures !RunFlags(k, w, s, before + after).status.Running?
  {
    RunFlagsCompose(k, w, s, before, after);
    StaysInside(k, w, s, before);
    var m := RunFlags(k, w, s, before);
    if m.status.Running? {
      CancelBound(k, w, m, after);
    } else {
      StoppedStays(k, w, m, after);
    }
  }
}
