/**
 The development mode's two threads: a watcher that requests, cancels and waits,
 and one worker that runs.  A section under the mutex is one step; waits may end
 without a signal, and the cancel flag is read and written without the mutex.
 */
module DevWorker {

  datatype Worker = Idle | Waiting | Running(n: nat) | Finished(n: nat) | Exited

  datatype Watcher =
    | Requesting
    | Watching(seen: bool)
    | Cancelling(stop: bool)
    | Checking(stop: bool)
    | Blocked(stop: bool)
    | Deciding(stop: bool)
    | Stopping
    | Joining
    | Gone

  /** What an observer of the worker sees. */
  datatype Event = Began(n: nat) | Ended(n: nat, cancelled: bool)

  /**
   `wakeWorker` and `wakeWatcher` are signals on their way to a waiting thread.
   `requested` counts requests, `aim` is the run the last cancel was meant for and
   `aimed` are all runs that were ever cancelled.
   */
  datatype State = State(
    pending: bool, done: bool, cancel: bool, shutting: bool,
    worker: Worker, watcher: Watcher, wakeWorker: bool, wakeWatcher: bool,
    requested: nat, aim: nat, aimed: set<nat>, log: seq<Event>)

  datatype Action =
    | WorkerLooks
    | WorkerWakes
    | WorkerEnds
    | WorkerReports
    | Request
    | Poll
    | LeaveWatch(stop: bool)
    | Cancel
    | CheckDone
    | WatcherWakes
    | Decide
    | Shutdown
    | Join

  function Initial(): State {
    State(false, false, false, false, Idle, Requesting, false, false, 0, 0, {}, [])
  }

  function SignalWorker(s: State): State {
    if s.worker.Waiting? then s.(wakeWorker := true) else s
  }

  function SignalWatcher(s: State): State {
    if s.watcher.Blocked? then s.(wakeWatcher := true) else s
  }

  predicate Enabled(s: State, a: Action) {
    match a
    case WorkerLooks => s.worker.Idle?
    case WorkerWakes => s.worker.Waiting?
    case WorkerEnds => s.worker.Running?
    case WorkerReports => s.worker.Finished?
    case Request => s.watcher.Requesting?
    case Poll => s.watcher.Watching?
    case LeaveWatch(_) => s.watcher.Watching?
    case Cancel => s.watcher.Cancelling?
    case CheckDone => s.watcher.Checking?
    case WatcherWakes => s.watcher.Blocked?
    case Decide => s.watcher.Deciding?
    case Shutdown => s.watcher.Stopping?
    case Join => s.watcher.Joining? && s.worker.Exited?
  }

  function Step(s: State, a: Action): State {
    if !Enabled(s, a) then s else
    match a
    // worker: the guarded wait, taking a request, or leaving for good
    case WorkerLooks =>
      if s.shutting then s.(worker := Exited)
      else if s.pending then
        s.(pending := false, worker := Running(s.requested), log := s.log + [Began(s.requested)])
      else s.(worker := Waiting, wakeWorker := false)
    case WorkerWakes => s.(worker := Idle, wakeWorker := false)
    case WorkerEnds =>
      s.(worker := Finished(s.worker.n), log := s.log + [Ended(s.worker.n, s.cancel)])
    case WorkerReports => SignalWatcher(s.(done := true, worker := Idle))
    // watcher
    case Request =>
      SignalWorker(s.(done := false, cancel := false, pending := true,
                      requested := s.requested + 1, watcher := Watching(false)))
    case Poll => s.(watcher := Watching(s.watcher.seen || s.done))
    case LeaveWatch(stop) => s.(watcher := if s.watcher.seen then Deciding(stop) else Cancelling(stop))
    case Cancel =>
      s.(cancel := true, aim := s.requested, aimed := s.aimed + {s.requested}, watcher := Checking(s.watcher.stop))
    case CheckDone =>
      if s.done then s.(watcher := Deciding(s.watcher.stop))
      else s.(watcher := Blocked(s.watcher.stop), wakeWatcher := false)
    case WatcherWakes => s.(watcher := Checking(s.watcher.stop), wakeWatcher := false)
    case Decide => s.(watcher := if s.watcher.stop then Stopping else Requesting)
    case Shutdown => SignalWorker(s.(shutting := true, watcher := Joining))
    case Join => s.(watcher := Gone)
  }

  function Run(actions: seq<Action>): State {
    if actions == [] then Initial() else Step(Run(actions[..|actions| - 1]), actions[|actions| - 1])
  }

  // ----- the invariant -----

  /** The run the worker is busy with. */
  predicate Busy(s: State) {
    s.worker.Running? || s.worker.Finished?
  }

  /** Runs 1 to k, each begun and then ended. */
  ghost predicate CompleteRuns(log: seq<Event>, k: nat) {
    && |log| == 2 * k
    && forall i | 0 <= i < k :: log[2 * i] == Began(i + 1) && log[2 * i + 1].Ended? && log[2 * i + 1].n == i + 1
  }

  /** All runs but the last requested one are complete; the last is as far as worker and flags say. */
  ghost predicate LogOk(s: State) {
    if s.requested == 0 then s.log == []
    else if s.pending then CompleteRuns(s.log, s.requested - 1)
    else if s.worker.Running? then
      s.log != [] && CompleteRuns(s.log[..|s.log| - 1], s.requested - 1) && s.log[|s.log| - 1] == Began(s.requested)
    else CompleteRuns(s.log, s.requested)
  }

  /** The watcher knows that the last run is over. */
  predicate KnowsDone(w: Watcher) {
    w.Requesting? || w.Deciding? || w.Stopping? || w.Joining? || w.Gone? || (w.Watching? && w.seen)
  }

  /** A run that ended cancelled is one that was aimed at. */
  ghost predicate CancelsWereAimed(s: State) {
    forall i | 0 <= i < |s.log| && s.log[i].Ended? && s.log[i].cancelled :: s.log[i].n in s.aimed
  }

  ghost predicate Inv(s: State) {
    && LogOk(s) && CancelsWereAimed(s) && (s.cancel ==> s.requested in s.aimed)
    && (forall n | n in s.aimed :: 1 <= n <= s.requested)
    && (Busy(s) ==> s.worker.n == s.requested && !s.pending && !s.done)
    && (s.pending ==> !s.done && s.requested > 0)
    && (s.requested > 0 && !s.done ==> s.pending || Busy(s))
    && (s.requested == 0 ==> s.watcher.Requesting? && !s.done && !s.pending && !Busy(s) && !s.cancel)
    && (KnowsDone(s.watcher) && s.requested > 0 ==> s.done)
    && (s.cancel ==> s.aim == s.requested)
    && (s.worker.Waiting? && (s.pending || s.shutting) ==> s.wakeWorker)
    && (s.watcher.Blocked? && s.done ==> s.wakeWatcher)
    && (s.shutting <==> s.watcher.Joining? || s.watcher.Gone?)
    && (s.worker.Exited? ==> s.shutting)
    && (s.shutting ==> s.requested > 0)
  }

  /** The run that ends completes the log. */
  lemma RunEnds(log: seq<Event>, k: nat, cancelled: bool)
    requires k > 0 && log != [] && CompleteRuns(log[..|log| - 1], k - 1) && log[|log| - 1] == Began(k)
    ensures CompleteRuns(log + [Ended(k, cancelled)], k)
  {
    var before, after := log[..|log| - 1], log + [Ended(k, cancelled)];
    forall i | 0 <= i < k
      ensures after[2 * i] == Began(i + 1) && after[2 * i + 1].Ended? && after[2 * i + 1].n == i + 1
    {
      if i < k - 1 {
        assert before[2 * i] == Began(i + 1) && before[2 * i + 1].Ended? && before[2 * i + 1].n == i + 1;
      }
    }
  }

  lemma NoRuns()
    ensures CompleteRuns([], 0)
  {
  }

  lemma LogKept(s: State, a: Action)
    requires Inv(s)
    ensures LogOk(Step(s, a))
  {
    hide CompleteRuns;
    NoRuns();
    if a.WorkerLooks? && Enabled(s, a) && !s.shutting && s.pending {
      var s' := Step(s, a);
      assert s'.log[..|s'.log| - 1] == s.log;
    } else if a.WorkerEnds? && Enabled(s, a) {
      RunEnds(s.log, s.requested, s.cancel);
    }
  }

  lemma StepKeeps(s: State, a: Action)
    requires Inv(s)
    ensures Inv(Step(s, a))
  {
    hide CompleteRuns;
    LogKept(s, a);
  }

  lemma {:induction false} RunKeeps(actions: seq<Action>)
    ensures Inv(Run(actions))
    decreases |actions|
  {
    if actions == [] {
      assert Run(actions).log == [];
    } else {
      RunKeeps(actions[..|actions| - 1]);
      StepKeeps(Run(actions[..|actions| - 1]), actions[|actions| - 1]);
    }
  }

  // ----- what it means, in every interleaving -----

  /** At most one run is pending or executing, and it is the last one requested. */
  lemma OneAtATime(actions: seq<Action>)
    ensures var s := Run(actions); !(s.pending && Busy(s)) && (Busy(s) ==> s.worker.n == s.requested)
  {
    RunKeeps(actions);
  }

  /** No request is lost or run twice: once the watcher moves on, runs 1 to `requested` are in the log, in order. */
  lemma EveryRequestRunsOnce(actions: seq<Action>)
    requires KnowsDone(Run(actions).watcher)
    ensures CompleteRuns(Run(actions).log, Run(actions).requested)
  {
    RunKeeps(actions);
    var s := Run(actions);
    if s.requested == 0 {
      assert s.log == [];
    }
  }

  /** `dev_wait_done` returns only after the requested run has ended. */
  lemma WaitMeansEnded(actions: seq<Action>)
    requires Run(actions).watcher.Checking? && Step(Run(actions), CheckDone).watcher.Deciding?
    ensures CompleteRuns(Run(actions).log, Run(actions).requested)
  {
    RunKeeps(actions);
    var s := Run(actions);
    assert actions + [CheckDone] != [] && (actions + [CheckDone])[..|actions|] == actions;
    EveryRequestRunsOnce(actions + [CheckDone]);
  }

  /** A run that ends because of a cancel is the run that cancel was aimed at. */
  lemma CancelHitsItsTarget(actions: seq<Action>)
    requires Run(actions).worker.Running? && Run(actions).cancel
    ensures Run(actions).worker.n == Run(actions).aim
  {
    RunKeeps(actions);
  }

  /** In every interleaving, a run that ended cancelled was itself the target of a cancel, after it was requested. */
  lemma OnlyTargetsAreCancelled(actions: seq<Action>, n: nat)
    requires Ended(n, true) in Run(actions).log
    ensures n in Run(actions).aimed && 1 <= n <= Run(actions).requested
  {
    hide LogOk;
    RunKeeps(actions);
  }

  /** A run that was never aimed at ends on its own. */
  lemma UntargetedRunsComplete(actions: seq<Action>, k: nat)
    requires KnowsDone(Run(actions).watcher) && 1 <= k <= Run(actions).requested && k !in Run(actions).aimed
    ensures Ended(k, false) in Run(actions).log && Ended(k, true) !in Run(actions).log
  {
    hide CompleteRuns, Run, KnowsDone;
    EveryRequestRunsOnce(actions);
    RunLogged(Run(actions).log, Run(actions).requested, k);
    if Ended(k, true) in Run(actions).log {
      OnlyTargetsAreCancelled(actions, k);
    }
  }

  lemma RunLogged(log: seq<Event>, n: nat, k: nat)
    requires CompleteRuns(log, n) && 1 <= k <= n
    ensures Ended(k, true) in log || Ended(k, false) in log
  {
    var i := k - 1;
    assert log[2 * i] == Began(i + 1) && log[2 * i + 1].Ended? && log[2 * i + 1].n == i + 1;
    assert log[2 * i + 1] == Ended(k, true) || log[2 * i + 1] == Ended(k, false);
  }

  /** A run begins with the flag lowered, unless the watcher has already raised it for this very run. */
  lemma NoStaleCancel(actions: seq<Action>)
    requires var s := Run(actions); Enabled(s, WorkerLooks) && Step(s, WorkerLooks).worker.Running? && s.cancel
    ensures Run(actions).aim == Run(actions).requested
  {
    RunKeeps(actions);
  }

  /** A waiting watcher implies a pending or executing run, or a wake-up on its way. */
  lemma WaitingIsJustified(actions: seq<Action>)
    requires Run(actions).watcher.Blocked?
    ensures var s := Run(actions); s.pending || Busy(s) || s.wakeWatcher
  {
    RunKeeps(actions);
  }

  /** A step that is due: something can happen without waiting for a wake-up that nobody sent. */
  predicate Due(s: State, a: Action) {
    Enabled(s, a) && (a.WorkerWakes? ==> s.wakeWorker) && (a.WatcherWakes? ==> s.wakeWatcher)
  }

  /** No deadlock: until the watcher is gone, some thread can move, even if no wait ever ends by itself. */
  lemma NeverStuck(actions: seq<Action>) returns (a: Action)
    requires !Run(actions).watcher.Gone?
    ensures Due(Run(actions), a)
  {
    hide CompleteRuns;
    RunKeeps(actions);
    var s := Run(actions);
    match s.watcher
    case Requesting => a := Request;
    case Watching(_) => a := Poll;
    case Cancelling(_) => a := Cancel;
    case Checking(_) => a := CheckDone;
    case Deciding(_) => a := Decide;
    case Stopping => a := Shutdown;
    case Blocked(_) => a := if s.wakeWatcher then WatcherWakes else WorkerMove(s);
    case Joining => a := if s.worker.Exited? then Join else WorkerMove(s);
  }

  function WorkerMove(s: State): Action {
    match s.worker
    case Idle => WorkerLooks
    case Waiting => WorkerWakes
    case Running(_) => WorkerEnds
    case Finished(_) => WorkerReports
    case Exited => WorkerLooks
  }
}
