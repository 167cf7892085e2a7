/** Progress of the worker pool: every execution does a bounded amount of work besides polling, and the
  states in which nothing but polling is left are known exactly. */
module JobPoolProgress {
  import opened JobPool
  import opened JobPoolSafety

  /** One round of the polling loop of a worker that has nothing to take and was not told to stop. */
  predicate Idle(s: State, a: Action) {
    (a.Poll? || a.Check?) && a.w < |s.workers| && s.workers[a.w].flag.Going? && s.queue == []
  }

  // ---------- The measure ----------

  function Rank(w: Worker, empty: bool): nat {
    match w.phase
    case Fresh => 3
    case Checking => if w.flag.Going? && !empty then 2 else 1
    case Getting => if w.flag.Going? then 1 else 2
    case Starting(j) => 6 + 3 * |j.handlers|
    case Busy(j) => 5 + 3 * |j.handlers|
    case Finishing(j) => 4 + 3 * |j.handlers|
    case Firing(_, rest) => 3 + 3 * |rest|
    case Testing(_, rest) => 5 + 3 * |rest|
    case Setting(_, rest) => 4 + 3 * |rest|
    case Ended => 0
    case Died => 0
  }

  function Ranks(ws: seq<Worker>, empty: bool): (r: seq<nat>)
    ensures |r| == |ws| && forall i :: 0 <= i < |ws| ==> r[i] == Rank(ws[i], empty)
  {
    seq(|ws|, i requires 0 <= i < |ws| => Rank(ws[i], empty))
  }

  function Weights(q: seq<Job>): (r: seq<nat>)
    ensures |r| == |q| && forall i :: 0 <= i < |q| ==> r[i] == 6 + 3 * |q[i].handlers|
  {
    seq(|q|, i requires 0 <= i < |q| => 6 + 3 * |q[i].handlers|)
  }

  function MainRank(main: Main, n: nat): nat {
    match main
    case Waiting => 3 * n + 4
    case StoppingWorkers(k) => (if k <= n then 2 * (n - k) else 0) + n + 3
    case JoiningThreads(k) => if k <= n then n - k + 2 else 1
    case Returned => 0
    case TimedOut => 0
  }

  function Measure(s: State): nat {
    Sum(Weights(s.queue)) + Sum(Ranks(s.workers, s.queue == [])) + MainRank(s.main, |s.workers|)
  }

  /** The acting worker's rank drops (taking a job charges the job's weight). */
  lemma StepRank(c: Config, s: State, a: Action)
    requires ActsOn(s, a) && Enabled(c, s, a) && Accounted(s) && PhasesOk(c, s) && FlagsOk(s)
    ensures var before := Rank(s.workers[a.w], s.queue == []);
            var after := Rank(NextWorker(c, s, a), s.queue == []);
            if a.Take? then after < before + 6 + 3 * |s.queue[0].handlers|
            else if Idle(s, a) then after == before
            else after < before
  {
    var w := s.workers[a.w];
    assert PhaseOk(c, w.phase) && FlagOk(w, StopCalled(s, a.w));
    StepUnfinished(c, s, a);
  }

  lemma WorkerMeasure(c: Config, s: State, a: Action)
    requires ActsOn(s, a) && Enabled(c, s, a) && Accounted(s) && PhasesOk(c, s) && FlagsOk(s) && !a.Take?
    ensures var before := Sum(Ranks(s.workers, s.queue == []));
            var after := Sum(Ranks(s.workers[a.w := NextWorker(c, s, a)], s.queue == []));
            if Idle(s, a) then after == before else after < before
  {
    StepRank(c, s, a);
    RanksUpdate(s.workers, a.w, NextWorker(c, s, a), s.queue == []);
  }

  lemma RanksUpdate(ws: seq<Worker>, i: nat, w: Worker, empty: bool)
    requires i < |ws|
    ensures Sum(Ranks(ws[i := w], empty)) == Sum(Ranks(ws, empty)) - Rank(ws[i], empty) + Rank(w, empty)
  {
    SumUpdate(Ranks(ws, empty), i, Rank(w, empty));
    assert Ranks(ws[i := w], empty) == Ranks(ws, empty)[i := Rank(w, empty)];
  }

  lemma TakeMeasure(c: Config, s: State, a: Action)
    requires a.Take? && Enabled(c, s, a) && Accounted(s) && PhasesOk(c, s) && FlagsOk(s)
    ensures var ws := s.workers[a.w := NextWorker(c, s, a)];
            Sum(Weights(s.queue[1..])) + Sum(Ranks(ws, s.queue[1..] == [])) < Sum(Weights(s.queue)) + Sum(Ranks(s.workers, false))
  {
    var ws := s.workers[a.w := NextWorker(c, s, a)];
    StepRank(c, s, a);
    RanksUpdate(s.workers, a.w, NextWorker(c, s, a), false);
    SumMonotone(Ranks(ws, s.queue[1..] == []), Ranks(ws, false));
    assert Weights(s.queue)[1..] == Weights(s.queue[1..]);
  }

  lemma StopMeasure(c: Config, s: State)
    requires Inv(c, s) && s.main.StoppingWorkers? && s.main.next < |s.workers|
    ensures var p := s.workers[s.main.next].phase;
            Sum(Ranks(s.workers[s.main.next := Worker(p, Stopping, p.Fresh?)], s.queue == []))
              <= Sum(Ranks(s.workers, s.queue == [])) + 1
  {
    var i := s.main.next;
    var p := s.workers[i].phase;
    assert FlagOk(s.workers[i], StopCalled(s, i));
    ZeroMeansFinished(c, s);
    RanksUpdate(s.workers, i, Worker(p, Stopping, p.Fresh?), s.queue == []);
  }

  // Writing `Inv(c, s) == true` instead of `Inv(c, s)` makes the verifier treat the invariant as one fact and not as many.
  lemma WorkerStepMeasure(c: Config, s: State, a: Action)
    requires Inv(c, s) == true && ActsOn(s, a) && Enabled(c, s, a)
    ensures if Idle(s, a) then Measure(WorkerStep(c, s, a)) == Measure(s) else Measure(WorkerStep(c, s, a)) < Measure(s)
  {
    if a.Take? {
      TakeMeasure(c, s, a);
    } else {
      WorkerMeasure(c, s, a);
    }
  }

  lemma MainStepMeasure(c: Config, s: State, a: Action)
    requires Inv(c, s) == true && !ActsOn(s, a) && Enabled(c, s, a)
    ensures Measure(Apply(c, s, a)) < Measure(s)
  {
    if a.Stop? && s.main.next < |s.workers| {
      StopMeasure(c, s);
    }
  }

  /** Polling leaves the measure as it is; every other action lowers it. */
  lemma StepMeasure(c: Config, s: State, a: Action)
    requires Inv(c, s) && Enabled(c, s, a)
    ensures if Idle(s, a) then Measure(Apply(c, s, a)) == Measure(s) else Measure(Apply(c, s, a)) < Measure(s)
  {
    if ActsOn(s, a) {
      WorkerStepMeasure(c, s, a);
      assert Apply(c, s, a) == WorkerStep(c, s, a);
    } else {
      MainStepMeasure(c, s, a);
    }
  }

  function WorkDone(c: Config, s: State, acts: seq<Action>): nat
    decreases acts
  {
    if acts == [] || !Enabled(c, s, acts[0]) then 0
    else (if Idle(s, acts[0]) then 0 else 1) + WorkDone(c, Apply(c, s, acts[0]), acts[1..])
  }

  /** In no execution, however long, do more than `Measure(s)` actions happen besides polling. */
  lemma {:induction false} WorkIsBounded(c: Config, s: State, acts: seq<Action>, t: State)
    requires WellFormed(c) && Inv(c, s) && Run(c, s, acts, t)
    ensures WorkDone(c, s, acts) + Measure(t) <= Measure(s)
    decreases acts
  {
    if acts != [] {
      StepInv(c, s, acts[0]);
      StepMeasure(c, s, acts[0]);
      WorkIsBounded(c, Apply(c, s, acts[0]), acts[1..], t);
    }
  }

  // ---------- Where work ends ----------

  ghost predicate Stuck(c: Config, s: State) {
    forall a :: Enabled(c, s, a) ==> Idle(s, a)
  }

  ghost predicate Quiet(s: State, w: Worker) {
    Over(w.phase) || ((w.phase.Checking? || w.phase.Getting?) && w.flag.Going? && s.queue == [])
  }

  /** A thread that is not over always has an action of its own. */
  ghost function NextAction(s: State, i: nat): (a: Action)
    requires i < |s.workers| && !Over(s.workers[i].phase)
    ensures a.JoinQueue? == a.GiveUp? == a.Stop? == a.JoinThread? == false && a.w == i
  {
    match s.workers[i].phase
    case Fresh => Begin(i)
    case Checking => Check(i)
    case Getting => if s.queue == [] then Poll(i) else Take(i)
    case Starting(_) => Enter(i)
    case Busy(_) => Leave(i)
    case Finishing(_) => Mark(i)
    case Firing(_, rest) => if rest == {} then Done(i) else (var h :| h in rest; Fire(i, h))
    case Testing(_, _) => Test(i)
    case Setting(_, _) => SetAllDone(i)
  }

  lemma StuckMeansQuiet(c: Config, s: State)
    requires Inv(c, s) && Stuck(c, s)
    ensures forall i :: 0 <= i < |s.workers| ==> Quiet(s, s.workers[i])
    ensures Owing(s.workers) == 0
  {
    forall i | 0 <= i < |s.workers| ensures Quiet(s, s.workers[i]) {
      if !Over(s.workers[i].phase) {
        assert Enabled(c, s, NextAction(s, i));
      }
    }
    SumZero(Debts(s.workers));
  }

  /** The states with nothing left to do but polling, exactly.  Either `join` is over; or it waits on the
      queue because entries were lost or because every thread died with entries still queued; or it
      waits for a thread whose stop request came before the thread had begun. */
  lemma StuckExactly(c: Config, s: State)
    requires Inv(c, s)
    ensures Stuck(c, s) <==>
      (forall i :: 0 <= i < |s.workers| ==> Quiet(s, s.workers[i])) &&
      match s.main
      case Waiting => !c.timed && (s.lost > 0 || (s.queue != [] && forall i :: 0 <= i < |s.workers| ==> s.workers[i].phase.Died?))
      case StoppingWorkers(_) => false
      case JoiningThreads(n) => n < |s.workers| && s.workers[n].early && !s.workers[n].phase.Died?
      case Returned => true
      case TimedOut => true
  {
    if Stuck(c, s) {
      StuckMeansQuiet(c, s);
      StuckMain(c, s);
    }
    if forall i :: 0 <= i < |s.workers| ==> Quiet(s, s.workers[i]) {
      SumZero(Debts(s.workers));
      forall a | Enabled(c, s, a) && ActsOn(s, a) ensures Idle(s, a) {
        assert Quiet(s, s.workers[a.w]);
      }
    }
  }

  lemma StopCanMove(c: Config, s: State)
    requires s.main.StoppingWorkers?
    ensures Enabled(c, s, Stop) && !Idle(s, Stop)
  {
  }

  lemma StuckMain(c: Config, s: State)
    requires Inv(c, s) && Stuck(c, s) && Owing(s.workers) == 0
    requires forall i :: 0 <= i < |s.workers| ==> Quiet(s, s.workers[i])
    ensures !s.main.StoppingWorkers?
    ensures s.main.Waiting? ==> !c.timed && (s.lost > 0 || s.queue != [])
    ensures s.main.Waiting? && s.lost == 0 ==> forall i :: 0 <= i < |s.workers| ==> s.workers[i].phase.Died?
    ensures s.main.JoiningThreads? ==>
      s.main.next < |s.workers| && s.workers[s.main.next].early && !s.workers[s.main.next].phase.Died?
  {
    match s.main
    case StoppingWorkers(_) =>
      StopCanMove(c, s);
    case JoiningThreads(n) =>
      assert !Enabled(c, s, JoinThread);
      assert Quiet(s, s.workers[n]) && FlagOk(s.workers[n], StopCalled(s, n));
    case Waiting =>
      assert !Enabled(c, s, JoinQueue) && !Enabled(c, s, GiveUp);
      forall i | 0 <= i < |s.workers| && s.lost == 0 ensures s.workers[i].phase.Died? {
        assert Quiet(s, s.workers[i]) && FlagOk(s.workers[i], StopCalled(s, i));
      }
    case _ =>
  }

  // ---------- Well-behaved jobs ----------

  /** What a caller can check before `start`: every job carries the pool's handler, no handler of
      `running_event` or `finished_event` raises, and no target ends its thread. */
  ghost predicate Healthy(c: Config) {
    forall j :: j in c.added ==>
      !Mute(j) && !j.outcome.Exits? && forall id :: User(id, true) !in j.handlers
  }

  ghost predicate Sound(s: State) {
    s.lost == 0 && forall i :: 0 <= i < |s.workers| ==> !s.workers[i].phase.Died?
  }

  lemma StepSound(c: Config, s: State, a: Action)
    requires Healthy(c) && Enabled(c, s, a) && Accounted(s) && PhasesOk(c, s) && Sound(s)
    ensures Sound(Apply(c, s, a))
  {
    if ActsOn(s, a) {
      var p := s.workers[a.w].phase;
      assert PhaseOk(c, p);
      StepUnfinished(c, s, a);
      if a.Fire? && a.h.User? {
        assert a.h == User(a.h.id, a.h.raises) && a.h in p.job.handlers;
      }
      assert !(LeavesJob(s, a) && Owes(p));
    }
  }

  lemma {:induction false} RunSound(c: Config, s: State, acts: seq<Action>, t: State)
    requires WellFormed(c) && Healthy(c) && Inv(c, s) && Sound(s) && Run(c, s, acts, t)
    ensures Sound(t)
    decreases acts
  {
    if acts != [] {
      StepInv(c, s, acts[0]);
      StepSound(c, s, acts[0]);
      RunSound(c, Apply(c, s, acts[0]), acts[1..], t);
    }
  }

  /** With well-behaved jobs, where nothing but polling is left, everything has been done, and `join` (without a timeout) has
    returned unless a stop request came before its thread had begun.  JobPoolRuns says that every run can be brought to such a
    state, JobPoolHangs for which configurations `join` returns in every run. */
  lemma HealthyPoolCompletes(c: Config, acts: seq<Action>, s: State)
    requires WellFormed(c) && Healthy(c) && !c.timed && Run(c, Init(c), acts, s) && Stuck(c, s)
    ensures s.unfinished == 0 && s.taken == c.added
    ensures s.main.Returned? <==> forall i :: 0 <= i < |s.workers| ==> !s.workers[i].early
  {
    InitInv(c);
    RunInv(c, Init(c), acts, s);
    RunSound(c, Init(c), acts, s);
    StuckMeansQuiet(c, s);
    StuckMain(c, s);
    NeverTimedOut(c, Init(c), acts, s);
    if s.main.Waiting? {
      assert false;
    }
    ZeroMeansFinished(c, s);
    if s.main.Returned? {
      forall i | 0 <= i < |s.workers| ensures !s.workers[i].early {
        assert FlagOk(s.workers[i], StopCalled(s, i));
      }
    }
  }

  lemma {:induction false} NeverTimedOut(c: Config, s: State, acts: seq<Action>, t: State)
    requires !c.timed && !s.main.TimedOut? && Run(c, s, acts, t)
    ensures !t.main.TimedOut?
    decreases acts
  {
    if acts != [] {
      NeverTimedOut(c, Apply(c, s, acts[0]), acts[1..], t);
    }
  }

  // ---------- Both exceptions happen ----------

  lemma {:induction false} RunOn(c: Config, s: State, acts: seq<Action>, t: State, a: Action)
    requires Run(c, s, acts, t) && Enabled(c, t, a)
    ensures Run(c, s, acts + [a], Apply(c, t, a))
    decreases acts
  {
    if acts == [] {
      assert [a][1..] == [];
    } else {
      RunOn(c, Apply(c, s, acts[0]), acts[1..], t, a);
      assert (acts + [a])[1..] == acts[1..] + [a];
    }
  }

  ghost predicate Reachable(c: Config, s: State) {
    exists acts :: Run(c, Init(c), acts, s)
  }

  lemma Start(c: Config, s: State)
    requires s == Init(c)
    ensures Reachable(c, s)
  {
    assert Run(c, Init(c), [], s);
  }

  lemma Extend(c: Config, s: State, a: Action, t: State)
    requires Reachable(c, s) && Enabled(c, s, a) && t == Apply(c, s, a)
    ensures Reachable(c, t)
  {
    var acts :| Run(c, Init(c), acts, s);
    RunOn(c, Init(c), acts, s, a);
  }

  function Solo(p: Phase, flag: Flag, early: bool, main: Main): State {
    State([], 0, map[], false, false, [Worker(p, flag, early)], main, [], 0)
  }

  lemma EarlyStop(c: Config)
    requires c == Config([], 1, false)
    ensures Reachable(c, Solo(Fresh, Stopping, true, StoppingWorkers(1)))
  {
    assert Init(c) == Solo(Fresh, Unset, false, Waiting);
    Start(c, Solo(Fresh, Unset, false, Waiting));
    Extend(c, Solo(Fresh, Unset, false, Waiting), JoinQueue, Solo(Fresh, Unset, false, StoppingWorkers(0)));
    Extend(c, Solo(Fresh, Unset, false, StoppingWorkers(0)), Stop, Solo(Fresh, Stopping, true, StoppingWorkers(1)));
  }

  lemma LateBegin(c: Config)
    requires c == Config([], 1, false)
    ensures Reachable(c, Solo(Checking, Going, true, JoiningThreads(0)))
  {
    EarlyStop(c);
    Extend(c, Solo(Fresh, Stopping, true, StoppingWorkers(1)), Begin(0), Solo(Checking, Going, true, StoppingWorkers(1)));
    Extend(c, Solo(Checking, Going, true, StoppingWorkers(1)), Stop, Solo(Checking, Going, true, JoiningThreads(0)));
  }

  lemma LateBeginIsStuck(c: Config, s: State)
    requires !c.timed && s == Solo(Checking, Going, true, JoiningThreads(0))
    ensures Stuck(c, s)
  {
  }

  /** `stop` on a thread that has not begun is overwritten: the pool is stuck in `t.join()`. */
  lemma StopBeforeBeginHangs(c: Config) returns (s: State)
    requires c == Config([], 1, false)
    ensures Reachable(c, s) && Stuck(c, s) && s.main == JoiningThreads(0) && |s.workers| == 1 && s.workers[0].early
  {
    s := Solo(Checking, Going, true, JoiningThreads(0));
    LateBegin(c);
    LateBeginIsStuck(c, s);
  }

  lemma ReachableInv(c: Config, s: State)
    requires WellFormed(c) && Reachable(c, s)
    ensures Inv(c, s)
  {
    var acts :| Run(c, Init(c), acts, s);
    InitInv(c);
    RunInv(c, Init(c), acts, s);
  }

  function Duo(queue: seq<Job>, unfinished: int, first: JobState, p: Phase, taken: seq<Job>): State {
    State(queue, unfinished, map[0 := first, 1 := Inited], false, false, [Worker(p, if p.Fresh? then Unset else Going, false)],
          Waiting, taken, 0)
  }

  const EXITING := Job(0, {TaskDone}, Exits, false)
  const ORDINARY := Job(1, {TaskDone}, Returns, false)
  const ONE_THREAD := Config([EXITING, ORDINARY], 1, false)

  lemma ExitingBegun()
    ensures Reachable(ONE_THREAD, Duo([EXITING, ORDINARY], 2, Inited, Checking, []))
  {
    var q := [EXITING, ORDINARY];
    assert Init(ONE_THREAD) == Duo(q, 2, Inited, Fresh, []);
    Start(ONE_THREAD, Duo(q, 2, Inited, Fresh, []));
    Extend(ONE_THREAD, Duo(q, 2, Inited, Fresh, []), Begin(0), Duo(q, 2, Inited, Checking, []));
  }

  lemma ExitingChecked()
    ensures Reachable(ONE_THREAD, Duo([EXITING, ORDINARY], 2, Inited, Getting, []))
  {
    ExitingBegun();
    Extend(ONE_THREAD, Duo([EXITING, ORDINARY], 2, Inited, Checking, []), Check(0), Duo([EXITING, ORDINARY], 2, Inited, Getting, []));
  }

  lemma ExitingTaken()
    ensures Reachable(ONE_THREAD, Duo([ORDINARY], 2, Inited, Starting(EXITING), [EXITING]))
  {
    var q := [EXITING, ORDINARY];
    ExitingChecked();
    Extend(ONE_THREAD, Duo(q, 2, Inited, Getting, []), Take(0), Duo([ORDINARY], 2, Inited, Starting(EXITING), [EXITING]));
  }

  lemma ExitingEntered()
    ensures Reachable(ONE_THREAD, Duo([ORDINARY], 2, Running, Busy(EXITING), [EXITING]))
  {
    ExitingTaken();
    var q := [ORDINARY];
    Extend(ONE_THREAD, Duo(q, 2, Inited, Starting(EXITING), [EXITING]), Enter(0), Duo(q, 2, Running, Busy(EXITING), [EXITING]));
  }

  lemma ExitingLeft()
    ensures Reachable(ONE_THREAD, Duo([ORDINARY], 2, Running, Finishing(EXITING), [EXITING]))
  {
    ExitingEntered();
    var q := [ORDINARY];
    Extend(ONE_THREAD, Duo(q, 2, Running, Busy(EXITING), [EXITING]), Leave(0), Duo(q, 2, Running, Finishing(EXITING), [EXITING]));
  }

  lemma ExitingMarked()
    ensures Reachable(ONE_THREAD, Duo([ORDINARY], 2, Finished, Firing(EXITING, {TaskDone}), [EXITING]))
  {
    ExitingLeft();
    var q := [ORDINARY];
    Extend(ONE_THREAD, Duo(q, 2, Running, Finishing(EXITING), [EXITING]), Mark(0),
           Duo(q, 2, Finished, Firing(EXITING, {TaskDone}), [EXITING]));
  }

  lemma ExitingCounted()
    ensures Reachable(ONE_THREAD, Duo([ORDINARY], 1, Finished, Testing(EXITING, {}), [EXITING]))
  {
    ExitingMarked();
    assert {TaskDone} - {TaskDone} == {};
    Extend(ONE_THREAD, Duo([ORDINARY], 2, Finished, Firing(EXITING, {TaskDone}), [EXITING]), Fire(0, TaskDone),
           Duo([ORDINARY], 1, Finished, Testing(EXITING, {}), [EXITING]));
  }

  lemma ExitingFired()
    ensures Reachable(ONE_THREAD, Duo([ORDINARY], 1, Finished, Firing(EXITING, {}), [EXITING]))
  {
    ExitingCounted();
    var q := [ORDINARY];
    Extend(ONE_THREAD, Duo(q, 1, Finished, Testing(EXITING, {}), [EXITING]), Test(0), Duo(q, 1, Finished, Firing(EXITING, {}), [EXITING]));
  }

  /** A target that exits takes the only thread with it: nothing is lost, yet the second entry stays on
      the queue and `join` waits for ever. */
  lemma ExitStrandsTheQueue() returns (s: State)
    ensures Reachable(ONE_THREAD, s) && Stuck(ONE_THREAD, s)
    ensures s.main.Waiting? && s.lost == 0 && s.unfinished == 1 && s.queue == [ORDINARY]
  {
    ExitingFired();
    s := Duo([ORDINARY], 1, Finished, Died, [EXITING]);
    Extend(ONE_THREAD, Duo([ORDINARY], 1, Finished, Firing(EXITING, {}), [EXITING]), Done(0), s);
    ReachableInv(ONE_THREAD, s);
    StuckExactly(ONE_THREAD, s);
  }
}
