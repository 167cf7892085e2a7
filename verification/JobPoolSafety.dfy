/** What every reachable state of the worker pool satisfies, for any number of workers, any jobs, any
  handlers and any schedule. */
module JobPoolSafety {
  import opened JobPool

  // ---------- The invariant ----------

  ghost predicate HasJob(p: Phase) {
    !p.Fresh? && !p.Checking? && !p.Getting? && !Over(p)
  }

  /** The job was taken by this worker and its state is not FINISHED yet on this worker's account. */
  ghost predicate Unmarked(p: Phase, j: Job) {
    (p.Starting? || p.Busy? || p.Finishing?) && p.job == j
  }

  ghost predicate Announcing(p: Phase) { p.Testing? || p.Setting? }

  /** `task_done` accounting. */
  ghost predicate Accounted(s: State) {
    s.unfinished == |s.queue| + Owing(s.workers) + s.lost
  }

  ghost predicate PhaseOk(c: Config, p: Phase) {
    && (HasJob(p) ==> p.job in c.added)
    && (p.Firing? ==> p.rest <= p.job.handlers)
    && (Announcing(p) ==> p.rest <= p.job.handlers && TaskDone in p.job.handlers && TaskDone !in p.rest)
  }

  ghost predicate PhasesOk(c: Config, s: State) {
    forall i :: 0 <= i < |s.workers| ==> PhaseOk(c, s.workers[i].phase)
  }

  /** A job that has been taken is FINISHED or some worker is still on its way to marking it so. */
  ghost predicate Settled(s: State, j: Job) {
    j.id in s.states &&
    (s.states[j.id] == Finished || exists i :: 0 <= i < |s.workers| && Unmarked(s.workers[i].phase, j))
  }

  ghost predicate StatesOk(c: Config, s: State) {
    && (forall j :: j in c.added ==> j.id in s.states)
    && (s.lost == 0 ==> forall j :: j in s.taken ==> Settled(s, j))
  }

  ghost predicate AllDoneOk(c: Config, s: State) {
    && (s.allDone ==> s.unfinished == 0)
    && (forall i :: 0 <= i < |s.workers| && s.workers[i].phase.Setting? ==> s.unfinished == 0)
    && (s.unfinished == 0 && c.added != [] ==>
          s.allDone || exists i :: 0 <= i < |s.workers| && Announcing(s.workers[i].phase))
  }

  /** `stop` has been called on worker `i`. */
  ghost predicate StopCalled(s: State, i: nat) {
    match s.main
    case StoppingWorkers(n) => i < n
    case JoiningThreads(_) => true
    case Returned => true
    case _ => false
  }

  /** `run` overwrites the stop request of a worker that had not begun, and only that one. */
  ghost predicate FlagOk(w: Worker, stopCalled: bool) {
    && (!stopCalled ==> !w.early && !w.phase.Ended? && w.flag == if w.phase.Fresh? then Unset else Going)
    && (stopCalled && w.early ==> !w.phase.Ended? && w.flag == if w.phase.Fresh? then Stopping else Going)
    && (stopCalled && !w.early ==> !w.phase.Fresh? && (w.phase.Ended? || w.flag == Stopping))
  }

  ghost predicate FlagsOk(s: State) {
    forall i :: 0 <= i < |s.workers| ==> FlagOk(s.workers[i], StopCalled(s, i))
  }

  ghost predicate MainOk(s: State) {
    && (!s.main.Waiting? && !s.main.TimedOut? ==> s.unfinished == 0)
    && (s.main.StoppingWorkers? ==> s.main.next <= |s.workers|)
    && (s.main.JoiningThreads? ==> s.main.next <= |s.workers|)
    && (s.main.JoiningThreads? ==> forall i :: 0 <= i < s.main.next && i < |s.workers| ==> Over(s.workers[i].phase))
    && (s.main.Returned? ==> forall i :: 0 <= i < |s.workers| ==> Over(s.workers[i].phase))
  }

  ghost predicate Inv(c: Config, s: State) {
    && |s.workers| == NumWorkers(c)
    && s.taken + s.queue == c.added
    && Accounted(s) && PhasesOk(c, s) && StatesOk(c, s) && AllDoneOk(c, s) && FlagsOk(s) && MainOk(s)
  }

  // ---------- The invariant holds initially ----------

  lemma InitInv(c: Config)
    requires WellFormed(c)
    ensures Inv(c, Init(c))
  {
    var s := Init(c);
    SumZero(Debts(s.workers));
    assert s.taken + s.queue == c.added;
  }

  // ---------- ... and is kept by every step ----------

  lemma StepAccounted(c: Config, s: State, a: Action)
    requires Enabled(c, s, a) && Accounted(s) && PhasesOk(c, s)
    ensures Accounted(Apply(c, s, a))
  {
    var t := Apply(c, s, a);
    if ActsOn(s, a) {
      var w := NextWorker(c, s, a);
      assert PhaseOk(c, s.workers[a.w].phase);
      OwingUpdate(s.workers, a.w, w);
    } else if a.Stop? && s.main.next < |s.workers| {
      OwingUpdate(s.workers, s.main.next, t.workers[s.main.next]);
    }
  }

  /** Jobs leave the queue in the order in which they were added. */
  lemma StepOrder(c: Config, s: State, a: Action)
    requires Enabled(c, s, a) && s.taken + s.queue == c.added
    ensures Apply(c, s, a).taken + Apply(c, s, a).queue == c.added
    ensures |Apply(c, s, a).workers| == |s.workers|
  {
    if a.Take? {
      assert s.queue == [s.queue[0]] + s.queue[1..];
    }
  }

  lemma StepPhase(c: Config, s: State, a: Action)
    requires ActsOn(s, a) && Enabled(c, s, a) && PhaseOk(c, s.workers[a.w].phase)
    requires s.taken + s.queue == c.added
    ensures PhaseOk(c, NextWorker(c, s, a).phase)
  {
    if a.Take? {
      assert s.queue[0] in s.taken + s.queue;
    }
  }

  lemma StepPhases(c: Config, s: State, a: Action)
    requires Enabled(c, s, a) && PhasesOk(c, s) && s.taken + s.queue == c.added
    ensures PhasesOk(c, Apply(c, s, a))
  {
    if ActsOn(s, a) {
      StepPhase(c, s, a);
    }
  }

  /** The count never goes up, and `task_done` is never called once too often. */
  lemma StepUnfinished(c: Config, s: State, a: Action)
    requires Enabled(c, s, a) && Accounted(s) && PhasesOk(c, s)
    ensures 0 <= Apply(c, s, a).unfinished <= s.unfinished
    ensures a.Fire? && a.h.TaskDone? ==> s.unfinished > 0
  {
    if a.Fire? && a.h.TaskDone? {
      OwingUpdate(s.workers, a.w, s.workers[a.w]);
    }
  }

  /** A worker that does not act keeps what it has in hand. */
  lemma BystanderSettles(c: Config, s: State, a: Action, j: Job, i: nat)
    requires Enabled(c, s, a) && j.id in s.states && i < |s.workers| && Unmarked(s.workers[i].phase, j)
    requires ActsOn(s, a) ==> a.w != i
    ensures Settled(Apply(c, s, a), j)
  {
    assert Unmarked(Apply(c, s, a).workers[i].phase, j);
  }

  /** The acting worker marks the job or keeps it in hand. */
  lemma ActorSettles(c: Config, s: State, a: Action, j: Job)
    requires Enabled(c, s, a) && ActsOn(s, a) && j.id in s.states && Unmarked(s.workers[a.w].phase, j)
    requires Apply(c, s, a).lost == 0
    ensures Settled(Apply(c, s, a), j)
  {
    var t := Apply(c, s, a);
    if a.Mark? {
      assert t.states[j.id] == Finished;
    } else {
      assert Unmarked(NextWorker(c, s, a).phase, j);
      assert t.workers[a.w] == NextWorker(c, s, a);
    }
  }

  /** A finished job is only touched by a worker that enters it again. */
  lemma FinishedSettles(c: Config, s: State, a: Action, j: Job)
    requires WellFormed(c) && Enabled(c, s, a) && PhasesOk(c, s) && j in c.added && j.id in s.states && s.states[j.id] == Finished
    ensures Settled(Apply(c, s, a), j)
  {
    if ActsOn(s, a) && a.Enter? && s.workers[a.w].phase.job.id == j.id {
      assert PhaseOk(c, s.workers[a.w].phase);
      assert s.workers[a.w].phase.job == j;
      assert Unmarked(Apply(c, s, a).workers[a.w].phase, j);
    }
  }

  lemma StepSettled(c: Config, s: State, a: Action, j: Job)
    requires WellFormed(c) && Enabled(c, s, a) && PhasesOk(c, s)
    requires j in c.added && Settled(s, j) && Apply(c, s, a).lost == 0
    ensures Settled(Apply(c, s, a), j)
  {
    if s.states[j.id] == Finished {
      FinishedSettles(c, s, a, j);
    } else {
      var i :| 0 <= i < |s.workers| && Unmarked(s.workers[i].phase, j);
      if ActsOn(s, a) && a.w == i {
        ActorSettles(c, s, a, j);
      } else {
        BystanderSettles(c, s, a, j, i);
      }
    }
  }

  lemma StepStates(c: Config, s: State, a: Action)
    requires WellFormed(c) && Enabled(c, s, a) && PhasesOk(c, s) && StatesOk(c, s)
    requires s.taken + s.queue == c.added
    ensures StatesOk(c, Apply(c, s, a))
  {
    var t := Apply(c, s, a);
    if t.lost == 0 {
      assert s.lost == 0;
      forall j | j in t.taken ensures Settled(t, j) {
        if j in s.taken {
          assert j in s.taken + s.queue;
          StepSettled(c, s, a, j);
        } else {
          assert j in s.taken + s.queue;
          assert Unmarked(t.workers[a.w].phase, j);
        }
      }
    }
  }

  /** A worker that has seen a count of zero, or is about to look, keeps on until the flag is set. */
  lemma StillAnnouncing(c: Config, s: State, a: Action, i: nat)
    requires Enabled(c, s, a) && s.unfinished == 0 && i < |s.workers| && Announcing(s.workers[i].phase)
    ensures Apply(c, s, a).allDone || (i < |Apply(c, s, a).workers| && Announcing(Apply(c, s, a).workers[i].phase))
  {
    if ActsOn(s, a) && a.w == i {
      assert Apply(c, s, a).workers[i] == NextWorker(c, s, a);
    }
  }

  lemma StepAllDone(c: Config, s: State, a: Action)
    requires Enabled(c, s, a) && Accounted(s) && PhasesOk(c, s) && AllDoneOk(c, s)
    ensures AllDoneOk(c, Apply(c, s, a))
  {
    var t := Apply(c, s, a);
    StepUnfinished(c, s, a);
    if t.unfinished == 0 && c.added != [] && !t.allDone {
      if s.unfinished != 0 {
        assert Announcing(t.workers[a.w].phase);
      } else {
        var i :| 0 <= i < |s.workers| && Announcing(s.workers[i].phase);
        StillAnnouncing(c, s, a, i);
      }
    }
  }

  lemma StepFlag(c: Config, s: State, a: Action, stopCalled: bool)
    requires ActsOn(s, a) && Enabled(c, s, a) && FlagOk(s.workers[a.w], stopCalled)
    ensures FlagOk(NextWorker(c, s, a), stopCalled)
  {
  }

  lemma StepFlags(c: Config, s: State, a: Action)
    requires Enabled(c, s, a) && FlagsOk(s)
    ensures FlagsOk(Apply(c, s, a))
  {
    var t := Apply(c, s, a);
    forall i | 0 <= i < |t.workers| ensures FlagOk(t.workers[i], StopCalled(t, i)) {
      assert FlagOk(s.workers[i], StopCalled(s, i));
      if ActsOn(s, a) && a.w == i {
        StepFlag(c, s, a, StopCalled(s, i));
      }
    }
  }

  /** A thread that is over stays over. */
  lemma StepOver(c: Config, s: State, a: Action)
    requires Enabled(c, s, a)
    ensures |Apply(c, s, a).workers| == |s.workers|
    ensures forall i :: 0 <= i < |s.workers| && Over(s.workers[i].phase) ==> Over(Apply(c, s, a).workers[i].phase)
  {
  }

  /** A thread is killed by a target that exits, once all handlers have been called, and by nothing else: an exception of a handler
    or of `running_event` leaves it going on.  `run` returns when a worker finds that it was told to stop, and only then. */
  lemma StepEndsThread(c: Config, s: State, a: Action, i: nat)
    requires Enabled(c, s, a) && i < |s.workers| && !Over(s.workers[i].phase)
    ensures i < |Apply(c, s, a).workers|
    ensures var p, q := s.workers[i].phase, Apply(c, s, a).workers[i].phase;
            && (q.Died? <==> a == Done(i) && p.Firing? && p.rest == {} && p.job.outcome == Exits)
            && (q.Ended? <==> a == Check(i) && p.Checking? && s.workers[i].flag != Going)
            && (a.Fire? && a.w == i && a.h.User? && a.h.raises ==> q == Checking)
            && (a == Leave(i) && p.job.startRaises ==> q == Checking)
  {
  }

  lemma StepMain(c: Config, s: State, a: Action)
    requires Enabled(c, s, a) && Accounted(s) && PhasesOk(c, s) && MainOk(s)
    ensures MainOk(Apply(c, s, a))
  {
    StepUnfinished(c, s, a);
    StepOver(c, s, a);
    if ActsOn(s, a) {
      assert Apply(c, s, a).main == s.main;
    }
  }

  lemma StepInv(c: Config, s: State, a: Action)
    requires WellFormed(c) && Inv(c, s) && Enabled(c, s, a)
    ensures Inv(c, Apply(c, s, a))
  {
    StepAccounted(c, s, a);
    StepOrder(c, s, a);
    StepPhases(c, s, a);
    StepStates(c, s, a);
    StepAllDone(c, s, a);
    StepFlags(c, s, a);
    StepMain(c, s, a);
  }

  lemma {:induction false} RunInv(c: Config, s: State, acts: seq<Action>, t: State)
    requires WellFormed(c) && Inv(c, s) && Run(c, s, acts, t)
    ensures Inv(c, t)
    decreases acts
  {
    if acts != [] {
      StepInv(c, s, acts[0]);
      RunInv(c, Apply(c, s, acts[0]), acts[1..], t);
    }
  }

  // ---------- What that means for callers ----------

  /** Accounting and order: the count of unfinished tasks is exact in every reachable state, and the
      entries are handed out once each, in the order in which they were added. */
  lemma AccountingHolds(c: Config, acts: seq<Action>, s: State)
    requires WellFormed(c) && Run(c, Init(c), acts, s)
    ensures s.unfinished == |s.queue| + Owing(s.workers) + s.lost
    ensures |s.taken| + |s.queue| == |c.added| && s.taken == c.added[..|s.taken|] && s.queue == c.added[|s.taken|..]
  {
    InitInv(c);
    RunInv(c, Init(c), acts, s);
    assert s.taken + s.queue == c.added;
  }

  lemma ZeroMeansFinished(c: Config, s: State)
    requires Inv(c, s) && s.unfinished == 0
    ensures s.queue == [] && s.taken == c.added && s.lost == 0
    ensures forall i :: 0 <= i < |s.workers| ==> !Owes(s.workers[i].phase)
    ensures forall j :: j in c.added ==> j.id in s.states && s.states[j.id] == Finished
  {
    assert s.taken + s.queue == c.added;
    forall i | 0 <= i < |s.workers| ensures !Owes(s.workers[i].phase) {
      OwingUpdate(s.workers, i, s.workers[i]);
    }
    assert s.queue == [] && s.lost == 0;
    forall j | j in c.added ensures j.id in s.states && s.states[j.id] == Finished {
      assert j in s.taken;
      assert Settled(s, j);
    }
  }

  /** The all-done flag is never set too early, whatever the handlers and bodies do. */
  lemma AllDoneIsSafe(c: Config, acts: seq<Action>, s: State)
    requires WellFormed(c) && Run(c, Init(c), acts, s) && s.allDone
    ensures s.queue == [] && s.lost == 0
    ensures forall j :: j in c.added ==> j.id in s.states && s.states[j.id] == Finished
    ensures forall i :: 0 <= i < |s.workers| ==> !Owes(s.workers[i].phase)
  {
    InitInv(c);
    RunInv(c, Init(c), acts, s);
    ZeroMeansFinished(c, s);
  }

  /** Past the wait on the queue, in whatever way the execution goes on, no job is taken or re-entered
      and every job stays FINISHED. */
  lemma {:induction false} NothingStartsAfterJoin(c: Config, s: State, acts: seq<Action>, t: State)
    requires WellFormed(c) && Inv(c, s) && !s.main.Waiting? && !s.main.TimedOut?
    requires Run(c, s, acts, t)
    ensures s.taken == c.added && t.taken == c.added
    ensures forall i :: 0 <= i < |acts| ==> !acts[i].Take? && !acts[i].Enter?
    ensures forall j :: j in c.added ==> j.id in t.states && t.states[j.id] == Finished
    decreases acts
  {
    ZeroMeansFinished(c, s);
    if acts != [] {
      StepInv(c, s, acts[0]);
      NothingStartsAfterJoin(c, Apply(c, s, acts[0]), acts[1..], t);
    }
  }

  /** When `join` returns normally, every thread is over, every job is FINISHED, and (unless there was
      nothing to do, when nobody ever sets it) the all-done flag is up. */
  lemma JoinReturnsDone(c: Config, acts: seq<Action>, s: State)
    requires WellFormed(c) && Run(c, Init(c), acts, s) && s.main.Returned?
    ensures forall i :: 0 <= i < |s.workers| ==> Over(s.workers[i].phase)
    ensures forall j :: j in c.added ==> j.id in s.states && s.states[j.id] == Finished
    ensures s.allDone <==> c.added != []
  {
    InitInv(c);
    RunInv(c, Init(c), acts, s);
    ZeroMeansFinished(c, s);
    if c.added == [] && s.allDone {
      NobodyAnnounces(c, Init(c), acts, s);
    }
  }

  lemma {:induction false} NobodyAnnounces(c: Config, s: State, acts: seq<Action>, t: State)
    requires WellFormed(c) && c.added == [] && Inv(c, s) && !s.allDone && Run(c, s, acts, t)
    ensures !t.allDone
    decreases acts
  {
    if acts != [] {
      StepInv(c, s, acts[0]);
      assert acts[0].SetAllDone? ==> PhaseOk(c, s.workers[acts[0].w].phase);
      NobodyAnnounces(c, Apply(c, s, acts[0]), acts[1..], t);
    }
  }

  // ---------- Jobs that cannot report ----------

  /** `task_done` can never be called for such a job: `finished_event` does not carry the handler (the
      job was put on the queue, but its handlers were not attached yet when a worker took it), or a
      handler of `running_event` raises before the target is entered. */
  ghost predicate Mute(j: Job) { TaskDone !in j.handlers || j.startRaises }

  ghost predicate MuteSeen(s: State, j: Job) {
    j in s.taken ==> s.lost > 0 || exists i :: 0 <= i < |s.workers| && Holds(s.workers[i].phase, j)
  }

  ghost predicate Holds(p: Phase, j: Job) { HasJob(p) && p.job == j && Owes(p) }

  /** A worker that holds a mute job goes on holding it, or gives it up. */
  lemma HolderStays(c: Config, s: State, a: Action, j: Job)
    requires ActsOn(s, a) && Enabled(c, s, a) && PhaseOk(c, s.workers[a.w].phase) && Mute(j) && Holds(s.workers[a.w].phase, j)
    requires s.workers[a.w].phase.Firing? ==> !j.startRaises
    ensures Holds(NextWorker(c, s, a).phase, j) || WorkerStep(c, s, a).lost > 0
  {
  }

  lemma StepMute(c: Config, s: State, a: Action, j: Job)
    requires Enabled(c, s, a) && PhasesOk(c, s) && Mute(j) && MuteSeen(s, j)
    requires forall i :: 0 <= i < |s.workers| && s.workers[i].phase.Firing? ==> !s.workers[i].phase.job.startRaises
    ensures MuteSeen(Apply(c, s, a), j)
  {
    var t := Apply(c, s, a);
    if j in s.taken && t.lost == 0 {
      var i :| 0 <= i < |s.workers| && Holds(s.workers[i].phase, j);
      if ActsOn(s, a) && a.w == i {
        HolderStays(c, s, a, j);
      }
      assert Holds(t.workers[i].phase, j);
    } else if a.Take? && t.lost == 0 {
      assert j in t.taken ==> j in s.taken || Holds(t.workers[a.w].phase, j);
    }
  }

  ghost predicate Entered(s: State) {
    forall i :: 0 <= i < |s.workers| ==> EnteredOk(s.workers[i].phase)
  }

  ghost predicate EnteredOk(p: Phase) { (p.Finishing? || p.Firing? || Announcing(p)) ==> !p.job.startRaises }

  lemma StepEntered(c: Config, s: State, a: Action)
    requires Enabled(c, s, a) && Entered(s)
    ensures Entered(Apply(c, s, a))
  {
    if ActsOn(s, a) {
      assert EnteredOk(s.workers[a.w].phase);
      assert EnteredOk(NextWorker(c, s, a).phase);
    }
  }

  lemma {:induction false} RunMute(c: Config, s: State, acts: seq<Action>, t: State, j: Job)
    requires WellFormed(c) && Inv(c, s) && Entered(s) && Mute(j) && MuteSeen(s, j) && Run(c, s, acts, t)
    ensures MuteSeen(t, j)
    decreases acts
  {
    if acts != [] {
      forall i | 0 <= i < |s.workers| && s.workers[i].phase.Firing? ensures !s.workers[i].phase.job.startRaises {
        assert EnteredOk(s.workers[i].phase);
      }
      StepInv(c, s, acts[0]);
      StepEntered(c, s, acts[0]);
      StepMute(c, s, acts[0], j);
      RunMute(c, Apply(c, s, acts[0]), acts[1..], t, j);
    }
  }

  lemma MuteBlocks(c: Config, s: State, j: Job)
    requires Inv(c, s) && j in c.added && MuteSeen(s, j)
    ensures s.unfinished > 0
  {
    assert s.unfinished >= 0;
    if s.unfinished == 0 {
      ZeroMeansFinished(c, s);
      assert false;
    }
  }

  lemma InitMute(c: Config, j: Job)
    ensures Entered(Init(c)) && MuteSeen(Init(c), j)
  {
  }

  lemma MainWaits(s: State)
    requires MainOk(s) && s.unfinished > 0
    ensures s.main.Waiting? || s.main.TimedOut?
  {
  }

  /** One mute job is enough: the count never reaches zero, so `join` never gets past the queue and the
      all-done flag is never set. */
  lemma MuteJobBlocksForever(c: Config, acts: seq<Action>, s: State, j: Job)
    requires WellFormed(c) && Run(c, Init(c), acts, s) && j in c.added && Mute(j)
    ensures s.unfinished > 0 && !s.allDone && (s.main.Waiting? || s.main.TimedOut?)
  {
    var start := Init(c);
    InitInv(c);
    InitMute(c, j);
    RunInv(c, start, acts, s);
    RunMute(c, start, acts, s, j);
    MuteBlocks(c, s, j);
    MainWaits(s);
  }
}
