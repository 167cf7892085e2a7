/** For every configuration that is not sure to return, a run after which `join` has not returned and never will; and with that
  the exact condition. */
module JobPoolHangs {
  import opened JobPool
  import opened JobPoolSafety
  import opened JobPoolProgress
  import opened JobPoolRuns
  import opened JobPoolReturns

  /** Some run ends, but for polling, without `join` having returned. */
  ghost predicate CanHang(c: Config) {
    exists acts, s :: Run(c, Init(c), acts, s) && Stuck(c, s) && !s.main.Returned?
  }

  /** A run that ends so from a reachable state. */
  lemma HangsFrom(c: Config, s: State, more: seq<Action>, t: State)
    requires Reachable(c, s) && Run(c, s, more, t) && Stuck(c, t) && !t.main.Returned?
    ensures CanHang(c)
  {
    var acts :| Run(c, Init(c), acts, s);
    RunAppend(c, Init(c), acts, s, more, t);
  }

  // ---------- Timeouts and jobs that do not report ----------

  lemma {:induction false} StaysTimedOut(c: Config, s: State, acts: seq<Action>, t: State)
    requires s.main.TimedOut? && Run(c, s, acts, t)
    ensures t.main.TimedOut?
    decreases acts
  {
    if acts != [] {
      StaysTimedOut(c, Apply(c, s, acts[0]), acts[1..], t);
    }
  }

  lemma TimedHangs(c: Config)
    requires WellFormed(c) && c.timed && c.added != []
    ensures CanHang(c)
  {
    var s := Init(c).(main := TimedOut);
    InitInv(c);
    Start(c, Init(c));
    Extend(c, Init(c), GiveUp, s);
    StepInv(c, Init(c), GiveUp);
    var more, t := RunsToStuck(c, s);
    StaysTimedOut(c, s, more, t);
    HangsFrom(c, s, more, t);
  }

  lemma MuteHangs(c: Config, j: Job)
    requires WellFormed(c) && j in c.added && Mute(j)
    ensures CanHang(c)
  {
    InitInv(c);
    var acts, t := RunsToStuck(c, Init(c));
    MuteJobBlocksForever(c, acts, t, j);
  }

  // ---------- Handlers that raise ----------

  /** The job is on its way to its handlers, none of which has been called. */
  ghost predicate Approaching(p: Phase, j: Job) {
    ((p.Starting? || p.Busy? || p.Finishing?) && p.job == j) || (p.Firing? && p.job == j && p.rest == j.handlers)
  }

  ghost predicate Unlucky(s: State, j: Job) {
    j in s.taken ==> s.lost > 0 || exists i :: 0 <= i < |s.workers| && Approaching(s.workers[i].phase, j)
  }

  /** The schedule calls the handler that raises before the others. */
  ghost predicate RaisesFirst(s: State, a: Action, j: Job, h: Handler) {
    ActsOn(s, a) && s.workers[a.w].phase.Firing? && Approaching(s.workers[a.w].phase, j) ==> a == Fire(a.w, h)
  }

  lemma ApproachingGoesOn(c: Config, s: State, a: Action, j: Job, h: Handler)
    requires ActsOn(s, a) && Enabled(c, s, a) && !Mute(j) && h.User? && h.raises && h in j.handlers
    requires Approaching(s.workers[a.w].phase, j) && RaisesFirst(s, a, j, h)
    ensures Approaching(NextWorker(c, s, a).phase, j) || WorkerStep(c, s, a).lost > 0
  {
  }

  lemma StepUnlucky(c: Config, s: State, a: Action, j: Job, h: Handler)
    requires Enabled(c, s, a) && !Mute(j) && h.User? && h.raises && h in j.handlers && Unlucky(s, j) && RaisesFirst(s, a, j, h)
    ensures Unlucky(Apply(c, s, a), j)
  {
    var t := Apply(c, s, a);
    if j in s.taken && t.lost == 0 {
      var i :| 0 <= i < |s.workers| && Approaching(s.workers[i].phase, j);
      if ActsOn(s, a) && a.w == i {
        ApproachingGoesOn(c, s, a, j, h);
      }
      assert Approaching(t.workers[i].phase, j);
    } else if a.Take? && t.lost == 0 {
      assert j in t.taken ==> j in s.taken || Approaching(t.workers[a.w].phase, j);
    }
  }

  /** Such a schedule can be followed to the end. */
  lemma {:induction false} RunsUnlucky(c: Config, s: State, j: Job, h: Handler) returns (acts: seq<Action>, t: State)
    requires WellFormed(c) && Inv(c, s) && !Mute(j) && h.User? && h.raises && h in j.handlers && Unlucky(s, j)
    ensures Run(c, s, acts, t) && Stuck(c, t) && Inv(c, t) && Unlucky(t, j)
    decreases Measure(s)
  {
    if Stuck(c, s) {
      acts, t := [], s;
    } else {
      var a := UnluckyAction(c, s, j, h);
      StepInv(c, s, a);
      StepMeasure(c, s, a);
      StepUnlucky(c, s, a, j, h);
      var more;
      more, t := RunsUnlucky(c, Apply(c, s, a), j, h);
      acts := [a] + more;
      RunFirst(c, s, a, more, t);
    }
  }

  lemma UnluckyAction(c: Config, s: State, j: Job, h: Handler) returns (a: Action)
    requires !Stuck(c, s) && h in j.handlers
    ensures Enabled(c, s, a) && !Idle(s, a) && RaisesFirst(s, a, j, h)
  {
    a :| Enabled(c, s, a) && !Idle(s, a);
    if !RaisesFirst(s, a, j, h) {
      a := Fire(a.w, h);
    }
  }

  lemma RaisingHangs(c: Config, j: Job)
    requires WellFormed(c) && j in c.added && !Mute(j) && Raising(j)
    ensures CanHang(c)
  {
    var id :| User(id, true) in j.handlers;
    InitInv(c);
    var acts, t := RunsUnlucky(c, Init(c), j, User(id, true));
    UnluckyEnd(c, t, j);
  }

  lemma UnluckyEnd(c: Config, t: State, j: Job)
    requires Inv(c, t) && j in c.added && !Mute(j) && Unlucky(t, j)
    ensures !t.main.Returned?
  {
    if t.main.Returned? {
      ZeroMeansFinished(c, t);
    }
  }

  // ---------- A stop request that comes too early ----------

  /** Worker `f` was told to stop before it had begun, and there is nothing left that could end it. */
  ghost predicate Forgotten(s: State, f: nat) {
    && f < |s.workers| && s.workers[f].early && s.queue == [] && StopCalled(s, f)
    && (s.workers[f].phase.Fresh? || s.workers[f].phase.Checking? || s.workers[f].phase.Getting?)
  }

  lemma StepForgotten(c: Config, s: State, a: Action, f: nat)
    requires FlagsOk(s) && Enabled(c, s, a) && Forgotten(s, f)
    ensures Forgotten(Apply(c, s, a), f)
  {
    assert FlagOk(s.workers[f], StopCalled(s, f));
  }

  lemma {:induction false} RunForgotten(c: Config, s: State, acts: seq<Action>, t: State, f: nat)
    requires WellFormed(c) && Inv(c, s) && Forgotten(s, f) && Run(c, s, acts, t)
    ensures Forgotten(t, f)
    decreases acts
  {
    if acts != [] {
      StepInv(c, s, acts[0]);
      StepForgotten(c, s, acts[0], f);
      RunForgotten(c, Apply(c, s, acts[0]), acts[1..], t, f);
    }
  }

  /** The joining thread comes to worker `f` before that has begun. */
  lemma {:induction false} StopsFresh(c: Config, s: State, f: nat) returns (t: State)
    requires WellFormed(c) && Reachable(c, s) && s.main.StoppingWorkers? && s.main.next <= f < |s.workers| && s.workers[f].phase.Fresh?
    ensures Reachable(c, t) && Inv(c, t) && Forgotten(t, f)
    decreases f - s.main.next
  {
    t := Apply(c, s, Stop);
    ReachableInv(c, s);
    Extend(c, s, Stop, t);
    StepInv(c, s, Stop);
    if s.main.next < f {
      t := StopsFresh(c, t, f);
    } else {
      ZeroMeansFinished(c, s);
    }
  }

  lemma FreshHangs(c: Config, s: State, f: nat)
    requires WellFormed(c) && Reachable(c, s) && s.main.Waiting? && s.unfinished == 0
    requires f < |s.workers| && s.workers[f].phase.Fresh?
    ensures CanHang(c)
  {
    Extend(c, s, JoinQueue, Apply(c, s, JoinQueue));
    var t := StopsFresh(c, Apply(c, s, JoinQueue), f);
    var more, u := RunsToStuck(c, t);
    RunForgotten(c, t, more, u, f);
    HangsFrom(c, t, more, u);
  }

  lemma EmptyHangs(c: Config)
    requires WellFormed(c) && c.added == [] && NumWorkers(c) > 0
    ensures CanHang(c)
  {
    Start(c, Init(c));
    FreshHangs(c, Init(c), 0);
  }

  // ---------- One worker after the other ----------

  /** The workers before `w` have died, those after it have not begun, and the joining thread waits. */
  ghost predicate InLine(s: State, w: nat) {
    && w < |s.workers| && s.main.Waiting? && !Over(s.workers[w].phase)
    && (forall i :: 0 <= i < w ==> s.workers[i].phase.Died?)
    && (forall i :: w < i < |s.workers| ==> s.workers[i].phase.Fresh?)
  }

  lemma {:induction false} CountFront(xs: seq<nat>, w: nat)
    requires w < |xs| && (forall i :: 0 <= i < w ==> xs[i] == 1) && (forall i :: w < i < |xs| ==> xs[i] == 0)
    ensures Sum(xs) == w + xs[w]
    decreases w
  {
    if w == 0 {
      SumZero(xs[1..]);
    } else {
      CountFront(xs[1..], w - 1);
    }
  }

  /** The worker in line has work to do as long as the count is not zero. */
  lemma InLineWorks(c: Config, s: State, w: nat) returns (a: Action)
    requires Inv(c, s) && s.lost == 0 && InLine(s, w) && s.unfinished > 0
    ensures Enabled(c, s, a) && !Idle(s, a) && ActsOn(s, a) && a.w == w
  {
    a := NextAction(s, w);
    if Idle(s, a) {
      NobodyOwes(s, w);
    }
  }

  lemma NobodyOwes(s: State, w: nat)
    requires InLine(s, w) && !Owes(s.workers[w].phase)
    ensures Owing(s.workers) == 0
  {
    SumZero(Debts(s.workers));
  }

  lemma InLineStep(c: Config, s: State, w: nat, a: Action)
    requires Inv(c, s) && InLine(s, w) && Enabled(c, s, a) && ActsOn(s, a) && a.w == w
    ensures var t := Apply(c, s, a);
            t.main.Waiting? && |t.workers| == |s.workers| && (InLine(t, w) || (t.workers[w].phase.Died?
              && (forall i :: 0 <= i < w ==> t.workers[i].phase.Died?) && (forall i :: w < i < |t.workers| ==> t.workers[i].phase.Fresh?)))
  {
    assert FlagOk(s.workers[w], StopCalled(s, w));
  }

  /** When the worker in line has died with the count above zero, an entry is still queued. */
  lemma QueuedAfterDeath(c: Config, t: State, w: nat)
    requires Inv(c, t) && t.lost == 0 && t.unfinished > 0 && w < |t.workers|
    requires (forall i :: 0 <= i <= w ==> t.workers[i].phase.Died?) && (forall i :: w < i < |t.workers| ==> t.workers[i].phase.Fresh?)
    ensures t.queue != []
  {
    SumZero(Debts(t.workers));
  }

  /** Letting one worker after the other do all it can brings the count to zero before the last one has begun. */
  lemma {:induction false} OneAfterTheOther(c: Config, s: State, w: nat) returns (t: State, f: nat)
    requires WellFormed(c) && Benign(c) && Reachable(c, s) && Inv(c, s) && Kept(c, s) && InLine(s, w)
    requires w <= ExitsIn(AllButLast(c)) && ExitsIn(AllButLast(c)) + 1 < NumWorkers(c)
    ensures Reachable(c, t) && t.main.Waiting? && t.unfinished == 0 && f < |t.workers| && t.workers[f].phase.Fresh?
    decreases Measure(s)
  {
    if s.unfinished == 0 {
      t, f := s, w + 1;
    } else {
      var a := InLineWorks(c, s, w);
      t := Apply(c, s, a);
      Extend(c, s, a, t);
      StepInv(c, s, a);
      StepKept(c, s, a);
      StepMeasure(c, s, a);
      InLineStep(c, s, w, a);
      if InLine(t, w) {
        t, f := OneAfterTheOther(c, t, w);
      } else if t.unfinished == 0 {
        f := w + 1;
      } else {
        NextInLine(c, t, w);
        t, f := OneAfterTheOther(c, t, w + 1);
      }
    }
  }

  lemma NextInLine(c: Config, t: State, w: nat)
    requires Inv(c, t) && Kept(c, t) && t.unfinished != 0 && t.main.Waiting? && w < |t.workers|
    requires (forall i :: 0 <= i <= w ==> t.workers[i].phase.Died?) && (forall i :: w < i < |t.workers| ==> t.workers[i].phase.Fresh?)
    requires ExitsIn(AllButLast(c)) + 1 < NumWorkers(c)
    ensures w + 1 <= ExitsIn(AllButLast(c)) && InLine(t, w + 1)
  {
    assert t.unfinished > 0;
    QueuedAfterDeath(c, t, w);
    DoomedWhileQueued(c, t);
    CountFront(DoomedOf(t.workers), w);
  }

  lemma TooManyThreadsHang(c: Config)
    requires WellFormed(c) && Benign(c) && c.added != [] && ExitsIn(AllButLast(c)) + 1 < NumWorkers(c)
    ensures CanHang(c)
  {
    InitInv(c);
    InitKept(c);
    Start(c, Init(c));
    var t, f := OneAfterTheOther(c, Init(c), 0);
    FreshHangs(c, t, f);
  }

  lemma TooFewThreadsHang(c: Config)
    requires WellFormed(c) && Benign(c) && c.added != [] && ExitsIn(AllButLast(c)) + 1 > NumWorkers(c)
    ensures CanHang(c)
  {
    InitInv(c);
    InitKept(c);
    var acts, t := RunsToStuck(c, Init(c));
    RunKept(c, Init(c), acts, t);
    if t.main.Returned? {
      NeededWorkers(c, t);
    }
  }

  /** For every configuration: each run that is carried on as far as it goes ends with `join` having returned, exactly when the
    configuration is sure to return. */
  lemma ReturnsExactly(c: Config)
    requires WellFormed(c)
    ensures AlwaysReturns(c) <==> SureToReturn(c)
  {
    if SureToReturn(c) {
      forall acts, s | Run(c, Init(c), acts, s) && Stuck(c, s)
        ensures s.main.Returned?
      {
        SureReturns(c, acts, s);
      }
    } else if c.added == [] {
      EmptyHangs(c);
    } else if c.timed {
      TimedHangs(c);
    } else if !Benign(c) {
      var j :| j in c.added && (Mute(j) || Raising(j));
      if Mute(j) {
        MuteHangs(c, j);
      } else {
        RaisingHangs(c, j);
      }
    } else if ExitsIn(AllButLast(c)) + 1 < NumWorkers(c) {
      TooManyThreadsHang(c);
    } else {
      TooFewThreadsHang(c);
    }
  }

  /** In particular, without exiting targets, exactly with one thread, or with none at all. */
  lemma HealthyReturnsExactly(c: Config)
    requires WellFormed(c) && Healthy(c) && !c.timed
    ensures AlwaysReturns(c) <==> NumWorkers(c) == 0 || (NumWorkers(c) == 1 && c.added != [])
  {
    ReturnsExactly(c);
    NoExits(AllButLast(c));
    assert forall j :: j in AllButLast(c) ==> j in c.added;
  }

  lemma {:induction false} NoExits(js: seq<Job>)
    ensures (forall j :: j in js ==> !j.outcome.Exits?) ==> ExitsIn(js) == 0
  {
    if js != [] {
      NoExits(js[..|js| - 1]);
      assert forall j :: j in js[..|js| - 1] ==> j in js;
    }
  }
}
