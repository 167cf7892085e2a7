/** For which configurations `join` is sure to return, whatever the schedule and the order in which handlers are called. */
module JobPoolReturns {
  import opened JobPool
  import opened JobPoolSafety
  import opened JobPoolProgress

  /** Some handler of `finished_event` raises. */
  ghost predicate Raising(j: Job) { exists id :: User(id, true) in j.handlers }

  function ExitsIn(js: seq<Job>): nat {
    if js == [] then 0 else ExitsIn(js[..|js| - 1]) + if js[|js| - 1].outcome.Exits? then 1 else 0
  }

  /** Every job reports, and no handler raises. */
  ghost predicate Benign(c: Config) { forall j :: j in c.added ==> !Mute(j) && !Raising(j) }

  /** The entries but the last one. */
  function AllButLast(c: Config): seq<Job> { if c.added == [] then [] else c.added[..|c.added| - 1] }

  /** What can be checked before `start`: there are no threads at all; or there is no timeout, every job reports, and the
    entries before the last one end all threads but one, so that each thread is needed and one is left. */
  ghost predicate SureToReturn(c: Config) {
    NumWorkers(c) == 0 || (!c.timed && c.added != [] && Benign(c) && ExitsIn(AllButLast(c)) + 1 == NumWorkers(c))
  }

  ghost predicate AlwaysReturns(c: Config) {
    forall acts, s :: Run(c, Init(c), acts, s) && Stuck(c, s) ==> s.main.Returned?
  }

  // ---------- Counting ended threads and begun threads ----------

  /** The worker has taken an entry that ends its thread. */
  predicate Doomed(p: Phase) {
    p.Died? || ((p.Starting? || p.Busy? || p.Finishing? || p.Firing? || p.Testing? || p.Setting?) && p.job.outcome.Exits?)
  }

  function DoomedOf(ws: seq<Worker>): (r: seq<nat>)
    ensures |r| == |ws| && forall i :: 0 <= i < |ws| ==> r[i] == if Doomed(ws[i].phase) then 1 else 0
  {
    seq(|ws|, i requires 0 <= i < |ws| => if Doomed(ws[i].phase) then 1 else 0)
  }

  function BegunOf(ws: seq<Worker>): (r: seq<nat>)
    ensures |r| == |ws| && forall i :: 0 <= i < |ws| ==> r[i] == if ws[i].phase.Fresh? then 0 else 1
  {
    seq(|ws|, i requires 0 <= i < |ws| => if ws[i].phase.Fresh? then 0 else 1)
  }

  lemma DoomedUpdate(ws: seq<Worker>, i: nat, w: Worker)
    requires i < |ws|
    ensures Sum(DoomedOf(ws[i := w])) ==
            Sum(DoomedOf(ws)) - (if Doomed(ws[i].phase) then 1 else 0) + (if Doomed(w.phase) then 1 else 0)
  {
    var v := if Doomed(w.phase) then 1 else 0;
    SumUpdate(DoomedOf(ws), i, v);
    assert DoomedOf(ws[i := w]) == DoomedOf(ws)[i := v];
  }

  lemma BegunUpdate(ws: seq<Worker>, i: nat, w: Worker)
    requires i < |ws|
    ensures Sum(BegunOf(ws[i := w])) ==
            Sum(BegunOf(ws)) - (if ws[i].phase.Fresh? then 0 else 1) + (if w.phase.Fresh? then 0 else 1)
  {
    var v := if w.phase.Fresh? then 0 else 1;
    SumUpdate(BegunOf(ws), i, v);
    assert BegunOf(ws[i := w]) == BegunOf(ws)[i := v];
  }

  /** A begun worker that is not doomed comes on top of the doomed ones. */
  lemma OneMoreBegun(ws: seq<Worker>, i: nat)
    requires i < |ws| && !ws[i].phase.Fresh? && !Doomed(ws[i].phase)
    ensures Sum(DoomedOf(ws)) + 1 <= Sum(BegunOf(ws))
  {
    SumUpdate(DoomedOf(ws), i, 1);
    SumMonotone(DoomedOf(ws)[i := 1], BegunOf(ws));
  }

  lemma {:induction false} SumOfOnes(xs: seq<nat>)
    requires forall i :: 0 <= i < |xs| ==> xs[i] <= 1
    ensures Sum(xs) <= |xs|
    ensures Sum(xs) == |xs| ==> forall i :: 0 <= i < |xs| ==> xs[i] == 1
    ensures (forall i :: 0 <= i < |xs| ==> xs[i] == 1) ==> Sum(xs) == |xs|
  {
    if xs != [] {
      SumOfOnes(xs[1..]);
      assert forall i :: 0 < i < |xs| ==> xs[i] == xs[1..][i - 1];
    }
  }

  lemma {:induction false} ExitsOfPrefix(js: seq<Job>, n: nat)
    requires n <= |js|
    ensures ExitsIn(js[..n]) <= ExitsIn(js)
    decreases |js|
  {
    if n < |js| {
      ExitsOfPrefix(js[..|js| - 1], n);
      assert js[..|js| - 1][..n] == js[..n];
    } else {
      assert js[..n] == js;
    }
  }

  // ---------- Invariants of benign configurations ----------

  /** Nothing was given up; the doomed workers are those that took an exiting entry; and a begun worker came on top of them with
    the last entry taken. */
  ghost predicate Kept(c: Config, s: State) {
    && s.lost == 0
    && Sum(DoomedOf(s.workers)) == ExitsIn(s.taken)
    && (s.taken != [] ==> Sum(BegunOf(s.workers)) >= ExitsIn(s.taken[..|s.taken| - 1]) + 1)
  }

  lemma InitKept(c: Config)
    ensures Kept(c, Init(c))
  {
    SumZero(DoomedOf(Init(c).workers));
  }

  /** No worker leaves a job early. */
  lemma NobodyLeaves(c: Config, s: State, a: Action)
    requires Benign(c) && ActsOn(s, a) && Enabled(c, s, a) && Accounted(s) && PhasesOk(c, s)
    ensures LeavesJob(s, a) ==> a.Done? && !Owes(s.workers[a.w].phase)
  {
    var p := s.workers[a.w].phase;
    assert PhaseOk(c, p);
    StepUnfinished(c, s, a);
    if a.Fire? && a.h.User? {
      assert a.h == User(a.h.id, a.h.raises) && a.h in p.job.handlers;
    }
  }

  /** What a worker's step does to the two counts. */
  lemma StepDoomed(c: Config, s: State, a: Action)
    requires ActsOn(s, a) && Enabled(c, s, a) && (LeavesJob(s, a) ==> a.Done?)
    ensures var p, q := s.workers[a.w].phase, NextWorker(c, s, a).phase;
            && (a.Take? ==> !p.Fresh? && !Doomed(p) && (Doomed(q) <==> s.queue[0].outcome.Exits?))
            && (!a.Take? ==> (Doomed(q) <==> Doomed(p)))
            && !q.Fresh?
  {
  }

  lemma StepLost(c: Config, s: State, a: Action)
    requires Benign(c) && Enabled(c, s, a) && Accounted(s) && PhasesOk(c, s)
    ensures Apply(c, s, a).lost == s.lost
  {
    if ActsOn(s, a) {
      NobodyLeaves(c, s, a);
    }
  }

  lemma TakeKept(c: Config, s: State, a: Action)
    requires a.Take? && Enabled(c, s, a) && Kept(c, s)
    ensures Kept(c, Apply(c, s, a))
  {
    var q := NextWorker(c, s, a);
    DoomedUpdate(s.workers, a.w, q);
    BegunUpdate(s.workers, a.w, q);
    OneMoreBegun(s.workers, a.w);
    assert (s.taken + [s.queue[0]])[..|s.taken|] == s.taken;
  }

  lemma WorkKept(c: Config, s: State, a: Action)
    requires Benign(c) && ActsOn(s, a) && Enabled(c, s, a) && Accounted(s) && PhasesOk(c, s) && Kept(c, s) && !a.Take?
    ensures Kept(c, WorkerStep(c, s, a))
  {
    StepLost(c, s, a);
    NobodyLeaves(c, s, a);
    StepDoomed(c, s, a);
    DoomedUpdate(s.workers, a.w, NextWorker(c, s, a));
    BegunUpdate(s.workers, a.w, NextWorker(c, s, a));
  }

  lemma StepKept(c: Config, s: State, a: Action)
    requires Benign(c) && Enabled(c, s, a) && Accounted(s) && PhasesOk(c, s) && Kept(c, s)
    ensures Kept(c, Apply(c, s, a))
  {
    if a.Take? {
      TakeKept(c, s, a);
    } else if ActsOn(s, a) {
      WorkKept(c, s, a);
    } else if a.Stop? && s.main.next < |s.workers| {
      var p := s.workers[s.main.next].phase;
      DoomedUpdate(s.workers, s.main.next, Worker(p, Stopping, p.Fresh?));
      BegunUpdate(s.workers, s.main.next, Worker(p, Stopping, p.Fresh?));
    }
  }

  lemma {:induction false} RunKept(c: Config, s: State, acts: seq<Action>, t: State)
    requires WellFormed(c) && Benign(c) && Inv(c, s) && Kept(c, s) && Run(c, s, acts, t)
    ensures Kept(c, t)
    decreases acts
  {
    if acts != [] {
      StepInv(c, s, acts[0]);
      StepKept(c, s, acts[0]);
      RunKept(c, Apply(c, s, acts[0]), acts[1..], t);
    }
  }

  /** At a count of zero as many workers have begun as the entries needed. */
  lemma NeededWorkers(c: Config, s: State)
    requires Inv(c, s) && Kept(c, s) && s.unfinished == 0 && c.added != []
    ensures ExitsIn(AllButLast(c)) + 1 <= Sum(BegunOf(s.workers)) <= NumWorkers(c)
  {
    ZeroMeansFinished(c, s);
    SumOfOnes(BegunOf(s.workers));
  }

  /** While entries are queued, no more threads have ended than the entries before the last one end. */
  lemma DoomedWhileQueued(c: Config, s: State)
    requires Inv(c, s) && Kept(c, s) && s.queue != []
    ensures Sum(DoomedOf(s.workers)) <= ExitsIn(AllButLast(c))
  {
    assert s.taken + s.queue == c.added;
    var n := |s.taken|;
    assert n <= |c.added| - 1 && AllButLast(c)[..n] == s.taken;
    ExitsOfPrefix(AllButLast(c), n);
  }

  // ---------- Sure configurations return ----------

  ghost predicate NobodyEarly(s: State) { forall i :: 0 <= i < |s.workers| ==> !s.workers[i].early }

  lemma AllBegun(c: Config, s: State)
    requires Inv(c, s) && Kept(c, s) && s.unfinished == 0 && c.added != [] && ExitsIn(AllButLast(c)) + 1 == NumWorkers(c)
    ensures forall i :: 0 <= i < |s.workers| ==> !s.workers[i].phase.Fresh?
  {
    NeededWorkers(c, s);
    SumOfOnes(BegunOf(s.workers));
    assert forall i :: 0 <= i < |s.workers| ==> BegunOf(s.workers)[i] == 1;
  }

  lemma KeepsEarly(c: Config, s: State, a: Action)
    requires ActsOn(s, a) && Enabled(c, s, a)
    ensures NextWorker(c, s, a).early == s.workers[a.w].early
  {
  }

  lemma StepNobodyEarly(c: Config, s: State, a: Action)
    requires Enabled(c, s, a) && NobodyEarly(s)
    requires a.Stop? ==> forall i :: 0 <= i < |s.workers| ==> !s.workers[i].phase.Fresh?
    ensures NobodyEarly(Apply(c, s, a))
  {
    if ActsOn(s, a) {
      KeepsEarly(c, s, a);
    }
  }

  lemma StopAtZero(c: Config, s: State, a: Action)
    requires Inv(c, s) && Enabled(c, s, a) && a.Stop?
    ensures s.unfinished == 0
  {
  }

  lemma {:induction false} RunNobodyEarly(c: Config, s: State, acts: seq<Action>, t: State)
    requires WellFormed(c) && Benign(c) && Inv(c, s) && Kept(c, s) && NobodyEarly(s) && Run(c, s, acts, t)
    requires c.added != [] && ExitsIn(AllButLast(c)) + 1 == NumWorkers(c)
    ensures NobodyEarly(t)
    decreases acts
  {
    if acts != [] {
      StepInv(c, s, acts[0]);
      StepKept(c, s, acts[0]);
      if acts[0].Stop? {
        StopAtZero(c, s, acts[0]);
        AllBegun(c, s);
      }
      StepNobodyEarly(c, s, acts[0]);
      RunNobodyEarly(c, Apply(c, s, acts[0]), acts[1..], t);
    }
  }

  lemma AllDiedMeansDoomed(ws: seq<Worker>)
    requires forall i :: 0 <= i < |ws| ==> ws[i].phase.Died?
    ensures Sum(DoomedOf(ws)) == |ws|
  {
    SumOfOnes(DoomedOf(ws));
  }

  lemma SureReturns(c: Config, acts: seq<Action>, s: State)
    requires WellFormed(c) && SureToReturn(c) && Run(c, Init(c), acts, s) && Stuck(c, s)
    ensures s.main.Returned?
  {
    InitInv(c);
    RunInv(c, Init(c), acts, s);
    StuckExactly(c, s);
    if NumWorkers(c) == 0 {
      NoWorkers(c, acts, s);
    } else {
      InitKept(c);
      RunKept(c, Init(c), acts, s);
      RunNobodyEarly(c, Init(c), acts, s);
      NeverTimedOut(c, Init(c), acts, s);
      if s.main.Waiting? {
        AllDiedMeansDoomed(s.workers);
        DoomedWhileQueued(c, s);
      }
    }
  }

  lemma NoWorkers(c: Config, acts: seq<Action>, s: State)
    requires WellFormed(c) && NumWorkers(c) == 0 && Run(c, Init(c), acts, s) && Stuck(c, s) && Inv(c, s)
    ensures s.main.Returned?
  {
    NeverCounted(c, Init(c), acts, s);
    StuckExactly(c, s);
  }

  lemma {:induction false} NeverCounted(c: Config, s: State, acts: seq<Action>, t: State)
    requires c.added == [] && s.unfinished == 0 && |s.workers| == 0 && !s.main.TimedOut? && Run(c, s, acts, t)
    ensures t.unfinished == 0 && !t.main.TimedOut?
    decreases acts
  {
    if acts != [] {
      NeverCounted(c, Apply(c, s, acts[0]), acts[1..], t);
    }
  }
}
