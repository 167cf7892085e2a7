/** Whole runs of the worker pool: how often each entry's target runs, and that every run can be brought to an end. */
module JobPoolRuns {
  import opened JobPool
  import opened JobPoolSafety
  import opened JobPoolProgress

  // ---------- Every entry runs once ----------

  /** The step in which a worker is done with a target that it has entered. */
  predicate RunsTarget(s: State, a: Action) {
    a.Leave? && a.w < |s.workers| && s.workers[a.w].phase.Busy? && !s.workers[a.w].phase.job.startRaises
  }

  /** The jobs whose targets ran along `acts`, in order. */
  ghost function Ran(c: Config, s: State, acts: seq<Action>): seq<Job>
    decreases acts
  {
    if acts == [] || !Enabled(c, s, acts[0]) then []
    else (if RunsTarget(s, acts[0]) then [s.workers[acts[0].w].phase.job] else []) + Ran(c, Apply(c, s, acts[0]), acts[1..])
  }

  /** The worker has taken `j` and not left its target. */
  predicate Before(p: Phase, j: Job) { (p.Starting? || p.Busy?) && p.job == j }

  function Pending(ws: seq<Worker>, j: Job): (r: seq<nat>)
    ensures |r| == |ws| && forall i :: 0 <= i < |ws| ==> r[i] == if Before(ws[i].phase, j) then 1 else 0
  {
    seq(|ws|, i requires 0 <= i < |ws| => if Before(ws[i].phase, j) then 1 else 0)
  }

  lemma PendingUpdate(ws: seq<Worker>, i: nat, w: Worker, j: Job)
    requires i < |ws|
    ensures Sum(Pending(ws[i := w], j)) ==
            Sum(Pending(ws, j)) - (if Before(ws[i].phase, j) then 1 else 0) + (if Before(w.phase, j) then 1 else 0)
  {
    var v := if Before(w.phase, j) then 1 else 0;
    SumUpdate(Pending(ws, j), i, v);
    assert Pending(ws[i := w], j) == Pending(ws, j)[i := v];
  }

  function Times(js: seq<Job>, j: Job): nat { multiset(js)[j] }

  lemma TimesAppend(a: seq<Job>, b: seq<Job>, j: Job)
    ensures Times(a + b, j) == Times(a, j) + Times(b, j)
  {
    assert multiset(a + b) == multiset(a) + multiset(b);
  }

  lemma StepBefore(c: Config, s: State, a: Action, j: Job)
    requires ActsOn(s, a) && Enabled(c, s, a) && !j.startRaises
    ensures var before, after := s.workers[a.w].phase, NextWorker(c, s, a).phase;
            (if RunsTarget(s, a) && before.job == j then 1 else 0) + (if Before(after, j) then 1 else 0)
            == (if Before(before, j) then 1 else 0) + (if a.Take? && s.queue[0] == j then 1 else 0)
  {
  }

  /** One step: what was taken either waits in a worker's hands or its target has run. */
  lemma StepRan(c: Config, s: State, a: Action, j: Job)
    requires Enabled(c, s, a) && !j.startRaises
    ensures var t := Apply(c, s, a);
            var ran := if RunsTarget(s, a) && s.workers[a.w].phase.job == j then 1 else 0;
            ran + Sum(Pending(t.workers, j)) + Times(s.taken, j) == Times(t.taken, j) + Sum(Pending(s.workers, j))
  {
    var t := Apply(c, s, a);
    if ActsOn(s, a) {
      StepBefore(c, s, a, j);
      PendingUpdate(s.workers, a.w, NextWorker(c, s, a), j);
      if a.Take? {
        TimesAppend(s.taken, [s.queue[0]], j);
      }
    } else if a.Stop? && s.main.next < |s.workers| {
      PendingUpdate(s.workers, s.main.next, t.workers[s.main.next], j);
    }
  }

  lemma {:induction false} RunRan(c: Config, s: State, acts: seq<Action>, t: State, j: Job)
    requires Run(c, s, acts, t)
    ensures !j.startRaises ==>
      Times(Ran(c, s, acts), j) + Sum(Pending(t.workers, j)) + Times(s.taken, j) == Times(t.taken, j) + Sum(Pending(s.workers, j))
    ensures j.startRaises ==> Times(Ran(c, s, acts), j) == 0
    decreases acts
  {
    if acts != [] {
      var first := if RunsTarget(s, acts[0]) then [s.workers[acts[0].w].phase.job] else [];
      var u := Apply(c, s, acts[0]);
      RunRan(c, u, acts[1..], t, j);
      TimesAppend(first, Ran(c, u, acts[1..]), j);
      if !j.startRaises {
        StepRan(c, s, acts[0], j);
      }
    }
  }

  lemma NothingPending(ws: seq<Worker>, j: Job)
    requires forall i :: 0 <= i < |ws| ==> !Before(ws[i].phase, j)
    ensures Sum(Pending(ws, j)) == 0
  {
    SumZero(Pending(ws, j));
  }

  /** At a count of zero no worker has a target in front of it, and no added job is left at its start. */
  lemma NothingLeft(c: Config, acts: seq<Action>, s: State, j: Job)
    requires WellFormed(c) && Run(c, Init(c), acts, s) && Inv(c, s) && s.unfinished == 0
    ensures Sum(Pending(s.workers, j)) == 0 && (j in c.added ==> !j.startRaises)
  {
    ZeroMeansFinished(c, s);
    NothingPending(s.workers, j);
    if j in c.added && j.startRaises {
      MuteJobBlocksForever(c, acts, s, j);
    }
  }

  lemma RanOfJob(c: Config, start: State, acts: seq<Action>, s: State, j: Job)
    requires WellFormed(c) && start == Init(c) && Run(c, start, acts, s) && Inv(c, s)
    ensures Times(Ran(c, start, acts), j) <= Times(c.added, j)
    ensures s.unfinished == 0 ==> Times(Ran(c, start, acts), j) == Times(c.added, j)
  {
    RunRan(c, start, acts, s, j);
    NothingPending(start.workers, j);
    TimesAppend(s.taken, s.queue, j);
    if s.unfinished == 0 {
      NothingLeft(c, acts, s, j);
      ZeroMeansFinished(c, s);
    }
  }

  /** In every run each entry's target runs at most once, and exactly once by the time the count is zero. */
  lemma EachRunsOnce(c: Config, acts: seq<Action>, s: State)
    requires WellFormed(c) && Run(c, Init(c), acts, s)
    ensures forall j :: multiset(Ran(c, Init(c), acts))[j] <= multiset(c.added)[j]
    ensures s.unfinished == 0 ==> multiset(Ran(c, Init(c), acts)) == multiset(c.added)
  {
    var start := Init(c);
    InitInv(c);
    RunInv(c, start, acts, s);
    forall j
      ensures Times(Ran(c, start, acts), j) <= Times(c.added, j)
      ensures s.unfinished == 0 ==> Times(Ran(c, start, acts), j) == Times(c.added, j)
    {
      RanOfJob(c, start, acts, s, j);
    }
    SameTimes(Ran(c, start, acts), c.added, s.unfinished == 0);
  }

  lemma SameTimes(a: seq<Job>, b: seq<Job>, same: bool)
    requires forall j :: Times(a, j) <= Times(b, j) && (same ==> Times(a, j) == Times(b, j))
    ensures forall j :: multiset(a)[j] <= multiset(b)[j]
    ensures same ==> multiset(a) == multiset(b)
  {
    assert forall j :: Times(a, j) == multiset(a)[j] && Times(b, j) == multiset(b)[j];
  }

  // ---------- The states of the jobs, and the any-done flag ----------

  /** The states that one step gives to the job `id`: RUNNING when a worker starts it, FINISHED when a worker is done with it. */
  ghost function Given(s: State, a: Action, id: nat): seq<JobState> {
    if (a.Enter? || a.Mark?) && a.w < |s.workers| && HasJob(s.workers[a.w].phase) && s.workers[a.w].phase.job.id == id
    then [if a.Enter? then Running else Finished] else []
  }

  ghost function AllGiven(c: Config, s: State, acts: seq<Action>, id: nat): seq<JobState>
    decreases acts
  {
    if acts == [] || !Enabled(c, s, acts[0]) then [] else Given(s, acts[0], id) + AllGiven(c, Apply(c, s, acts[0]), acts[1..], id)
  }

  /** The state of a job is the last one that it was given, and INITED until a worker starts it. */
  lemma {:induction false} StateIsLastGiven(c: Config, s: State, acts: seq<Action>, t: State, id: nat)
    requires Run(c, s, acts, t) && id in s.states
    ensures id in t.states
    ensures var g := AllGiven(c, s, acts, id); t.states[id] == if g == [] then s.states[id] else g[|g| - 1]
    decreases acts
  {
    if acts != [] {
      var u := Apply(c, s, acts[0]);
      StateIsLastGiven(c, u, acts[1..], t, id);
    }
  }

  /** The flag that `waitUntilAnyDone` waits for is up exactly when its setter has been called. */
  lemma {:induction false} AnyDoneExactly(c: Config, s: State, acts: seq<Action>, t: State)
    requires Run(c, s, acts, t)
    ensures t.anyDone <==> s.anyDone || exists i :: 0 <= i < |acts| && acts[i].Fire? && acts[i].h == AnyDone
    decreases acts
  {
    if acts != [] {
      AnyDoneExactly(c, Apply(c, s, acts[0]), acts[1..], t);
      if i :| 0 <= i < |acts[1..]| && acts[1..][i].Fire? && acts[1..][i].h == AnyDone {
        assert acts[i + 1].Fire? && acts[i + 1].h == AnyDone;
      }
      if i :| 0 <= i < |acts| && acts[i].Fire? && acts[i].h == AnyDone {
        assert i > 0 ==> acts[1..][i - 1] == acts[i];
      }
    }
  }

  /** The worker has left the target of the job it holds. */
  ghost predicate PastTarget(p: Phase) { HasJob(p) && !p.Starting? && !p.Busy? }

  lemma {:induction false} HandlersComeAfter(c: Config, s: State, acts: seq<Action>, t: State, ran: bool)
    requires Run(c, s, acts, t)
    requires s.anyDone || (exists i :: 0 <= i < |s.workers| && PastTarget(s.workers[i].phase)) ==> ran
    ensures t.anyDone ==> ran || Ran(c, s, acts) != []
    decreases acts
  {
    if acts != [] {
      var u, ran' := Apply(c, s, acts[0]), ran || RunsTarget(s, acts[0]);
      forall i | 0 <= i < |u.workers| && PastTarget(u.workers[i].phase)
        ensures ran'
      {
        if ActsOn(s, acts[0]) && acts[0].w == i {
          assert u.workers[i] == NextWorker(c, s, acts[0]);
          assert !RunsTarget(s, acts[0]) ==> PastTarget(s.workers[i].phase);
        } else {
          assert u.workers[i].phase == s.workers[i].phase;
        }
      }
      if ActsOn(s, acts[0]) && acts[0].Fire? {
        assert PastTarget(s.workers[acts[0].w].phase);
      }
      HandlersComeAfter(c, u, acts[1..], t, ran');
    }
  }

  /** It is never up before some target has run. */
  lemma AnyDoneIsSafe(c: Config, acts: seq<Action>, s: State)
    requires Run(c, Init(c), acts, s) && s.anyDone
    ensures Ran(c, Init(c), acts) != []
  {
    HandlersComeAfter(c, Init(c), acts, s, false);
  }

  // ---------- Every run can be brought to an end ----------

  lemma {:induction false} RunAppend(c: Config, s: State, acts: seq<Action>, t: State, more: seq<Action>, u: State)
    requires Run(c, s, acts, t) && Run(c, t, more, u)
    ensures Run(c, s, acts + more, u)
    decreases acts
  {
    if acts == [] {
      assert acts + more == more;
    } else {
      RunAppend(c, Apply(c, s, acts[0]), acts[1..], t, more, u);
      assert (acts + more)[1..] == acts[1..] + more;
    }
  }

  lemma RunFirst(c: Config, s: State, a: Action, more: seq<Action>, u: State)
    requires Enabled(c, s, a) && Run(c, Apply(c, s, a), more, u)
    ensures Run(c, s, [a] + more, u)
  {
    assert ([a] + more)[1..] == more;
  }

  /** From every reachable state real work leads to a state in which nothing but polling is left. */
  lemma {:induction false} RunsToStuck(c: Config, s: State) returns (acts: seq<Action>, t: State)
    requires WellFormed(c) && Inv(c, s)
    ensures Run(c, s, acts, t) && Stuck(c, t) && Inv(c, t)
    decreases Measure(s)
  {
    if Stuck(c, s) {
      acts, t := [], s;
    } else {
      var a :| Enabled(c, s, a) && !Idle(s, a);
      StepInv(c, s, a);
      StepMeasure(c, s, a);
      var more;
      more, t := RunsToStuck(c, Apply(c, s, a));
      acts := [a] + more;
      RunFirst(c, s, a, more, t);
    }
  }
}
