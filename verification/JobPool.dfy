/** The worker pool of art/rhevm_api/utils/jobs.py as a state machine.

  All jobs are added before `start`; from there on the worker threads and the thread that called
  `join` interleave freely.  One action is one source step that another thread can observe: taking a
  job, setting a job's state, calling one handler of `finished_event`, `task_done`, the zero test
  after it, setting the all-done flag, `stop`, and so on.
*/
module JobPool {

  // ---------- Data model ----------

  /** What a subscriber of `finished_event` does.  `User(_, true)` raises an exception. */
  datatype Handler = TaskDone | AnyDone | User(id: nat, raises: bool)

  /** How the target ends.  `Exits` is an exception that is not a subclass of `Exception`. */
  datatype Outcome = Returns | Raises | Exits

  datatype Job = Job(id: nat, handlers: set<Handler>, outcome: Outcome, startRaises: bool)

  datatype JobState = Inited | Running | Finished

  datatype Flag = Unset | Going | Stopping | Stopped

  datatype Phase =
    | Fresh                                    // thread started, `run` not entered yet
    | Checking                                 // about to test `self.state == 'RUNNING'`
    | Getting                                  // inside `queue.get(timeout=...)`
    | Starting(job: Job)                       // job taken, its state not yet RUNNING
    | Busy(job: Job)                           // `running_event`, then the target
    | Finishing(job: Job)                      // target left, state not yet FINISHED
    | Firing(job: Job, rest: set<Handler>)     // `finished_event`: `rest` is still to be called
    | Testing(job: Job, rest: set<Handler>)    // `task_done` returned, zero test is next
    | Setting(job: Job, rest: set<Handler>)    // zero seen, `__all_done.set` is next
    | Ended                                    // `run` returned
    | Died                                     // thread killed by an `Exits` outcome

  /** `early` records that `stop` was called before the thread entered `run`. */
  datatype Worker = Worker(phase: Phase, flag: Flag, early: bool)

  /** Where the thread that called `join` is. */
  datatype Main = Waiting | StoppingWorkers(next: nat) | JoiningThreads(next: nat) | Returned | TimedOut

  /** `requested` is `num_worker_threads` with None as 0; `timed` says that `join` got a timeout. */
  datatype Config = Config(added: seq<Job>, requested: int, timed: bool)

  /** `taken` and `lost` are history: the jobs handed out so far, and how many of those were given up
      without `task_done`. */
  datatype State = State(
    queue: seq<Job>, unfinished: int, states: map<nat, JobState>, allDone: bool, anyDone: bool,
    workers: seq<Worker>, main: Main, taken: seq<Job>, lost: nat)

  datatype Action =
    | Begin(w: nat) | Check(w: nat) | Take(w: nat) | Poll(w: nat) | Enter(w: nat) | Leave(w: nat)
    | Mark(w: nat) | Fire(w: nat, h: Handler) | Done(w: nat) | Test(w: nat) | SetAllDone(w: nat)
    | JoinQueue | GiveUp | Stop | JoinThread

  /** A job is one object: two queue entries with the same identity are the same job. */
  ghost predicate WellFormed(c: Config) {
    forall i, k :: 0 <= i < |c.added| && 0 <= k < |c.added| && c.added[i].id == c.added[k].id
                   ==> c.added[i] == c.added[k]
  }

  function NumWorkers(c: Config): nat {
    if c.requested < 1 then |c.added| else c.requested
  }

  ghost function Init(c: Config): State {
    State(c.added, |c.added|, map j | j in c.added :: j.id := Inited, false, false,
          seq(NumWorkers(c), _ => Worker(Fresh, Unset, false)), Waiting, [], 0)
  }

  // ---------- Steps ----------

  predicate Over(p: Phase) { p.Ended? || p.Died? }

  predicate Enabled(c: Config, s: State, a: Action) {
    match a
    case JoinQueue => s.main.Waiting? && s.unfinished == 0
    case GiveUp => s.main.Waiting? && c.timed && s.unfinished != 0
    case Stop => s.main.StoppingWorkers?
    case JoinThread =>
      s.main.JoiningThreads? && (s.main.next < |s.workers| ==> Over(s.workers[s.main.next].phase))
    case _ =>
      a.w < |s.workers| &&
      var p := s.workers[a.w].phase;
      match a
      case Begin(_) => p.Fresh?
      case Check(_) => p.Checking?
      case Take(_) => p.Getting? && s.queue != []
      case Poll(_) => p.Getting? && s.queue == []
      case Enter(_) => p.Starting?
      case Leave(_) => p.Busy?
      case Mark(_) => p.Finishing?
      case Fire(_, h) => p.Firing? && h in p.rest
      case Done(_) => p.Firing? && p.rest == {}
      case Test(_) => p.Testing?
      case SetAllDone(_) => p.Setting?
      case _ => false
  }

  /** The worker leaves its job in this step: `start()` was left by an exception (which `run` swallows),
      or every handler has been called. */
  predicate LeavesJob(s: State, a: Action)
    requires ActsOn(s, a)
  {
    match a
    case Leave(w) => s.workers[w].phase.Busy? && s.workers[w].phase.job.startRaises
    case Done(_) => true
    case Fire(_, h) => (h.User? && h.raises) || (h.TaskDone? && s.unfinished == 0)   // `task_done` raises ValueError
    case _ => false
  }

  predicate ActsOn(s: State, a: Action) {
    !a.JoinQueue? && !a.GiveUp? && !a.Stop? && !a.JoinThread? && a.w < |s.workers|
  }

  /** The acting worker after the step. */
  function NextWorker(c: Config, s: State, a: Action): Worker
    requires ActsOn(s, a) && Enabled(c, s, a)
  {
    var worker := s.workers[a.w];
    var p := worker.phase;
    match a
    case Begin(_) => worker.(phase := Checking, flag := Going)
    case Check(_) => if worker.flag.Going? then worker.(phase := Getting) else worker.(phase := Ended, flag := Stopped)
    case Take(_) => worker.(phase := Starting(s.queue[0]))
    case Poll(_) => worker.(phase := Checking)
    case Enter(_) => worker.(phase := Busy(p.job))
    case Leave(_) => worker.(phase := if p.job.startRaises then Checking else Finishing(p.job))
    case Mark(_) => worker.(phase := Firing(p.job, p.job.handlers))
    case Fire(_, h) =>
      worker.(phase := if LeavesJob(s, a) then Checking
                       else if h.TaskDone? then Testing(p.job, p.rest - {h})
                       else Firing(p.job, p.rest - {h}))
    case Done(_) => worker.(phase := if p.job.outcome.Exits? then Died else Checking)
    case Test(_) => worker.(phase := if s.unfinished == 0 then Setting(p.job, p.rest) else Firing(p.job, p.rest))
    case SetAllDone(_) => worker.(phase := Firing(p.job, p.rest))
  }

  function NextStates(c: Config, s: State, a: Action): map<nat, JobState>
    requires ActsOn(s, a) && Enabled(c, s, a)
  {
    if a.Enter? then s.states[s.workers[a.w].phase.job.id := Running]
    else if a.Mark? then s.states[s.workers[a.w].phase.job.id := Finished]
    else s.states
  }

  function WorkerStep(c: Config, s: State, a: Action): State
    requires ActsOn(s, a) && Enabled(c, s, a)
  {
    State(if a.Take? then s.queue[1..] else s.queue,
          if a.Fire? && a.h.TaskDone? && !LeavesJob(s, a) then s.unfinished - 1 else s.unfinished,
          NextStates(c, s, a),
          s.allDone || a.SetAllDone?,
          s.anyDone || (a.Fire? && a.h.AnyDone?),
          s.workers[a.w := NextWorker(c, s, a)],
          s.main,
          if a.Take? then s.taken + [s.queue[0]] else s.taken,
          if LeavesJob(s, a) && Owes(s.workers[a.w].phase) then s.lost + 1 else s.lost)
  }

  function Apply(c: Config, s: State, a: Action): State
    requires Enabled(c, s, a)
  {
    match a
    case JoinQueue => s.(main := StoppingWorkers(0))
    case GiveUp => s.(main := TimedOut)
    case Stop =>
      var i := s.main.next;
      if i < |s.workers| then
        var p := s.workers[i].phase;
        s.(main := StoppingWorkers(i + 1), workers := s.workers[i := Worker(p, Stopping, p.Fresh?)])
      else s.(main := JoiningThreads(0))
    case JoinThread => s.(main := if s.main.next < |s.workers| then JoiningThreads(s.main.next + 1) else Returned)
    case _ => WorkerStep(c, s, a)
  }

  /** `acts` is an execution from `s` to `t`. */
  ghost predicate Run(c: Config, s: State, acts: seq<Action>, t: State)
    decreases acts
  {
    if acts == [] then s == t
    else Enabled(c, s, acts[0]) && Run(c, Apply(c, s, acts[0]), acts[1..], t)
  }

  // ---------- Counting over the workers ----------

  /** The worker has a job for which `task_done` has not been called (yet). */
  predicate Owes(p: Phase) {
    p.Starting? || p.Busy? || p.Finishing? || (p.Firing? && (TaskDone in p.rest || TaskDone !in p.job.handlers))
  }

  function Sum(xs: seq<nat>): nat {
    if xs == [] then 0 else xs[0] + Sum(xs[1..])
  }

  lemma {:induction false} SumUpdate(xs: seq<nat>, i: nat, v: nat)
    requires i < |xs|
    ensures Sum(xs[i := v]) == Sum(xs) - xs[i] + v
  {
    if i == 0 {
      assert xs[i := v][1..] == xs[1..];
    } else {
      SumUpdate(xs[1..], i - 1, v);
      assert xs[i := v][1..] == xs[1..][i - 1 := v];
    }
  }

  lemma {:induction false} SumMonotone(xs: seq<nat>, ys: seq<nat>)
    requires |xs| == |ys| && forall i :: 0 <= i < |xs| ==> xs[i] <= ys[i]
    ensures Sum(xs) <= Sum(ys)
  {
    if xs != [] {
      SumMonotone(xs[1..], ys[1..]);
    }
  }

  lemma {:induction false} SumPositive(xs: seq<nat>, i: nat)
    requires i < |xs|
    ensures Sum(xs) >= xs[i]
  {
    if i > 0 {
      SumPositive(xs[1..], i - 1);
    }
  }

  lemma {:induction false} SumZero(xs: seq<nat>)
    requires forall i :: 0 <= i < |xs| ==> xs[i] == 0
    ensures Sum(xs) == 0
  {
    if xs != [] {
      SumZero(xs[1..]);
    }
  }

  function Debt(w: Worker): nat { if Owes(w.phase) then 1 else 0 }

  function Debts(ws: seq<Worker>): (r: seq<nat>)
    ensures |r| == |ws| && forall i :: 0 <= i < |ws| ==> r[i] == Debt(ws[i])
  {
    seq(|ws|, i requires 0 <= i < |ws| => Debt(ws[i]))
  }

  /** How many workers hold a job that still owes a `task_done`. */
  function Owing(ws: seq<Worker>): nat { Sum(Debts(ws)) }

  lemma OwingUpdate(ws: seq<Worker>, i: nat, w: Worker)
    requires i < |ws|
    ensures Owing(ws[i := w]) == Owing(ws) - Debt(ws[i]) + Debt(w)
    ensures Owing(ws) >= Debt(ws[i])
  {
    SumUpdate(Debts(ws), i, Debt(w));
    SumPositive(Debts(ws), i);
    assert Debts(ws[i := w]) == Debts(ws)[i := Debt(w)];
  }
}
