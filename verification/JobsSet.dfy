/** Filling the queue of a `JobsSet` before its threads are started (art/rhevm_api/utils/jobs.py), and the
  hand-over to the pool of module JobPool. */
module JobsSet {
  import opened JobPool

  /** `jobs.Event`: subscribers form a set, so attaching one twice has no effect. */
  class Event {
    var handlers: set<Handler>

    constructor ()
      ensures handlers == {}
    {
      handlers := {};
    }

    method Handle(h: Handler)
      modifies this
      ensures handlers == old(handlers) + {h}
    {
      handlers := handlers + {h};
    }

    /** Calls the subscribers in some order; the first one that raises ends the calls. */
    method Invoke() returns (called: seq<Handler>, raised: bool)
      ensures forall h :: h in called ==> h in handlers
      ensures forall i, k :: 0 <= i < k < |called| ==> called[i] != called[k]
      ensures raised ==> called != [] && RaisesIn(called[|called| - 1])
      ensures forall i :: 0 <= i < |called| - 1 ==> !RaisesIn(called[i])
      ensures !raised ==> forall h :: h in handlers ==> h in called && !RaisesIn(h)
    {
      var rest := handlers;
      called, raised := [], false;
      while rest != {}
        invariant rest <= handlers
        invariant forall h :: h in called <==> h in handlers && h !in rest
        invariant forall i, k :: 0 <= i < k < |called| ==> called[i] != called[k]
        invariant forall i :: 0 <= i < |called| ==> !RaisesIn(called[i])
        decreases rest
      {
        var h :| h in rest;
        called := called + [h];
        rest := rest - {h};
        if RaisesIn(h) {
          raised := true;
          return;
        }
      }
    }
  }

  predicate RaisesIn(h: Handler) { h.User? && h.raises }

  /** However many times the pool's handler was attached, a finish calls it once. */
  lemma {:induction false} CalledOnce(called: seq<Handler>, h: Handler)
    requires forall i, k :: 0 <= i < k < |called| ==> called[i] != called[k]
    ensures multiset(called)[h] == if h in called then 1 else 0
  {
    if called != [] {
      var init := called[..|called| - 1];
      assert called == init + [called[|called| - 1]];
      CalledOnce(init, h);
    }
  }

  class JobObject {
    const finished: Event
    const outcome: Outcome
    const startRaises: bool

    constructor (finished: Event, outcome: Outcome, startRaises: bool)
      ensures this.finished == finished && this.outcome == outcome && this.startRaises == startRaises
    {
      this.finished, this.outcome, this.startRaises := finished, outcome, startRaises;
    }

    /** `copy.copy`: a new job that shares the event object. */
    method Copy() returns (r: JobObject)
      ensures fresh(r) && r.finished == finished && r.outcome == outcome && r.startRaises == startRaises
    {
      r := new JobObject(finished, outcome, startRaises);
    }
  }

  class JobsSet {
    const maxsize: int          // `queue_size`; not positive means unbounded
    var requested: int          // `num_worker_threads`, None as 0
    var queue: seq<JobObject>
    var unfinished: nat
    var allDone: bool

    constructor (requested: int, maxsize: int)
      ensures Valid() && Ready() && queue == [] && this.requested == requested && this.maxsize == maxsize
    {
      this.requested, this.maxsize := requested, maxsize;
      queue, unfinished, allDone := [], 0, false;
    }

    ghost predicate Valid()
      reads this
    {
      unfinished == |queue| && (maxsize > 0 ==> |queue| <= maxsize)
    }

    /** Every queued job reports to this pool. */
    ghost predicate Ready()
      reads this, queue, set j | j in queue :: j.finished
    {
      forall j :: j in queue ==> TaskDone in j.finished.handlers && AnyDone in j.finished.handlers
    }

    predicate IsFull()
      reads this
    {
      maxsize > 0 && |queue| == maxsize
    }

    /** `addJobs` while no worker runs.  A blocking call on a full queue would never return, hence the
        precondition; a non-blocking one stops at the first job that finds the queue full. */
    method AddJobs(jobs: seq<JobObject>, block: bool) returns (added: nat, full: bool)
      requires Valid() && Ready()
      requires block && maxsize > 0 ==> |queue| + |jobs| <= maxsize
      modifies this`queue, this`unfinished, set j | j in jobs :: j.finished
      ensures Valid() && Ready()
      ensures added <= |jobs| && queue == old(queue) + jobs[..added]
      ensures full == (added < |jobs|)
      ensures full ==> !block && maxsize > 0 && |queue| == maxsize
      ensures forall j :: j in jobs[..added] ==> j.finished.handlers == old(j.finished.handlers) + {TaskDone, AnyDone}
      ensures forall j :: j in jobs && (forall k :: k in jobs[..added] ==> k.finished != j.finished)
                ==> j.finished.handlers == old(j.finished.handlers)
    {
      added, full := 0, false;
      while added < |jobs|
        invariant added <= |jobs| && !full
        invariant Valid() && Ready()
        invariant queue == old(queue) + jobs[..added]
        invariant forall j :: j in jobs[..added] ==> j.finished.handlers == old(j.finished.handlers) + {TaskDone, AnyDone}
        invariant forall j :: j in jobs && (forall k :: k in jobs[..added] ==> k.finished != j.finished)
                    ==> j.finished.handlers == old(j.finished.handlers)
      {
        if !block && IsFull() {
          full := true;
          return;
        }
        var job := jobs[added];
        queue, unfinished := queue + [job], unfinished + 1;
        job.finished.Handle(TaskDone);
        job.finished.Handle(AnyDone);
        assert jobs[..added + 1] == jobs[..added] + [job];
        added := added + 1;
      }
      assert jobs[..added] == jobs;
    }

    /** `fillQueue` on a bounded queue stops after exactly the free slots; all the copies share the one
        event, which carries each of the pool's handlers once. */
    method FillQueue(job: JobObject) returns (newJobs: seq<JobObject>)
      requires Valid() && Ready() && maxsize > 0
      modifies this`queue, this`unfinished, job.finished
      ensures Valid() && Ready() && |queue| == maxsize
      ensures |newJobs| == maxsize - |old(queue)| && queue == old(queue) + newJobs
      ensures forall i :: 0 <= i < |newJobs| ==>
                && fresh(newJobs[i]) && newJobs[i].finished == job.finished
                && newJobs[i].outcome == job.outcome && newJobs[i].startRaises == job.startRaises
      ensures forall i, k :: 0 <= i < k < |newJobs| ==> newJobs[i] != newJobs[k]
      ensures job.finished.handlers ==
                if newJobs == [] then old(job.finished.handlers) else old(job.finished.handlers) + {TaskDone, AnyDone}
    {
      newJobs := [];
      while true
        invariant Valid() && Ready()
        invariant queue == old(queue) + newJobs
        invariant forall i :: 0 <= i < |newJobs| ==>
                    && fresh(newJobs[i]) && newJobs[i].finished == job.finished
                    && newJobs[i].outcome == job.outcome && newJobs[i].startRaises == job.startRaises
        invariant forall i, k :: 0 <= i < k < |newJobs| ==> newJobs[i] != newJobs[k]
        invariant job.finished.handlers ==
                    if newJobs == [] then old(job.finished.handlers) else old(job.finished.handlers) + {TaskDone, AnyDone}
        decreases maxsize - |queue|
      {
        var newJob := job.Copy();
        var added, full := AddJobs([newJob], false);
        if full {
          return;
        }
        newJobs := newJobs + [newJob];
      }
    }

    /** `fillQueue`, and then the end of every job that was queued (line 173, `finished_event()`), in order: although the
        copies share one event to which the handlers were attached once for each of them, each end calls `task_done` exactly
        once, unless another subscriber raises first. */
    method FillThenFinish(job: JobObject) returns (newJobs: seq<JobObject>, calls: seq<seq<Handler>>, raised: seq<bool>)
      requires Valid() && Ready() && maxsize > 0
      modifies this`queue, this`unfinished, job.finished
      ensures |newJobs| == maxsize - |old(queue)| && queue == old(queue) + newJobs && |calls| == |raised| == |newJobs|
      ensures forall i :: 0 <= i < |newJobs| ==> newJobs[i].finished == job.finished
      ensures forall i, h :: 0 <= i < |calls| && h in calls[i] ==> h in newJobs[i].finished.handlers
      ensures forall i, h :: 0 <= i < |calls| && !raised[i] && h in newJobs[i].finished.handlers ==> h in calls[i]
      ensures forall i :: 0 <= i < |calls| && raised[i] ==> calls[i] != [] && RaisesIn(calls[i][|calls[i]| - 1])
      ensures forall i, k :: 0 <= i < |calls| && 0 <= k < |calls[i]| - (if raised[i] then 1 else 0) ==> !RaisesIn(calls[i][k])
      ensures forall i :: 0 <= i < |calls| ==> multiset(calls[i])[TaskDone] <= 1
      ensures forall i :: 0 <= i < |calls| && !raised[i] ==> multiset(calls[i])[TaskDone] == 1
    {
      newJobs := FillQueue(job);
      calls, raised := [], [];
      for n := 0 to |newJobs|
        invariant |calls| == |raised| == n && queue == old(queue) + newJobs
        invariant newJobs != [] ==> TaskDone in job.finished.handlers
        invariant forall i :: 0 <= i < |newJobs| ==> newJobs[i].finished == job.finished
        invariant forall i, h :: 0 <= i < n && h in calls[i] ==> h in job.finished.handlers
        invariant forall i, h :: 0 <= i < n && !raised[i] && h in job.finished.handlers ==> h in calls[i]
        invariant forall i :: 0 <= i < n && raised[i] ==> calls[i] != [] && RaisesIn(calls[i][|calls[i]| - 1])
        invariant forall i, k :: 0 <= i < n && 0 <= k < |calls[i]| - (if raised[i] then 1 else 0) ==> !RaisesIn(calls[i][k])
        invariant forall i :: 0 <= i < n ==> multiset(calls[i])[TaskDone] <= 1
        invariant forall i :: 0 <= i < n && !raised[i] ==> multiset(calls[i])[TaskDone] == 1
      {
        var called, failed := newJobs[n].finished.Invoke();
        CalledOnce(called, TaskDone);
        calls, raised := calls + [called], raised + [failed];
      }
    }

    /** The pool as its threads find it.  Queue entries that are the same object get the same identity. */
    ghost function PoolConfig(timed: bool): (c: Config)
      reads this, queue, set j | j in queue :: j.finished
      ensures |c.added| == |queue| && c.requested == requested && c.timed == timed
      ensures forall i :: 0 <= i < |queue| ==>
        && c.added[i].handlers == queue[i].finished.handlers
        && c.added[i].outcome == queue[i].outcome && c.added[i].startRaises == queue[i].startRaises
      ensures forall i, k :: 0 <= i < |queue| && 0 <= k < |queue| ==> (c.added[i].id == c.added[k].id <==> queue[i] == queue[k])
    {
      Config(seq(|queue|, i requires 0 <= i < |queue| reads this, queue, set j | j in queue :: j.finished => Snapshot(queue, i)),
             requested, timed)
    }

    /** `start` up to the point where the threads run. */
    method Start(ghost timed: bool) returns (threads: nat)
      requires Valid() && Ready()
      modifies this`requested, this`allDone
      ensures requested == (if old(requested) < 1 then old(unfinished) else old(requested)) && threads == requested && !allDone
      ensures threads == NumWorkers(PoolConfig(timed))
      ensures WellFormed(PoolConfig(timed))
      ensures Init(PoolConfig(timed)).unfinished == unfinished
      ensures forall j :: j in PoolConfig(timed).added ==> TaskDone in j.handlers
    {
      if requested < 1 {
        requested := unfinished;
      }
      allDone := false;
      threads := if requested < 1 then 0 else requested;
    }
  }

  function IndexOf(queue: seq<JobObject>, job: JobObject): (k: nat)
    requires job in queue
    ensures k < |queue| && queue[k] == job && job !in queue[..k]
  {
    if queue[0] == job then 0 else 1 + IndexOf(queue[1..], job)
  }

  ghost function Snapshot(queue: seq<JobObject>, i: nat): Job
    requires i < |queue|
    reads queue[i].finished
  {
    Job(IndexOf(queue, queue[i]), queue[i].finished.handlers, queue[i].outcome, queue[i].startRaises)
  }
}
