/**
 * The load-balancing simulation: the console command that seeds jobs and
 * runs the dispatch loop over a growing pool of workers, and the queued job
 * that completes an assignment and returns its worker to idle.
 *
 * One object holds both the two tables (jobs keyed by id, workers by
 * position) and the command's local state (the pending snapshot, the
 * worker count, the ceiling and the block size). The queue is a ghost log
 * of dispatches, and a second ghost log records every row write in order.
 */
module LoadBalancing {
  import opened Records
  import opened Scaling
  import opened Store
  import opened Loop
  import opened Processing

  /**
   * How a run of the dispatch loop ends: every pending job assigned, or no
   * idle worker and no room to grow, so that only a completion can unblock it.
   */
  datatype Outcome = Drained | Blocked

  /** The rows `count` pending-job inserts create, from id `first` on. */
  function SeededJobs(first: nat, count: nat): (m: map<nat, JobRec>)
    ensures forall id :: id in m <==> first <= id < first + count
    ensures forall id :: id in m ==> m[id] == NewJob
  {
    if count == 0 then map[] else SeededJobs(first, count - 1)[first + count - 1 := NewJob]
  }

  /** The writes of those inserts, in order. */
  function SeedWrites(first: nat, count: nat): seq<Write> {
    seq(count, i requires 0 <= i < count => JobCreated(first + i, NewJob))
  }

  /** Seeding one more job adds the next id, as a pending job, and its insert. */
  lemma SeedOneMore(existing: map<nat, JobRec>, first: nat, count: nat)
    ensures existing + SeededJobs(first, count + 1) == (existing + SeededJobs(first, count))[first + count := NewJob]
    ensures SeedWrites(first, count + 1) == SeedWrites(first, count) + [JobCreated(first + count, NewJob)]
  {
  }

  /** `Worker::firstOrCreate` for the first worker's queue name. */
  function InitialWorkers(workers: seq<WorkerRec>): (ws: seq<WorkerRec>)
    ensures FindByName(ws, WorkerName(0)).Some?
  {
    if FindByName(workers, WorkerName(0)).Some? then workers
    else
      var ws := workers + [WorkerRec(WorkerName(0), Idle)];
      assert ws[|workers|].queueName == WorkerName(0);
      ws
  }

  /** A run leaves the jobs seeded before it pending: it writes only worker ids. */
  lemma SeededStayPending(start: Progress, now: Progress, taken: seq<nat>, maxWorkers: int,
                          existing: map<nat, JobRec>, first: nat, count: nat)
    requires RunKept(start, now, taken, maxWorkers)
    requires start.jobs == existing + SeededJobs(first, count)
    ensures forall id :: first <= id < first + count ==> id in now.jobs && now.jobs[id].status == Pending
  {
    RunOnlyWorkerIdsChanged(start, now, taken, maxWorkers);
    forall id | first <= id < first + count
      ensures id in now.jobs && now.jobs[id].status == Pending
    {
      assert start.jobs[id] == NewJob;
    }
  }

  class Simulation {
    // the `workers` table; a worker's id is its position
    var workers: seq<WorkerRec>
    // the `simulated_jobs` table, and the next auto-increment id
    var jobs: map<nat, JobRec>
    var nextJobId: nat
    // the command's locals
    var pending: seq<nat>
    var currentWorkerCount: nat
    var maxWorkers: int
    var blockSize: int
    // the queue, and the order of row writes
    ghost var dispatched: seq<Dispatch>
    ghost var writes: seq<Write>

    /** The tables are consistent and the snapshot names existing jobs, each once. */
    ghost predicate Valid()
      reads this
    {
      && (forall id :: id in jobs ==> id < nextJobId)
      && (forall id :: id in pending ==> id in jobs)
      && (forall i, j :: 0 <= i < j < |pending| ==> pending[i] != pending[j])
    }

    /** The dispatch loop's state: the count matches the pool. */
    ghost predicate Ready()
      reads this
    {
      Valid() && currentWorkerCount == |workers|
    }

    /** The part of the state the dispatch loop reads and writes. */
    ghost function Now(): Progress
      reads this
    {
      Progress(workers, jobs, pending, currentWorkerCount, dispatched)
    }

    /** A database holding `workers` and `jobs`, with ids below `nextJobId` taken. */
    constructor (workers: seq<WorkerRec>, jobs: map<nat, JobRec>, nextJobId: nat)
      requires forall id :: id in jobs ==> id < nextJobId
      ensures Ready()
      ensures this.workers == workers && this.jobs == jobs && this.nextJobId == nextJobId
      ensures pending == [] && dispatched == [] && writes == []
    {
      this.workers := workers;
      this.jobs := jobs;
      this.nextJobId := nextJobId;
      pending := [];
      currentWorkerCount := |workers|;
      maxWorkers := 0;
      blockSize := 0;
      dispatched := [];
      writes := [];
    }

    /** Inserts `totalJobs` new pending jobs (none when it is not positive). */
    method SeedJobs(totalJobs: int)
      requires Valid()
      modifies this`jobs, this`nextJobId, this`writes
      ensures Valid()
      ensures nextJobId == old(nextJobId) + Max(totalJobs, 0)
      ensures jobs == old(jobs) + SeededJobs(old(nextJobId), Max(totalJobs, 0))
      ensures writes == old(writes) + SeedWrites(old(nextJobId), Max(totalJobs, 0))
    {
      ghost var j0, n0, w0 := jobs, nextJobId, writes;
      var i := 0;
      while i < totalJobs
        invariant 0 <= i <= Max(totalJobs, 0)
        invariant nextJobId == n0 + i
        invariant jobs == j0 + SeededJobs(n0, i)
        invariant writes == w0 + SeedWrites(n0, i)
        invariant Valid()
      {
        SeedOneMore(j0, n0, i);
        jobs := jobs[nextJobId := NewJob];
        writes := writes + [JobCreated(nextJobId, NewJob)];
        nextJobId := nextJobId + 1;
        i := i + 1;
      }
    }

    /**
     * `firstOrCreate`: the worker named "load-balancer_00" is created idle
     * when no worker has that name; an existing one is left as it is.
     */
    method EnsureInitialWorker()
      modifies this`workers, this`writes
      ensures FindByName(workers, WorkerName(0)).Some?
      ensures workers == InitialWorkers(old(workers))
      ensures FindByName(old(workers), WorkerName(0)).Some? ==>
        workers == old(workers) && writes == old(writes)
      ensures FindByName(old(workers), WorkerName(0)).None? ==>
        && workers == old(workers) + [WorkerRec(WorkerName(0), Idle)]
        && writes == old(writes) + [WorkerCreated(|old(workers)|, WorkerRec(WorkerName(0), Idle))]
    {
      var found := FindByName(workers, WorkerName(0));
      if found.None? {
        var initial := WorkerRec(WorkerName(0), Idle);
        writes := writes + [WorkerCreated(|workers|, initial)];
        workers := workers + [initial];
        assert workers[|workers| - 1].queueName == WorkerName(0);
      }
    }

    /**
     * One scale-up event: `blockSize` rounds, each creating an idle worker
     * named after the current count while the count is below the ceiling.
     */
    method ScaleUp()
      requires Ready()
      modifies this`workers, this`currentWorkerCount, this`writes
      ensures Ready()
      ensures var k := ScaleUpSize(old(currentWorkerCount), maxWorkers, blockSize);
        && currentWorkerCount == old(currentWorkerCount) + k
        && workers == old(workers) + NewWorkers(old(currentWorkerCount), k)
        && writes == old(writes) + WorkerCreations(old(currentWorkerCount), k)
    {
      ghost var start := currentWorkerCount;
      var i := 0;
      while i < blockSize
        invariant 0 <= i && (i <= blockSize || i == 0)
        invariant currentWorkerCount == start + ScaleUpSize(start, maxWorkers, i)
        invariant workers == old(workers) + NewWorkers(start, currentWorkerCount - start)
        invariant writes == old(writes) + WorkerCreations(start, currentWorkerCount - start)
        invariant Ready()
      {
        var newIndex := currentWorkerCount;
        if newIndex < maxWorkers {
          var created := WorkerRec(WorkerName(newIndex), Idle);
          ghost var k := newIndex - start;
          assert NewWorkers(start, k + 1) == NewWorkers(start, k) + [created];
          assert WorkerCreations(start, k + 1) == WorkerCreations(start, k) + [WorkerCreated(newIndex, created)];
          workers := workers + [created];
          writes := writes + [WorkerCreated(newIndex, created)];
          currentWorkerCount := currentWorkerCount + 1;
        }
        i := i + 1;
      }
    }

    /**
     * One iteration of the dispatch loop. With an idle worker, the front
     * pending job goes to the lowest-numbered one; without one, the pool
     * grows by a block while below the ceiling, and at the ceiling nothing
     * happens.
     */
    method Step() returns (e: StepEvent)
      requires Ready() && pending != []
      modifies this`workers, this`jobs, this`pending, this`currentWorkerCount, this`dispatched, this`writes
      ensures Ready()
      ensures var r := StepOf(old(Now()), maxWorkers, blockSize);
        && e == r.event && Now() == r.after
        && writes == old(writes) + r.written
    {
      var idle := FirstIdle(workers);
      if idle.None? {
        if currentWorkerCount < maxWorkers {
          var before := currentWorkerCount;
          ScaleUp();
          e := ScaledUp(currentWorkerCount - before);
        } else {
          e := Waited;
        }
        return;
      }
      var w := idle.value;
      var j := pending[0];
      pending := pending[1..];
      jobs := jobs[j := jobs[j].(workerId := Some(w))];
      writes := writes + [JobUpdated(j, jobs[j])];
      dispatched := dispatched + [Dispatch(ProcessSimulatedJob(j, w), workers[w].queueName)];
      workers := workers[w := workers[w].(status := Busy)];
      writes := writes + [WorkerUpdated(w, workers[w])];
      e := Assigned(j, w);
    }

    /**
     * The dispatch loop, run until the snapshot is empty or the loop can
     * only spin: the command keeps re-checking until a queue worker frees
     * a worker, and here the loop returns Blocked so that a completion can
     * be delivered before it is resumed. `log` is what the run wrote.
     */
    method RunLoop() returns (o: Outcome, ghost log: seq<Write>)
      requires Ready()
      modifies this`workers, this`jobs, this`pending, this`currentWorkerCount, this`dispatched, this`writes
      ensures Ready()
      ensures o == Drained <==> pending == []
      ensures o == Blocked ==>
        && AllBusy(workers)
        && (currentWorkerCount >= maxWorkers || blockSize <= 0)
      // what the run kept: see RunKept
      ensures |pending| <= |old(pending)|
      ensures RunKept(old(Now()), Now(), old(pending)[..|old(pending)| - |pending|], maxWorkers)
      // what the run wrote: see RunWrites
      ensures writes == old(writes) + log
      ensures RunWrites(old(Now()), Now(), old(pending)[..|old(pending)| - |pending|], log)
    {
      ghost var start := Now();
      ghost var taken: seq<nat> := [];
      log := [];
      RunKeptInitially(start, maxWorkers);
      o := Drained;
      while pending != []
        invariant o == Drained
        invariant Ready()
        invariant RunKept(start, Now(), taken, maxWorkers)
        invariant writes == old(writes) + log
        invariant RunWrites(start, Now(), taken, log)
        decreases |pending|, Headroom(currentWorkerCount, maxWorkers)
      {
        var e, written := Advance(start, taken, log);
        log := log + written;
        if e.Assigned? {
          taken := taken + [e.jobId];
        }
        if e.Waited? || e == ScaledUp(0) {
          o := Blocked;
          break;
        }
      }
      assert start.pending[..|taken|] == taken;
    }

    /**
     * One pass of the loop body as the run sees it: an iteration, with what
     * the run keeps carried across it, and the facts the loop needs to stop
     * or to make progress.
     */
    method Advance(ghost start: Progress, ghost taken: seq<nat>, ghost log: seq<Write>) returns (e: StepEvent, ghost written: seq<Write>)
      requires Ready() && pending != [] && RunKept(start, Now(), taken, maxWorkers)
      requires RunWrites(start, Now(), taken, log)
      modifies this`workers, this`jobs, this`pending, this`currentWorkerCount, this`dispatched, this`writes
      ensures Ready()
      ensures RunKept(start, Now(), if e.Assigned? then taken + [e.jobId] else taken, maxWorkers)
      ensures writes == old(writes) + written
      ensures RunWrites(start, Now(), if e.Assigned? then taken + [e.jobId] else taken, log + written)
      ensures e.Waited? || e == ScaledUp(0) ==>
        AllBusy(workers) && (currentWorkerCount >= maxWorkers || blockSize <= 0)
      ensures !(e.Waited? || e == ScaledUp(0)) && blockSize >= 1 ==>
        |pending| < old(|pending|) || (|pending| == old(|pending|) && Headroom(currentWorkerCount, maxWorkers) < Headroom(old(currentWorkerCount), maxWorkers))
      ensures !(e.Waited? || e == ScaledUp(0)) && blockSize < 1 ==> |pending| < old(|pending|)
    {
        ghost var before := Now();
        e := Step();
        StepOfKeeps(before, maxWorkers, blockSize);
        RunKeptStep(start, before, Now(), taken, e, maxWorkers);
        written := StepOf(before, maxWorkers, blockSize).written;
        RunWritesStep(start, before, Now(), taken, e, maxWorkers, log, written);
        if e.Waited? || e == ScaledUp(0) {
          StepOfBlocked(before, maxWorkers, blockSize);
        } else if blockSize >= 1 {
          StepOfProgress(before, maxWorkers, blockSize);
        }
    }

    /**
     * The command up to its loop: seed `totalJobs` pending jobs, make sure
     * the first worker exists, count the pool and snapshot the pending jobs.
     */
    method Prepare(totalJobs: int, maxWorkers: int, blockSize: int)
      requires Valid()
      modifies this`jobs, this`nextJobId, this`workers, this`currentWorkerCount, this`pending,
        this`maxWorkers, this`blockSize, this`writes
      ensures Ready()
      ensures this.maxWorkers == maxWorkers && this.blockSize == blockSize
      ensures nextJobId == old(nextJobId) + Max(totalJobs, 0)
      ensures jobs == old(jobs) + SeededJobs(old(nextJobId), Max(totalJobs, 0))
      ensures FindByName(workers, WorkerName(0)).Some?
      ensures FindByName(old(workers), WorkerName(0)).Some? ==> workers == old(workers)
      ensures FindByName(old(workers), WorkerName(0)).None? ==>
        workers == old(workers) + [WorkerRec(WorkerName(0), Idle)]
      ensures pending == PendingIds(jobs, nextJobId)
      ensures workers == InitialWorkers(old(workers))
      ensures writes == old(writes) + SeedWrites(old(nextJobId), Max(totalJobs, 0)) +
        (if FindByName(old(workers), WorkerName(0)).None?
         then [WorkerCreated(|old(workers)|, WorkerRec(WorkerName(0), Idle))] else [])
    {
      this.maxWorkers := maxWorkers;
      this.blockSize := blockSize;
      SeedJobs(totalJobs);
      EnsureInitialWorker();
      currentWorkerCount := |workers|;
      pending := PendingIds(jobs, nextJobId);
    }

    /**
     * The whole command: prepare, then run the dispatch loop. `start` is the
     * state the loop starts from: the seeded jobs, the pool with its first
     * worker, the count and the snapshot of every pending job. The run
     * keeps `RunKept` from it; in particular the seeded jobs are still
     * pending when it returns, and when it drains every job pending after
     * seeding (the seeded ones among them) was dispatched once, in
     * ascending id order. `prepared` is the write log once the command is
     * prepared and `log` what the loop wrote after it.
     */
    method Handle(totalJobs: int, maxWorkers: int, blockSize: int) returns (o: Outcome, ghost start: Progress, ghost prepared: seq<Write>, ghost log: seq<Write>)
      requires Valid()
      modifies this
      ensures Ready()
      ensures this.maxWorkers == maxWorkers && this.blockSize == blockSize
      ensures nextJobId == old(nextJobId) + Max(totalJobs, 0)
      ensures start.jobs == old(jobs) + SeededJobs(old(nextJobId), Max(totalJobs, 0))
      ensures start.workers == InitialWorkers(old(workers)) && start.count == |start.workers|
      ensures start.pending == PendingIds(start.jobs, nextJobId)
      ensures start.dispatched == old(dispatched)
      ensures |pending| <= |start.pending|
      ensures RunKept(start, Now(), start.pending[..|start.pending| - |pending|], maxWorkers)
      ensures o == Drained <==> pending == []
      ensures o == Blocked ==>
        && AllBusy(workers)
        && (currentWorkerCount >= maxWorkers || blockSize <= 0)
      ensures forall id :: old(nextJobId) <= id < nextJobId ==> id in jobs && jobs[id].status == Pending
      ensures FindByName(workers, WorkerName(0)).Some?
      ensures o == Drained ==> DispatchedInOrder(dispatched, |old(dispatched)|, start.pending)
      ensures prepared == old(writes) + SeedWrites(old(nextJobId), Max(totalJobs, 0)) +
        (if FindByName(old(workers), WorkerName(0)).None?
         then [WorkerCreated(|old(workers)|, WorkerRec(WorkerName(0), Idle))] else [])
      ensures writes == prepared + log
      ensures RunWrites(start, Now(), start.pending[..|start.pending| - |pending|], log)
    {
      Prepare(totalJobs, maxWorkers, blockSize);
      start := Now();
      prepared := writes;
      o, log := RunLoop();
      SeededStayPending(start, Now(), start.pending[..|start.pending| - |pending|], maxWorkers,
        old(jobs), old(nextJobId), Max(totalJobs, 0));
      var k := FindByName(start.workers, WorkerName(0)).value;
      assert workers[k].queueName == WorkerName(0);
      assert start.pending[..|start.pending|] == start.pending;
    }

    /**
     * The queued job's handler, run with clock readings `startedAt` and
     * `completedAt`. When the job or the worker does not exist nothing
     * happens. Otherwise the job goes to in-progress (with its start time),
     * the worker to busy, the job to completed (with its completion time)
     * and the worker to idle, in that order; nothing else is touched.
     */
    method ProcessJob(p: ProcessSimulatedJob, startedAt: int, completedAt: int)
      requires Valid()
      modifies this`jobs, this`workers, this`writes
      ensures Valid()
      ensures old(Ready()) ==> Ready()
      ensures var c := ProcessOf(old(jobs), old(workers), p, startedAt, completedAt);
        jobs == c.jobs && workers == c.workers && writes == old(writes) + c.written
    {
      var j, w := p.simulatedJobId, p.workerId;
      if j !in jobs || w >= |workers| {
        return;
      }
      jobs := jobs[j := jobs[j].(status := InProgress, startedAt := Some(startedAt))];
      writes := writes + [JobUpdated(j, jobs[j])];
      workers := workers[w := workers[w].(status := Busy)];
      writes := writes + [WorkerUpdated(w, workers[w])];
      jobs := jobs[j := jobs[j].(status := Completed, completedAt := Some(completedAt))];
      writes := writes + [JobUpdated(j, jobs[j])];
      workers := workers[w := workers[w].(status := Idle)];
      writes := writes + [WorkerUpdated(w, workers[w])];
    }
  }
}
