/**
 * What the dispatch loop keeps from one iteration to the next and over a
 * whole run, stated on snapshots of the state it touches.
 */
module Loop {
  import opened Records
  import opened Scaling
  import opened Store

  /** What one iteration of the dispatch loop did. */
  datatype StepEvent =
    | Assigned(jobId: nat, workerId: nat)
    | ScaledUp(added: nat)
    | Waited

  /** The part of the state the dispatch loop reads and writes. */
  datatype Progress = Progress(
    workers: seq<WorkerRec>,
    jobs: map<nat, JobRec>,
    pending: seq<nat>,
    count: nat,
    dispatched: seq<Dispatch>)

  function Max(a: int, b: int): int {
    if a >= b then a else b
  }

  /** No worker goes away and a busy worker stays busy. */
  ghost predicate BusyStays(before: seq<WorkerRec>, after: seq<WorkerRec>) {
    && |before| <= |after|
    && forall i :: 0 <= i < |before| && before[i].status == Busy ==> after[i].status == Busy
  }

  /** The ids of the workers the dispatches in `log` from position `from` on went to, in order. */
  ghost function Owners(log: seq<Dispatch>, from: nat): seq<int>
    requires from <= |log|
  {
    seq(|log| - from, a requires 0 <= a < |log| - from => log[from + a].job.workerId)
  }

  /**
   * Every dispatch in `log` from position `from` on went, on that worker's
   * own queue, to a worker that is busy in `workers`, and no two of them to
   * the same worker.
   */
  ghost predicate ExclusiveOwners(log: seq<Dispatch>, from: nat, workers: seq<WorkerRec>) {
    && (forall a :: from <= a < |log| ==>
          && log[a].job.workerId < |workers|
          && workers[log[a].job.workerId].status == Busy
          && log[a].queue == workers[log[a].job.workerId].queueName)
    && (forall a, b :: from <= a < b < |log| ==> log[a].job.workerId != log[b].job.workerId)
  }

  /** No dispatch in `log` from position `from` on went to a worker that is busy in `workers`. */
  ghost predicate SpareOwners(log: seq<Dispatch>, from: nat, workers: seq<WorkerRec>) {
    forall a :: from <= a < |log| ==>
      var w := log[a].job.workerId;
      !(w < |workers| && workers[w].status == Busy)
  }

  /** The dispatches in `log` from position `from` on carry the job ids `taken`, in order. */
  ghost predicate DispatchedInOrder(log: seq<Dispatch>, from: nat, taken: seq<nat>) {
    && |log| == from + |taken|
    && forall i :: 0 <= i < |taken| ==> log[from + i].job.simulatedJobId == taken[i]
  }

  /** The same jobs, differing at most in their worker ids. */
  ghost predicate OnlyWorkerIdsChanged(before: map<nat, JobRec>, after: map<nat, JobRec>) {
    && after.Keys == before.Keys
    && forall id :: id in after ==> after[id] == before[id].(workerId := after[id].workerId)
  }

  /** A snapshot a run can start from: each pending id once, each an existing job. */
  ghost predicate Startable(p: Progress) {
    && (forall i, j :: 0 <= i < j < |p.pending| ==> p.pending[i] != p.pending[j])
    && (forall id :: id in p.pending ==> id in p.jobs)
  }

  /** What one iteration does: the event, the new state and the rows it writes, in order. */
  datatype StepResult = StepResult(event: StepEvent, after: Progress, written: seq<Write>)

  /** The loop's state: the count matches the pool and the front job exists. */
  ghost predicate Stepping(p: Progress) {
    p.count == |p.workers| && p.pending != [] && p.pending[0] in p.jobs
  }

  /**
   * One iteration of the dispatch loop. With an idle worker, the front
   * pending job is given that worker's id, handed to its queue, and the
   * worker marked busy; without one, a block of workers is created while
   * the count is below the ceiling; at the ceiling nothing changes.
   */
  function StepOf(p: Progress, maxWorkers: int, blockSize: int): (r: StepResult)
    requires Stepping(p)
    // the count keeps tracking the pool, and no job is created or deleted
    ensures r.after.count == |r.after.workers| && r.after.jobs.Keys == p.jobs.Keys
    ensures |r.after.workers| >= |p.workers|
    // each write carries the row as it ends up
    ensures r.event.Assigned? ==>
      && r.event.jobId in r.after.jobs && r.event.workerId < |r.after.workers|
      && r.written == [JobUpdated(r.event.jobId, r.after.jobs[r.event.jobId]),
                    WorkerUpdated(r.event.workerId, r.after.workers[r.event.workerId])]
    ensures !r.event.Assigned? ==> r.written == WorkerCreations(p.count, |r.after.workers| - |p.workers|)
  {
    match FirstIdle(p.workers)
    case Some(w) =>
      var j := p.pending[0];
      var job := p.jobs[j].(workerId := Some(w));
      var worker := p.workers[w].(status := Busy);
      StepResult(
        Assigned(j, w),
        p.(workers := p.workers[w := worker], jobs := p.jobs[j := job], pending := p.pending[1..],
           dispatched := p.dispatched + [Dispatch(ProcessSimulatedJob(j, w), p.workers[w].queueName)]),
        [JobUpdated(j, job), WorkerUpdated(w, worker)])
    case None =>
      if p.count < maxWorkers then
        var k := ScaleUpSize(p.count, maxWorkers, blockSize);
        StepResult(
          ScaledUp(k),
          p.(workers := p.workers + NewWorkers(p.count, k), count := p.count + k),
          WorkerCreations(p.count, k))
      else
        StepResult(Waited, p, [])
  }

  /**
   * A job goes to the lowest-numbered idle worker, and to no worker
   * exactly when every worker is busy; a wait happens exactly when, on top
   * of that, the count has reached the ceiling.
   */
  lemma StepOfAssignsFirstIdle(p: Progress, maxWorkers: int, blockSize: int)
    requires Stepping(p)
    ensures var e := StepOf(p, maxWorkers, blockSize).event;
      && (e.Assigned? ==>
            && e.jobId == p.pending[0]
            && e.workerId < |p.workers| && p.workers[e.workerId].status == Idle
            && forall i :: 0 <= i < e.workerId ==> p.workers[i].status == Busy)
      && (!e.Assigned? <==> AllBusy(p.workers))
      && (e.Waited? <==> AllBusy(p.workers) && p.count >= maxWorkers)
  {
  }

  /**
   * The loop stops spinning only on a wait or on an empty scale-up; then
   * nothing changed, every worker is busy, and no worker can be added.
   */
  lemma StepOfBlocked(p: Progress, maxWorkers: int, blockSize: int)
    requires Stepping(p)
    requires var e := StepOf(p, maxWorkers, blockSize).event; e.Waited? || e == ScaledUp(0)
    ensures StepOf(p, maxWorkers, blockSize).after == p && StepOf(p, maxWorkers, blockSize).written == []
    ensures AllBusy(p.workers) && (p.count >= maxWorkers || blockSize <= 0)
  {
  }

  /** Room left below the ceiling. */
  function Headroom(count: nat, maxWorkers: int): nat {
    if maxWorkers > count then maxWorkers - count else 0
  }

  /**
   * With a positive block size every iteration but a wait shortens the
   * backlog, or keeps it and shrinks the room left below the ceiling.
   */
  lemma StepOfProgress(p: Progress, maxWorkers: int, blockSize: int)
    requires Stepping(p) && blockSize >= 1
    requires !StepOf(p, maxWorkers, blockSize).event.Waited?
    ensures var q := StepOf(p, maxWorkers, blockSize).after;
      || |q.pending| < |p.pending|
      || (|q.pending| == |p.pending| && Headroom(q.count, maxWorkers) < Headroom(p.count, maxWorkers))
  {
  }

  /**
   * What one iteration guarantees: the pool only grows, new workers are
   * named after their positions, and the count moves toward the ceiling and
   * never past it. An assignment takes the front job, records the worker's
   * id on that job, dispatches it on that worker's queue and makes that
   * worker, which was idle, busy, and changes nothing else; any other
   * iteration changes no existing row, the snapshot or the queue.
   */
  ghost predicate StepKeeps(before: Progress, after: Progress, e: StepEvent, maxWorkers: int) {
    && KeepsNames(before.workers, after.workers) && NamedFrom(after.workers, |before.workers|)
    && (forall i :: |before.workers| <= i < |after.workers| ==> after.workers[i].status == Idle)
    && before.count <= after.count <= Max(before.count, maxWorkers)
    && (e.Assigned? ==>
          var j, w := e.jobId, e.workerId;
          && before.pending != [] && j == before.pending[0]
          && after.pending == before.pending[1..]
          && w < |before.workers| && before.workers[w].status == Idle
          && after.workers == before.workers[w := before.workers[w].(status := Busy)]
          && j in before.jobs
          && after.jobs == before.jobs[j := before.jobs[j].(workerId := Some(w))]
          && after.dispatched == before.dispatched + [Dispatch(ProcessSimulatedJob(j, w), before.workers[w].queueName)])
    && (!e.Assigned? ==>
          && after.pending == before.pending && after.dispatched == before.dispatched
          && after.jobs == before.jobs && after.workers[..|before.workers|] == before.workers)
  }

  /**
   * The pool over a run: it only grows, keeps its names, names new workers
   * after their positions, keeps busy workers busy, and its count stays
   * between its start and the ceiling (or its start, when that was above).
   */
  ghost predicate PoolKept(start: Progress, now: Progress, maxWorkers: int) {
    && KeepsNames(start.workers, now.workers) && NamedFrom(now.workers, |start.workers|)
    && BusyStays(start.workers, now.workers)
    && start.count <= now.count <= Max(start.count, maxWorkers)
  }

  /**
   * The queue over a run that took the jobs `taken`: what was queued before
   * stays; one dispatch per taken job, in order, each on its worker's own
   * queue, no two to the same worker, none to a worker busy at the start,
   * each worker still busy; and a worker busy now was busy at the start or
   * was handed a job in the run.
   */
  ghost predicate QueueKept(start: Progress, now: Progress, taken: seq<nat>) {
    && DispatchedInOrder(now.dispatched, |start.dispatched|, taken)
    && now.dispatched[..|start.dispatched|] == start.dispatched
    && ExclusiveOwners(now.dispatched, |start.dispatched|, now.workers)
    && SpareOwners(now.dispatched, |start.dispatched|, start.workers)
    && (forall i :: 0 <= i < |now.workers| && now.workers[i].status == Busy ==>
          (i < |start.workers| && start.workers[i].status == Busy)
          || i in Owners(now.dispatched, |start.dispatched|))
  }

  /**
   * The jobs over a run that took the jobs `taken`: the same ids; a job not
   * taken is as it was; a taken job is as it was but for its worker id,
   * which is the worker its dispatch went to.
   */
  ghost predicate JobsKept(start: Progress, now: Progress, taken: seq<nat>) {
    && now.jobs.Keys == start.jobs.Keys
    && (forall id :: id in now.jobs && id !in taken ==> now.jobs[id] == start.jobs[id])
    && |now.dispatched| == |start.dispatched| + |taken|
    && (forall i :: 0 <= i < |taken| ==>
          && taken[i] in start.jobs
          && now.jobs[taken[i]] == start.jobs[taken[i]].(workerId := Some(now.dispatched[|start.dispatched| + i].job.workerId)))
  }

  /** What a run keeps from its `start`, having taken the front jobs `taken`. */
  ghost predicate RunKept(start: Progress, now: Progress, taken: seq<nat>, maxWorkers: int) {
    && Startable(start)
    && start.pending == taken + now.pending
    && PoolKept(start, now, maxWorkers)
    && QueueKept(start, now, taken)
    && JobsKept(start, now, taken)
  }

  /** Every iteration keeps what StepKeeps describes. */
  lemma StepOfKeeps(p: Progress, maxWorkers: int, blockSize: int)
    requires Stepping(p)
    ensures var r := StepOf(p, maxWorkers, blockSize);
      StepKeeps(p, r.after, r.event, maxWorkers)
  {
  }

  lemma RunKeptInitially(start: Progress, maxWorkers: int)
    requires Startable(start)
    ensures RunKept(start, start, [], maxWorkers)
  {
    assert start.dispatched[..|start.dispatched|] == start.dispatched;
  }

  lemma PoolKeptStep(start: Progress, before: Progress, after: Progress, e: StepEvent, maxWorkers: int)
    requires PoolKept(start, before, maxWorkers)
    requires StepKeeps(before, after, e, maxWorkers)
    ensures PoolKept(start, after, maxWorkers)
  {
    NamedFromGrow(before.workers, after.workers, |start.workers|);
    forall i | 0 <= i < |before.workers|
      ensures after.workers[i].status == before.workers[i].status || before.workers[i].status == Idle
    {
      if !e.Assigned? {
        assert after.workers[i] == after.workers[..|before.workers|][i];
      }
    }
  }

  lemma QueueKeptAssign(start: Progress, before: Progress, after: Progress, taken: seq<nat>, e: StepEvent, maxWorkers: int)
    requires QueueKept(start, before, taken) && BusyStays(start.workers, before.workers)
    requires StepKeeps(before, after, e, maxWorkers) && e.Assigned?
    ensures QueueKept(start, after, taken + [e.jobId])
  {
    var d0, w := |start.dispatched|, e.workerId;
    var taken' := taken + [e.jobId];
    forall i | 0 <= i < |taken'|
      ensures after.dispatched[d0 + i].job.simulatedJobId == taken'[i]
    {
      if i < |taken| {
        assert after.dispatched[d0 + i] == before.dispatched[d0 + i];
      }
    }
    assert after.dispatched[..d0] == before.dispatched[..d0];
    forall a | d0 <= a < |before.dispatched|
      ensures after.dispatched[a] == before.dispatched[a]
      ensures after.dispatched[a].job.workerId != w
    {
      assert before.workers[before.dispatched[a].job.workerId].status == Busy;
    }
    assert Owners(after.dispatched, d0) == Owners(before.dispatched, d0) + [w];
  }

  lemma QueueKeptOther(start: Progress, before: Progress, after: Progress, taken: seq<nat>, e: StepEvent, maxWorkers: int)
    requires QueueKept(start, before, taken)
    requires StepKeeps(before, after, e, maxWorkers) && !e.Assigned?
    ensures QueueKept(start, after, taken)
  {
    var d0 := |start.dispatched|;
    forall i | 0 <= i < |before.workers|
      ensures after.workers[i] == before.workers[i]
    {
      assert after.workers[i] == after.workers[..|before.workers|][i];
    }
  }

  lemma QueueKeptStep(start: Progress, before: Progress, after: Progress, taken: seq<nat>, e: StepEvent, maxWorkers: int)
    requires QueueKept(start, before, taken) && BusyStays(start.workers, before.workers)
    requires StepKeeps(before, after, e, maxWorkers)
    ensures QueueKept(start, after, if e.Assigned? then taken + [e.jobId] else taken)
  {
    if e.Assigned? {
      QueueKeptAssign(start, before, after, taken, e, maxWorkers);
    } else {
      QueueKeptOther(start, before, after, taken, e, maxWorkers);
    }
  }

  /** The front of what is left of a snapshot without repeats was not taken before. */
  lemma FrontNotTaken(pending: seq<nat>, taken: seq<nat>, rest: seq<nat>)
    requires forall i, j :: 0 <= i < j < |pending| ==> pending[i] != pending[j]
    requires pending == taken + rest && rest != []
    ensures rest[0] !in taken && rest[0] in pending
  {
    assert pending[|taken|] == rest[0];
    forall k | 0 <= k < |taken|
      ensures taken[k] != rest[0]
    {
      assert pending[k] == taken[k];
    }
  }

  /** Taking job `j` for worker `w`, with dispatch `d`, keeps what the run keeps of the jobs. */
  lemma JobsKeptAssign(start: Progress, before: Progress, after: Progress, taken: seq<nat>, j: nat, w: nat, d: Dispatch)
    requires JobsKept(start, before, taken)
    requires j !in taken && j in start.jobs && d.job.workerId == w
    requires after.jobs == before.jobs[j := before.jobs[j].(workerId := Some(w))]
    requires after.dispatched == before.dispatched + [d]
    ensures JobsKept(start, after, taken + [j])
  {
    var taken', d0 := taken + [j], |start.dispatched|;
    forall id | id in after.jobs && id !in taken'
      ensures after.jobs[id] == start.jobs[id]
    {
      assert after.jobs[id] == before.jobs[id];
    }
    forall i | 0 <= i < |taken'|
      ensures taken'[i] in start.jobs
      ensures after.jobs[taken'[i]] == start.jobs[taken'[i]].(workerId := Some(after.dispatched[d0 + i].job.workerId))
    {
      if i < |taken| {
        assert taken[i] != j;
        assert after.dispatched[d0 + i] == before.dispatched[d0 + i];
      }
    }
  }

  lemma JobsKeptStep(start: Progress, before: Progress, after: Progress, taken: seq<nat>, e: StepEvent, maxWorkers: int)
    requires Startable(start) && start.pending == taken + before.pending
    requires JobsKept(start, before, taken)
    requires StepKeeps(before, after, e, maxWorkers)
    ensures JobsKept(start, after, if e.Assigned? then taken + [e.jobId] else taken)
  {
    if e.Assigned? {
      FrontNotTaken(start.pending, taken, before.pending);
      JobsKeptAssign(start, before, after, taken, e.jobId, e.workerId, after.dispatched[|before.dispatched|]);
    }
  }

  lemma TakeFront(taken: seq<nat>, pending: seq<nat>)
    requires pending != []
    ensures taken + pending == (taken + [pending[0]]) + pending[1..]
  {
    assert pending == [pending[0]] + pending[1..];
  }

  /** One more iteration keeps what the run keeps. */
  lemma RunKeptStep(start: Progress, before: Progress, after: Progress, taken: seq<nat>, e: StepEvent, maxWorkers: int)
    requires RunKept(start, before, taken, maxWorkers)
    requires StepKeeps(before, after, e, maxWorkers)
    ensures RunKept(start, after, if e.Assigned? then taken + [e.jobId] else taken, maxWorkers)
  {
    PoolKeptStep(start, before, after, e, maxWorkers);
    QueueKeptStep(start, before, after, taken, e, maxWorkers);
    JobsKeptStep(start, before, after, taken, e, maxWorkers);
    if e.Assigned? {
      TakeFront(taken, before.pending);
    }
  }

  /** Over a run, jobs change at most in their worker ids. */
  lemma RunOnlyWorkerIdsChanged(start: Progress, now: Progress, taken: seq<nat>, maxWorkers: int)
    requires RunKept(start, now, taken, maxWorkers)
    ensures OnlyWorkerIdsChanged(start.jobs, now.jobs)
  {
    forall id | id in now.jobs
      ensures now.jobs[id] == start.jobs[id].(workerId := now.jobs[id].workerId)
    {
      if id in taken {
        var i :| 0 <= i < |taken| && taken[i] == id;
      }
    }
  }

  /** The workers a run created carry pairwise distinct names. */
  lemma RunNamesDistinct(start: Progress, now: Progress, taken: seq<nat>, maxWorkers: int)
    requires RunKept(start, now, taken, maxWorkers)
    ensures forall i, j :: |start.workers| <= i < j < |now.workers| ==>
      now.workers[i].queueName != now.workers[j].queueName
  {
    NamedFromDistinct(now.workers, |start.workers|);
  }

  /**
   * A row write a run that took the jobs `taken` may make, stated against
   * where the run is now: the worker id set on a taken job, a busy mark on
   * a worker the run handed a job, or the insert of an idle worker the run
   * created; the row written is the row as it stands now, or as it was
   * inserted.
   */
  ghost predicate RunWrite(start: Progress, now: Progress, taken: seq<nat>, w: Write) {
    match w
    case JobCreated(_, _) => false
    case JobUpdated(j, row) => j in taken && j in now.jobs && row == now.jobs[j]
    case WorkerUpdated(i, row) =>
      |start.dispatched| <= |now.dispatched| && i in Owners(now.dispatched, |start.dispatched|)
      && i < |now.workers| && row == now.workers[i]
    case WorkerCreated(i, row) => |start.workers| <= i < |now.workers| && row == WorkerRec(WorkerName(i), Idle)
  }

  /** Every write in `log` is one a run may make. */
  ghost predicate RunWrites(start: Progress, now: Progress, taken: seq<nat>, log: seq<Write>) {
    forall k {:trigger RunWrite(start, now, taken, log[k])} :: 0 <= k < |log| ==> RunWrite(start, now, taken, log[k])
  }

  /** A write an earlier iteration made stays one the run may make after an assignment. */
  lemma RunWriteAssign(start: Progress, before: Progress, after: Progress, taken: seq<nat>, e: StepEvent, maxWorkers: int, w: Write)
    requires RunKept(start, before, taken, maxWorkers)
    requires StepKeeps(before, after, e, maxWorkers) && e.Assigned?
    requires RunWrite(start, before, taken, w)
    ensures RunWrite(start, after, taken + [e.jobId], w)
  {
    var d0 := |start.dispatched|;
    match w
    case JobUpdated(j, row) =>
      FrontNotTaken(start.pending, taken, before.pending);
      assert after.jobs[j] == before.jobs[j];
    case WorkerUpdated(i, row) =>
      var a :| 0 <= a < |before.dispatched| - d0 && Owners(before.dispatched, d0)[a] == i;
      assert before.workers[before.dispatched[d0 + a].job.workerId].status == Busy;
      assert after.dispatched[d0 + a] == before.dispatched[d0 + a];
      assert Owners(after.dispatched, d0)[a] == i;
    case WorkerCreated(i, row) =>
  }

  /** A write an earlier iteration made stays one the run may make after an iteration that assigns nothing. */
  lemma RunWriteOther(start: Progress, before: Progress, after: Progress, taken: seq<nat>, e: StepEvent, maxWorkers: int, w: Write)
    requires StepKeeps(before, after, e, maxWorkers) && !e.Assigned?
    requires RunWrite(start, before, taken, w)
    ensures RunWrite(start, after, taken, w)
  {
    match w
    case JobUpdated(j, row) =>
    case WorkerUpdated(i, row) =>
      assert after.workers[i] == after.workers[..|before.workers|][i];
    case WorkerCreated(i, row) =>
  }

  /**
   * One more iteration, with the rows it writes appended to the log, keeps
   * every write of the run one the run may make.
   */
  lemma RunWritesStep(start: Progress, before: Progress, after: Progress, taken: seq<nat>, e: StepEvent, maxWorkers: int,
                      log: seq<Write>, written: seq<Write>)
    requires RunKept(start, before, taken, maxWorkers) && before.count == |before.workers|
    requires StepKeeps(before, after, e, maxWorkers)
    requires RunWrites(start, before, taken, log)
    requires e.Assigned? ==>
      && e.jobId in after.jobs && e.workerId < |after.workers|
      && written == [JobUpdated(e.jobId, after.jobs[e.jobId]), WorkerUpdated(e.workerId, after.workers[e.workerId])]
    requires !e.Assigned? ==> written == WorkerCreations(before.count, |after.workers| - |before.workers|)
    ensures RunWrites(start, after, if e.Assigned? then taken + [e.jobId] else taken, log + written)
  {
    var taken' := if e.Assigned? then taken + [e.jobId] else taken;
    var log' := log + written;
    forall k | 0 <= k < |log'|
      ensures RunWrite(start, after, taken', log'[k])
    {
      if k < |log| {
        assert log'[k] == log[k];
        if e.Assigned? {
          RunWriteAssign(start, before, after, taken, e, maxWorkers, log[k]);
        } else {
          RunWriteOther(start, before, after, taken, e, maxWorkers, log[k]);
        }
      } else if e.Assigned? {
        var d0 := |start.dispatched|;
        assert Owners(after.dispatched, d0)[|after.dispatched| - 1 - d0] == e.workerId;
      } else {
        assert log'[k] == written[k - |log|];
      }
    }
  }
}
