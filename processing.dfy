/**
 * The queued job's handler, on values: what one ProcessSimulatedJob does to
 * the job and worker tables, and how it closes the cycle the dispatch loop
 * opens.
 */
module Processing {
  import opened Records
  import opened Store
  import opened Loop

  /** The tables after a handler run, and the rows it wrote, in order. */
  datatype Completion = Completion(jobs: map<nat, JobRec>, workers: seq<WorkerRec>, written: seq<Write>)

  /**
   * One handler run with clock readings `startedAt` and `completedAt`: when
   * the job or the worker is missing nothing happens; otherwise the job
   * goes in-progress (stamped), the worker busy, the job completed
   * (stamped) and the worker idle, in that order.
   */
  function ProcessOf(jobs: map<nat, JobRec>, workers: seq<WorkerRec>, p: ProcessSimulatedJob,
                     startedAt: int, completedAt: int): (c: Completion)
    // the handler never creates or deletes a row
    ensures c.jobs.Keys == jobs.Keys && |c.workers| == |workers|
  {
    var j, w := p.simulatedJobId, p.workerId;
    if j !in jobs || w >= |workers| then Completion(jobs, workers, [])
    else
      var started := jobs[j].(status := InProgress, startedAt := Some(startedAt));
      var done := started.(status := Completed, completedAt := Some(completedAt));
      Completion(
        jobs[j := done],
        workers[w := workers[w].(status := Idle)],
        [JobUpdated(j, started), WorkerUpdated(w, workers[w].(status := Busy)),
         JobUpdated(j, done), WorkerUpdated(w, workers[w].(status := Idle))])
  }

  /**
   * A run on an existing job and worker leaves that job completed with
   * both stamps and its worker id, that worker idle, and every other row
   * and the set of ids as they were; on a missing one it changes nothing.
   */
  lemma ProcessOfEffect(jobs: map<nat, JobRec>, workers: seq<WorkerRec>, p: ProcessSimulatedJob,
                        startedAt: int, completedAt: int)
    ensures var c := ProcessOf(jobs, workers, p, startedAt, completedAt);
      var j, w := p.simulatedJobId, p.workerId;
      && c.jobs.Keys == jobs.Keys && |c.workers| == |workers|
      && (forall id :: id in jobs && id != j ==> c.jobs[id] == jobs[id])
      && (forall i :: 0 <= i < |workers| && i != w ==> c.workers[i] == workers[i])
      && (j in jobs && w < |workers| ==>
            && c.jobs[j].status == Completed
            && c.jobs[j].workerId == jobs[j].workerId
            && c.jobs[j].startedAt == Some(startedAt) && c.jobs[j].completedAt == Some(completedAt)
            && c.workers[w] == workers[w].(status := Idle)
            // in-progress with its start, busy, completed with both stamps, idle
            && |c.written| == 4
            && c.written[0] == JobUpdated(j, jobs[j].(status := InProgress, startedAt := Some(startedAt)))
            && c.written[1] == WorkerUpdated(w, workers[w].(status := Busy))
            && c.written[2] == JobUpdated(j, c.jobs[j])
            && c.written[3] == WorkerUpdated(w, c.workers[w]))
      && (j !in jobs || w >= |workers| ==> c == Completion(jobs, workers, []))
  {
  }

  /**
   * Dispatch, then completion: when an iteration hands the front job to a
   * worker and that dispatch is processed, the job ends completed under
   * that worker, the worker table is back exactly as it was before the
   * iteration, and so the next iteration finds an idle worker again.
   */
  lemma DispatchThenProcess(p: Progress, maxWorkers: int, blockSize: int,
                              startedAt: int, completedAt: int)
    requires Stepping(p)
    requires StepOf(p, maxWorkers, blockSize).event.Assigned?
    ensures var r := StepOf(p, maxWorkers, blockSize);
      var d := r.after.dispatched[|r.after.dispatched| - 1];
      var c := ProcessOf(r.after.jobs, r.after.workers, d.job, startedAt, completedAt);
      var j, w := r.event.jobId, r.event.workerId;
      && d.job == ProcessSimulatedJob(j, w)
      && c.jobs == p.jobs[j := p.jobs[j].(status := Completed, workerId := Some(w),
                                          startedAt := Some(startedAt), completedAt := Some(completedAt))]
      && c.workers == p.workers
      && FirstIdle(c.workers).Some?
  {
  }
}
