/**
 * Record shapes of the simulated load balancer: the rows of the
 * `simulated_jobs` and `workers` tables, the payload of a queued
 * ProcessSimulatedJob, and the ghost logs that stand in for the queue and
 * for the order of row writes.
 */
module Records {

  datatype Option<T> = None | Some(value: T)

  /** Job lifecycle; a new row defaults to Pending. */
  datatype JobStatus = Pending | InProgress | Completed

  datatype WorkerStatus = Idle | Busy

  /** A `simulated_jobs` row (without its id, which is the key it is stored under). */
  datatype JobRec = JobRec(
    status: JobStatus,
    workerId: Option<nat>,
    startedAt: Option<int>,
    completedAt: Option<int>)

  /** The row `SimulatedJob::create(['status' => 'pending'])` inserts. */
  const NewJob: JobRec := JobRec(Pending, None, None, None)

  /** A `workers` row (without its id, which is its position in the pool). */
  datatype WorkerRec = WorkerRec(queueName: string, status: WorkerStatus)

  /** The queued job object: its constructor keeps both ids as given. */
  datatype ProcessSimulatedJob = ProcessSimulatedJob(simulatedJobId: nat, workerId: nat)

  /** One `dispatch(...)->onQueue(queue)` call. */
  datatype Dispatch = Dispatch(job: ProcessSimulatedJob, queue: string)

  /** One row write, carrying the row as it is after the write. */
  datatype Write =
    | JobCreated(jobId: nat, job: JobRec)
    | JobUpdated(jobId: nat, job: JobRec)
    | WorkerCreated(workerId: nat, worker: WorkerRec)
    | WorkerUpdated(workerId: nat, worker: WorkerRec)
}
