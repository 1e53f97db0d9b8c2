# Jobs load balancer — a Dafny model

This project models the core of the simulated job load balancer. The
`simulate:load-balancing` console command does four things:

- It seeds a backlog of pending jobs.
- It makes sure the first worker (`load-balancer_00`) exists.
- It runs a dispatch loop. The loop hands each pending job, front first,
  to the lowest-numbered idle worker.
- When every worker is busy, the loop grows the pool by a block of idle
  workers named `load-balancer_0<count>`. The pool never passes the
  ceiling. At the ceiling the loop waits.

Each assignment records the worker id on the job and dispatches a
`ProcessSimulatedJob` onto the worker's queue. Then it marks the worker
busy. The queued job's handler later moves the job to in-progress and
then to completed, stamping each time. It returns the worker to idle.

Layout:

- `records.dfy` (module `Records`): the job and worker rows, the queued
  job payload, a dispatch, and a row write.
- `decimal.dfy` (module `Decimal`): decimal rendering of a count, as
  string interpolation produces it, with its inverse.
- `scaling.dfy` (module `Scaling`): worker names and the scale-up block
  size.
- `store.dfy` (module `Store`): the three table queries the command
  makes.
- `loop.dfy` (module `Loop`): one iteration of the dispatch loop as a
  function on a snapshot of the state (`StepOf`). It also holds what an
  iteration and a whole run keep (`StepKeeps`, `RunKept`).
- `processing.dfy` (module `Processing`): the queued job's handler as a
  function on the tables (`ProcessOf`).
- `load_balancing.dfy` (module `LoadBalancing`): class `Simulation`. It
  holds the two tables, the command's locals, and two ghost logs: the
  queue's dispatches and every row write in order. Its methods are the
  command and the handler, written imperatively as in the program. Each
  method's contract ties the new state to the functions above. An
  iteration (`Step` and `StepOf`) and the handler (`ProcessJob` and
  `ProcessOf`) are each written twice on purpose: the function states the
  effect on plain values, where the lemmas about it stay small, and the
  method is proved to move the object's fields exactly as the function
  says.

Modelling choices:

- A worker's id is its position in the `workers` sequence.
- Job ids are map keys below an auto-increment counter.
- `Worker::where('status', 'idle')->first()` picks the lowest id.
- `SimulatedJob::where('status', 'pending')->get()` lists ids in
  ascending order.
- The command's busy-wait is modelled differently. When it finds no idle
  worker and cannot grow the pool (at the ceiling, or with a block size of
  zero or less), the program re-checks at once and keeps spinning until a
  queue worker process completes a job and frees its worker. There,
  `RunLoop` returns `Blocked`. It can be called again after `ProcessJob`
  has delivered a completion.

## Model

| member | source | states |
|---|---|---|
| Decimal.Decimal | app/Console/Commands/SimulateLoadBalancing.php:61 | the interpolated count is a non-empty string of digits with no leading zero |
| Decimal.ParseDecimalOfDecimal | app/Console/Commands/SimulateLoadBalancing.php:61 | reading the rendered count back gives the count (round trip) |
| Decimal.DecimalInjective | app/Console/Commands/SimulateLoadBalancing.php:61 | two counts render alike if and only if they are equal |
| Scaling.WorkerNameReadsBack | app/Console/Commands/SimulateLoadBalancing.php:61 | a worker's queue name is the fixed prefix followed by digits that read back as the count at its creation |
| Scaling.WorkerNameInjective | app/Console/Commands/SimulateLoadBalancing.php:59-61 | two workers get the same queue name if and only if they were created at the same count |
| Scaling.NamedFromDistinct | app/Console/Commands/SimulateLoadBalancing.php:59-65 | workers named after their positions have pairwise distinct queue names |
| Scaling.NewWorkers | app/Console/Commands/SimulateLoadBalancing.php:58-67 | a scale-up block of `k` workers has exactly `k` rows, each idle |
| Scaling.NewWorkersDistinct | app/Console/Commands/SimulateLoadBalancing.php:58-67 | the workers of one block have pairwise distinct queue names |
| Scaling.ScaleUpSize | app/Console/Commands/SimulateLoadBalancing.php:57-69 | a scale-up creates nothing exactly when the pool is at or over the ceiling or the block size is not positive; otherwise it creates a full block or exactly enough to reach the ceiling, and never passes it |
| Store.FirstIdle | app/Console/Commands/SimulateLoadBalancing.php:50 | the result is an idle worker with every lower-numbered worker busy; there is none if and only if every worker is busy |
| Store.FindByName | app/Console/Commands/SimulateLoadBalancing.php:34-37 | the result is the first worker with the given queue name; there is none only when no worker has it |
| Store.PendingIds | app/Console/Commands/SimulateLoadBalancing.php:44 | the snapshot lists every pending job, and only pending jobs, once each, in strictly ascending id order |
| Loop.StepOf | app/Console/Commands/SimulateLoadBalancing.php:50-91 | an iteration never creates or deletes a job and keeps the count equal to the pool size, which never shrinks. An assignment writes the job row and then the worker row, each as it ends up. Otherwise the writes are exactly the inserts of the new workers |
| Loop.StepOfAssignsFirstIdle | app/Console/Commands/SimulateLoadBalancing.php:50-91 | an iteration assigns the front job to the lowest-numbered idle worker; it assigns nothing if and only if every worker is busy; it waits if and only if, in addition, the count is at the ceiling |
| Loop.StepOfBlocked | app/Console/Commands/SimulateLoadBalancing.php:55-78 | an iteration that waits or creates no worker changes nothing and writes nothing; every worker is busy and no worker can be added |
| Loop.StepOfProgress | app/Console/Commands/SimulateLoadBalancing.php:57-82 | with a positive block size, every iteration but a wait shortens the backlog or the room left below the ceiling |
| Loop.StepOfKeeps | app/Console/Commands/SimulateLoadBalancing.php:47-91 | an iteration keeps every worker and its name, adds workers only idle and named after their positions, and keeps the count between its old value and the ceiling. An assignment takes the front job, records the chosen worker's id on that job and nothing else, marks that previously idle worker busy and nothing else, and dispatches the job to that worker's own queue. Any other iteration leaves the jobs, the snapshot, the queue and the existing workers unchanged |
| Loop.PoolKeptStep | app/Console/Commands/SimulateLoadBalancing.php:47-91 | one more iteration keeps the pool's guarantees: it only grows, keeps names, names new workers after their positions, keeps busy workers busy and respects the ceiling |
| Loop.QueueKeptStep | app/Console/Commands/SimulateLoadBalancing.php:47-91 | one more iteration keeps the queue's guarantees: the jobs taken so far are dispatched in order, each to its worker's own queue, to pairwise different workers, none of them busy when the run began, all of them still busy |
| Loop.JobsKeptStep | app/Console/Commands/SimulateLoadBalancing.php:47-91 | one more iteration keeps the jobs' guarantees: an untaken job is unchanged and each taken job differs from its start only in carrying the worker id of its dispatch |
| Loop.RunKeptStep | app/Console/Commands/SimulateLoadBalancing.php:47-95 | what a run keeps survives one more iteration: jobs taken front first and dispatched in that order, each to its worker's queue, each to a different worker that was not busy when the run began and is still busy; each taken job carries its dispatch's worker id and no other job changes; the pool only grows, keeps its names and respects the ceiling |
| Loop.RunWritesStep | app/Console/Commands/SimulateLoadBalancing.php:50-91 | one more iteration, with its writes appended, keeps every write of the run one of three kinds, each carrying the row as it stands: a taken job with its new worker id, a worker that was handed a job marked busy, or the insert of an idle worker created in the run at its position and named after it |
| Loop.RunOnlyWorkerIdsChanged | app/Console/Commands/SimulateLoadBalancing.php:47-91 | over a whole run, no job is created or deleted and every job changes at most in its worker id |
| Loop.RunNamesDistinct | app/Console/Commands/SimulateLoadBalancing.php:58-67 | the workers a run creates have pairwise distinct queue names |
| Processing.ProcessOf | app/Jobs/ProcessSimulatedJob.php:27-58 | the handler never creates or deletes a job or a worker |
| Processing.ProcessOfEffect | app/Jobs/ProcessSimulatedJob.php:27-58 | on an existing job and worker the job ends completed with both stamps and its worker id, and the worker ends idle; nothing else changes. Exactly four update calls are logged, in order: the job in progress with its start stamp, the worker busy, the job completed with both stamps, the worker idle. On a missing job or worker nothing changes at all |
| Processing.DispatchThenProcess | app/Jobs/ProcessSimulatedJob.php:20-58 | a dispatch followed by its processing leaves the job completed under the assigned worker. The worker table is back to its state before the assignment, so an idle worker exists again |
| LoadBalancing.SeededJobs | app/Console/Commands/SimulateLoadBalancing.php:28-30 | the seeded rows are exactly the next `count` ids, each a new pending job |
| LoadBalancing.InitialWorkers | app/Console/Commands/SimulateLoadBalancing.php:34-37 | the pool after `firstOrCreate` holds a worker named `load-balancer_00` |
| LoadBalancing.SeededStayPending | app/Console/Commands/SimulateLoadBalancing.php:28-95 | the jobs seeded before a run are still pending after it |
| LoadBalancing.SeedOneMore | app/Console/Commands/SimulateLoadBalancing.php:28-30 | seeding one more job adds the next id as a pending job and appends its insert |
| LoadBalancing.Simulation.constructor | app/Console/Commands/SimulateLoadBalancing.php:41 | a database over the given tables, with the worker count matching the pool and empty logs |
| LoadBalancing.Simulation.SeedJobs | app/Console/Commands/SimulateLoadBalancing.php:28-30 | inserts exactly `max(totalJobs, 0)` pending jobs under fresh ids, in id order, and leaves other rows alone |
| LoadBalancing.Simulation.EnsureInitialWorker | app/Console/Commands/SimulateLoadBalancing.php:34-37 | afterwards a worker named `load-balancer_00` exists. An existing one is left untouched, whatever its status. Otherwise one is created idle at the end of the pool. The pool is exactly `InitialWorkers` of the old one |
| LoadBalancing.Simulation.ScaleUp | app/Console/Commands/SimulateLoadBalancing.php:58-69 | grows the pool and the count by `ScaleUpSize` idle workers named after the count at their creation, logging one insert each, in creation order, under the id it takes |
| LoadBalancing.Simulation.Step | app/Console/Commands/SimulateLoadBalancing.php:50-94 | one iteration moves the state exactly as `StepOf` does. That covers the event, the tables, the snapshot, the count, the queue, and the row writes in program order |
| LoadBalancing.Simulation.Advance | app/Console/Commands/SimulateLoadBalancing.php:47-91 | one pass of the loop body keeps `RunKept` with the front job added to the taken jobs when it is assigned, and appends to the write log exactly the writes of that pass, each of a kind the run may make; a pass that assigns nothing and adds no worker leaves every worker busy with no room to grow; any other pass shortens the backlog or the room below the ceiling |
| LoadBalancing.Simulation.RunLoop | app/Console/Commands/SimulateLoadBalancing.php:47-95 | it ends drained exactly when the snapshot is empty. Otherwise it ends blocked, with every worker busy and the pool unable to grow. In both cases `RunKept` holds from its start with the jobs taken being the front of the starting snapshot: each was dispatched once, in order, to its worker's queue, to a worker not busy when the run began, carries that worker's id, and no other job changed. The write log is the old one followed by the run's writes, each of the kinds `RunWritesStep` names |
| LoadBalancing.Simulation.Prepare | app/Console/Commands/SimulateLoadBalancing.php:22-44 | seeds the jobs and ensures the first worker. It sets the count to the pool size and the snapshot to every pending job in id order, and states the exact row writes. The pool is exactly `InitialWorkers` of the old one |
| LoadBalancing.Simulation.Handle | app/Console/Commands/SimulateLoadBalancing.php:20-100 | returns the state after preparation: the old jobs plus the seeded ones, the pool with the first worker, and the snapshot of every pending job. From there `RunKept` holds for the front of the snapshot that was taken: each taken job was dispatched once, in order, to its worker's queue, never to a worker busy after preparation, and carries that worker's id. The seeded jobs stay pending and the first worker exists. The command drains exactly when the snapshot is empty, and when it is blocked every worker is busy and the pool cannot grow. The write log is the old one, then the seeded inserts and the first worker's insert when it is created, then the run's writes, each of the kinds `RunWritesStep` names |
| LoadBalancing.Simulation.ProcessJob | app/Jobs/ProcessSimulatedJob.php:27-58 | the handler moves the tables and the write log exactly as `ProcessOf` does, and keeps the tables consistent |

## Left out

- Persistence: the two tables are a `seq` and a `map` held in memory. Row ids, `created_at`/`updated_at` and Eloquent models are not modelled. A worker's id is its position.
- Argument parsing and the `(int)` casts on lines 23-25: `Handle` receives integers.
- Console and log output: the `info` and `Log::info` calls are not modelled.
- The clock: `now()` readings are parameters of `ProcessJob`.
- `rand` and `sleep` in the handler: not modelled, because they only delay.
- The queue: a ghost log of dispatches. Delivery, retries and workers running in parallel are not modelled.
- Concurrency: the handler runs only when `ProcessJob` is called, between runs of the loop. Interleavings are not modelled. In particular the model does not cover a completion landing between the dispatch (line 88) and the busy mark (line 91).
- LoadBalancing.Simulation.RunLoop: does not model the busy-wait as a loop that never ends. Where the program spins until another process frees a worker, the model returns `Blocked`.
- The ordering of `first()` and `get()`: the SQL leaves it unspecified. The model fixes lowest id first and ascending ids.
- Loop.RunNamesDistinct: the new workers' names are proved distinct from each other, not from the names of workers that existed before the run. The command derives names from the count, and a pre-existing table can already hold a name it will reuse.
- The message on line 38 says the first worker is idle. `firstOrCreate` leaves an existing worker's status as it is, and `EnsureInitialWorker` follows the code.
- Configuration checks: the command raises no error for a non-positive ceiling or block size. The model follows the code, so a run with no idle worker then ends `Blocked`.
- Processing.ProcessOfEffect: every update call is logged as a write, including the busy mark on line 44 that normally finds the worker already busy. Eloquent sends no UPDATE for a save that changes nothing, so the database then sees three writes where the log holds four.
- The Horizon variant of the command and the `UpdateSimulatedJobStatus` job are not part of this model.
