/**
 * The queries the scheduler puts to the job and worker tables: the first
 * idle worker, the first worker with a given queue name, and the ids of all
 * pending jobs.
 */
module Store {
  import opened Records

  /** No worker is idle. */
  ghost predicate AllBusy(workers: seq<WorkerRec>) {
    forall i :: 0 <= i < |workers| ==> workers[i].status == Busy
  }

  /** `Worker::where('status', 'idle')->first()`, taking the lowest id first. */
  function FirstIdle(workers: seq<WorkerRec>): (r: Option<nat>)
    ensures r.Some? ==> r.value < |workers| && workers[r.value].status == Idle
    ensures r.Some? ==> forall i :: 0 <= i < r.value ==> workers[i].status == Busy
    ensures r.None? <==> AllBusy(workers)
  {
    if workers == [] then None
    else if workers[0].status == Idle then Some(0)
    else match FirstIdle(workers[1..])
      case None =>
        assert workers[0].status == Busy;
        assert forall i :: 1 <= i < |workers| ==> workers[i] == workers[1..][i - 1];
        None
      case Some(i) => Some(i + 1)
  }

  /** The lookup half of `Worker::firstOrCreate(['queue_name' => name], ...)`. */
  function FindByName(workers: seq<WorkerRec>, name: string): (r: Option<nat>)
    ensures r.Some? ==> r.value < |workers| && workers[r.value].queueName == name
    ensures r.Some? ==> forall i :: 0 <= i < r.value ==> workers[i].queueName != name
    ensures r.None? ==> forall i :: 0 <= i < |workers| ==> workers[i].queueName != name
  {
    if workers == [] then None
    else if workers[0].queueName == name then Some(0)
    else match FindByName(workers[1..], name)
      case None => None
      case Some(i) => Some(i + 1)
  }

  /**
   * `SimulatedJob::where('status', 'pending')->get()` over the ids below
   * `bound`: every pending job id, once, in ascending (creation) order.
   */
  function PendingIds(jobs: map<nat, JobRec>, bound: nat): (ids: seq<nat>)
    ensures forall i, j :: 0 <= i < j < |ids| ==> ids[i] < ids[j]
    ensures forall id :: id in ids ==> id < bound && id in jobs && jobs[id].status == Pending
    ensures forall id :: id < bound && id in jobs && jobs[id].status == Pending ==> id in ids
  {
    if bound == 0 then []
    else
      var id: nat := bound - 1;
      var below := PendingIds(jobs, id);
      assert forall i :: 0 <= i < |below| ==> below[i] in below;
      assert forall x :: x in below ==> x < id;
      assert forall i :: 0 <= i < |below| ==> below[i] < id;
      below + (if id in jobs && jobs[id].status == Pending then [id] else [])
  }
}
