/**
 * The scaling policy: how many workers one scale-up event creates, and the
 * queue names the new workers get.
 */
module Scaling {
  import opened Records
  import Decimal

  const NamePrefix: string := "load-balancer_0"

  /**
   * The queue name of the worker created when the pool holds `index`
   * workers: the prefix followed by the index in decimal (so index 12 gives
   * "load-balancer_012").
   */
  function WorkerName(index: nat): string {
    NamePrefix + Decimal.Decimal(index)
  }

  /** A worker's name is the prefix followed by digits that read back as the count it was created at. */
  lemma WorkerNameReadsBack(index: nat)
    ensures var name := WorkerName(index);
      && |name| > |NamePrefix| && name[..|NamePrefix|] == NamePrefix
      && Decimal.AllDigits(name[|NamePrefix|..]) && Decimal.ParseDecimal(name[|NamePrefix|..]) == index
  {
    var digits := Decimal.Decimal(index);
    Decimal.ParseDecimalOfDecimal(index);
    assert WorkerName(index)[|NamePrefix|..] == digits;
  }

  /** Workers created at different counts get different queue names. */
  lemma WorkerNameInjective(i: nat, j: nat)
    ensures WorkerName(i) == WorkerName(j) <==> i == j
  {
    assert WorkerName(i)[|NamePrefix|..] == Decimal.Decimal(i);
    assert WorkerName(j)[|NamePrefix|..] == Decimal.Decimal(j);
    Decimal.DecimalInjective(i, j);
  }

  /** Every worker from position `from` on is named after its position. */
  ghost predicate NamedFrom(workers: seq<WorkerRec>, from: nat) {
    forall i :: from <= i < |workers| ==> workers[i].queueName == WorkerName(i)
  }

  /** `after` keeps every worker of `before`, under the same name. */
  ghost predicate KeepsNames(before: seq<WorkerRec>, after: seq<WorkerRec>) {
    |before| <= |after| && forall i :: 0 <= i < |before| ==> after[i].queueName == before[i].queueName
  }

  /** Workers named after their positions have pairwise distinct names. */
  lemma NamedFromDistinct(workers: seq<WorkerRec>, from: nat)
    requires NamedFrom(workers, from)
    ensures forall i, j :: from <= i < j < |workers| ==> workers[i].queueName != workers[j].queueName
  {
    forall i, j | from <= i < j < |workers|
      ensures workers[i].queueName != workers[j].queueName
    {
      WorkerNameInjective(i, j);
    }
  }

  /** Growing a pool by workers named after their positions keeps it so named. */
  lemma NamedFromGrow(before: seq<WorkerRec>, after: seq<WorkerRec>, from: nat)
    requires NamedFrom(before, from) && KeepsNames(before, after) && NamedFrom(after, |before|)
    ensures NamedFrom(after, from)
  {
  }

  function Min(a: int, b: int): int {
    if a <= b then a else b
  }

  /**
   * Number of workers one scale-up event creates, for a pool of `count`
   * workers, a ceiling `maxWorkers` and a block size `blockSize`: a full
   * block, clamped so that the pool does not pass the ceiling.
   */
  function ScaleUpSize(count: int, maxWorkers: int, blockSize: int): (k: nat)
    ensures k == 0 <==> count >= maxWorkers || blockSize <= 0
    ensures count < maxWorkers ==> count + k <= maxWorkers
    ensures k <= blockSize || k == 0
    ensures count < maxWorkers && blockSize > 0 ==> k == blockSize || count + k == maxWorkers
  {
    if count < maxWorkers && blockSize > 0 then Min(blockSize, maxWorkers - count) else 0
  }

  /** The `k` workers created one after another starting from pool size `start`, all idle. */
  function NewWorkers(start: nat, k: nat): (ws: seq<WorkerRec>)
    ensures |ws| == k
    ensures forall i :: 0 <= i < k ==> ws[i].status == Idle
  {
    seq(k, i requires 0 <= i < k => WorkerRec(WorkerName(start + i), Idle))
  }

  /** The workers one scale-up creates have pairwise distinct names. */
  lemma NewWorkersDistinct(start: nat, k: nat)
    ensures var ws := NewWorkers(start, k);
      forall i, j :: 0 <= i < j < k ==> ws[i].queueName != ws[j].queueName
  {
    var ws := NewWorkers(start, k);
    forall i, j | 0 <= i < j < k
      ensures ws[i].queueName != ws[j].queueName
    {
      WorkerNameInjective(start + i, start + j);
    }
  }

  /** The row writes that create `NewWorkers(start, k)`: one insert each, in order, under the id it takes. */
  function WorkerCreations(start: nat, k: nat): (ws: seq<Write>)
    ensures |ws| == k
  {
    var created := NewWorkers(start, k);
    seq(k, i requires 0 <= i < k => WorkerCreated(start + i, created[i]))
  }
}
