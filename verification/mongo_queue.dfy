/** `MongoQueue` of `mongo/src/queue/queue.ts`: jobs stored as documents,
    dequeued by a find-and-update that picks the oldest eligible job, and a
    consumer that polls with a backoff. The collection is a sequence of jobs
    in natural order; the clock, the inserted ids and the random batch id are
    parameters. */
module MongoQueue {
  import opened Wrappers
  import Backoff

  /** The backoff of the consumers: exponential from 100 ms, doubling, at
      most 5000 ms. */
  const ConsumerBackoff := Backoff.Options(Backoff.Exponential, 100, 2, 5000)

  /** A stored job (`MongoJob`); `batch` is `None` for `null`. */
  datatype MongoJob<T> = MongoJob(id: string, data: T, enqueueTimestamp: int, tries: int, lastDequeueTimestamp: int, batch: Option<string>)

  /** The `Job` handed to users. */
  datatype Job<T> = Job(id: string, data: T)

  /** The job `enqueue` inserts; `id` is the one the insert assigns. */
  function NewJob<T>(id: string, data: T, now: int): (r: MongoJob<T>)
    ensures r.id == id && r.data == data
    ensures r.enqueueTimestamp == now && r.tries == 0 && r.lastDequeueTimestamp == 0 && r.batch.None?
  {
    MongoJob(id, data, now, 0, 0, None)
  }

  /** The jobs `enqueueMany` inserts: one clock reading for all of them. */
  function NewJobs<T>(ids: seq<string>, data: seq<T>, now: int): (r: seq<MongoJob<T>>)
    requires |ids| == |data|
    ensures |r| == |data|
    ensures forall i :: 0 <= i < |r| ==> r[i] == NewJob(ids[i], data[i], now)
  {
    seq(|data|, i requires 0 <= i < |data| => NewJob(ids[i], data[i], now))
  }

  /** `toModelJob`: only `id` and `data` are handed out. */
  function ToModelJob<T>(job: MongoJob<T>): (r: Job<T>)
    ensures r.id == job.id && r.data == job.data
  {
    Job(job.id, job.data)
  }

  /** `getDequeueFindParameters`: the filter bounds and the update values. */
  datatype DequeueParameters = DequeueParameters(maxTries: int, maximumLastDequeueTimestamp: int, now: int, batch: Option<string>)

  function DequeueFindParameters(maxTries: int, processTimeout: int, now: int, batch: Option<string>): (p: DequeueParameters)
    ensures p.maxTries == maxTries && p.now == now && p.batch == batch
    ensures p.maximumLastDequeueTimestamp + processTimeout == now
  {
    DequeueParameters(maxTries, now - processTimeout, now, batch)
  }

  /** The filter: tries left, and not dequeued within the process timeout. */
  predicate Eligible<T>(p: DequeueParameters, job: MongoJob<T>) {
    job.tries < p.maxTries && job.lastDequeueTimestamp <= p.maximumLastDequeueTimestamp
  }

  /** The update: `$inc` of `tries` and `$set` of the dequeue time and the
      batch. */
  function MarkDequeued<T>(p: DequeueParameters, job: MongoJob<T>): (r: MongoJob<T>)
    ensures r.tries == job.tries + 1 && r.lastDequeueTimestamp == p.now && r.batch == p.batch
    ensures r.id == job.id && r.data == job.data && r.enqueueTimestamp == job.enqueueTimestamp
  {
    job.(tries := job.tries + 1, lastDequeueTimestamp := p.now, batch := p.batch)
  }

  /** A job that was just dequeued stays ineligible until the process
      timeout has passed. */
  lemma DequeuedJobIneligible<T>(maxTries: int, processTimeout: int, now: int, batch: Option<string>, job: MongoJob<T>)
    requires processTimeout > 0
    ensures !Eligible(DequeueFindParameters(maxTries, processTimeout, now, batch), MarkDequeued(DequeueFindParameters(maxTries, processTimeout, now, batch), job))
  {
  }

  /** The sort order of `dequeue`: by enqueue time, then last dequeue time,
      then tries. */
  predicate SortsBefore<T>(a: MongoJob<T>, b: MongoJob<T>) {
    || a.enqueueTimestamp < b.enqueueTimestamp
    || (a.enqueueTimestamp == b.enqueueTimestamp && a.lastDequeueTimestamp < b.lastDequeueTimestamp)
    || (a.enqueueTimestamp == b.enqueueTimestamp && a.lastDequeueTimestamp == b.lastDequeueTimestamp && a.tries < b.tries)
  }

  /** The position of the eligible job `dequeue` takes: none sorts before
      it, and among equals the first in natural order. */
  method FirstInOrder<T>(jobs: seq<MongoJob<T>>, p: DequeueParameters) returns (r: Option<nat>)
    ensures r.None? <==> forall j :: 0 <= j < |jobs| ==> !Eligible(p, jobs[j])
    ensures r.Some? ==> r.value < |jobs| && Eligible(p, jobs[r.value])
    ensures r.Some? ==> forall j :: 0 <= j < |jobs| && Eligible(p, jobs[j]) ==> !SortsBefore(jobs[j], jobs[r.value])
    ensures r.Some? ==> forall j :: 0 <= j < r.value && Eligible(p, jobs[j]) ==> SortsBefore(jobs[r.value], jobs[j])
  {
    r := None;
    var i := 0;
    while i < |jobs|
      invariant 0 <= i <= |jobs|
      invariant r.None? <==> forall j :: 0 <= j < i ==> !Eligible(p, jobs[j])
      invariant r.Some? ==> r.value < i && Eligible(p, jobs[r.value])
      invariant r.Some? ==> forall j :: 0 <= j < i && Eligible(p, jobs[j]) ==> !SortsBefore(jobs[j], jobs[r.value])
      invariant r.Some? ==> forall j :: 0 <= j < r.value && Eligible(p, jobs[j]) ==> SortsBefore(jobs[r.value], jobs[j])
    {
      if Eligible(p, jobs[i]) && (r.None? || SortsBefore(jobs[i], jobs[r.value])) {
        r := Some(i);
      }
      i := i + 1;
    }
  }

  /** `dequeue`: the chosen job is updated in place and handed out, or
      nothing happens when no job is eligible. */
  method Dequeue<T>(jobs: seq<MongoJob<T>>, maxTries: int, processTimeout: int, now: int) returns (job: Option<Job<T>>, jobs': seq<MongoJob<T>>)
    ensures job.None? <==> forall j :: 0 <= j < |jobs| ==> !Eligible(DequeueFindParameters(maxTries, processTimeout, now, None), jobs[j])
    ensures job.None? ==> jobs' == jobs
    ensures job.Some? ==> exists i :: (0 <= i < |jobs| && Eligible(DequeueFindParameters(maxTries, processTimeout, now, None), jobs[i])
      && job.value == ToModelJob(jobs[i])
      && jobs' == jobs[i := MarkDequeued(DequeueFindParameters(maxTries, processTimeout, now, None), jobs[i])]
      && (forall j :: 0 <= j < |jobs| && Eligible(DequeueFindParameters(maxTries, processTimeout, now, None), jobs[j]) ==> !SortsBefore(jobs[j], jobs[i])))
  {
    var p := DequeueFindParameters(maxTries, processTimeout, now, None);
    var chosen := FirstInOrder(jobs, p);
    match chosen
    case None =>
      job, jobs' := None, jobs;
    case Some(i) =>
      var updated := MarkDequeued(p, jobs[i]);
      job, jobs' := Some(ToModelJob(updated)), jobs[i := updated];
  }

  /** The first eligible job in natural order: a bulk `update` has no sort. */
  function FirstEligible<T>(jobs: seq<MongoJob<T>>, p: DequeueParameters): (r: Option<nat>)
    ensures r.None? <==> forall j :: 0 <= j < |jobs| ==> !Eligible(p, jobs[j])
    ensures r.Some? ==> r.value < |jobs| && Eligible(p, jobs[r.value])
    ensures r.Some? ==> forall j :: 0 <= j < r.value ==> !Eligible(p, jobs[j])
    decreases |jobs|
  {
    if |jobs| == 0 then None
    else if Eligible(p, jobs[0]) then Some(0)
    else
      match FirstEligible(jobs[1..], p)
      case None => None
      case Some(i) => Some(i + 1)
  }

  /** The bulk of `dequeueMany`: `count` single-document updates in a row. */
  function BulkDequeue<T>(jobs: seq<MongoJob<T>>, p: DequeueParameters, count: int): (r: seq<MongoJob<T>>)
    ensures |r| == |jobs|
    decreases count
  {
    if count <= 0 then jobs
    else
      match FirstEligible(jobs, p)
      case None => BulkDequeue(jobs, p, count - 1)
      case Some(i) => BulkDequeue(jobs[i := MarkDequeued(p, jobs[i])], p, count - 1)
  }

  /** How many jobs of `jobs` satisfy `f`. */
  function Count<T>(jobs: seq<MongoJob<T>>, f: MongoJob<T> -> bool): (r: nat)
    ensures r <= |jobs|
  {
    if |jobs| == 0 then 0 else (if f(jobs[0]) then 1 else 0) + Count(jobs[1..], f)
  }

  lemma {:induction false} CountUpdate<T>(jobs: seq<MongoJob<T>>, i: nat, x: MongoJob<T>, f: MongoJob<T> -> bool)
    requires i < |jobs|
    ensures Count(jobs[i := x], f) + (if f(jobs[i]) then 1 else 0) == Count(jobs, f) + (if f(x) then 1 else 0)
  {
    if i > 0 {
      assert jobs[i := x][1..] == jobs[1..][i - 1 := x];
      CountUpdate(jobs[1..], i - 1, x, f);
    } else {
      assert jobs[i := x][1..] == jobs[1..];
    }
  }

  lemma {:induction false} CountZero<T>(jobs: seq<MongoJob<T>>, f: MongoJob<T> -> bool)
    ensures Count(jobs, f) == 0 <==> forall j :: 0 <= j < |jobs| ==> !f(jobs[j])
  {
    if |jobs| > 0 {
      CountZero(jobs[1..], f);
      assert forall j :: 1 <= j < |jobs| ==> jobs[j] == jobs[1..][j - 1];
    }
  }

  function InBatch<T>(batch: string): MongoJob<T> -> bool {
    (job: MongoJob<T>) => job.batch == Some(batch)
  }

  /** The jobs the dequeue filter matches. */
  function EligibleFor<T>(p: DequeueParameters): MongoJob<T> -> bool {
    (job: MongoJob<T>) => Eligible(p, job)
  }

  /** No job the filter matches carries the batch id yet. */
  predicate OutsideBatch<T>(jobs: seq<MongoJob<T>>, p: DequeueParameters, batch: string) {
    forall j :: 0 <= j < |jobs| && Eligible(p, jobs[j]) ==> jobs[j].batch != Some(batch)
  }

  /** One update of the bulk moves one eligible job into the batch. */
  lemma DequeueStep<T>(jobs: seq<MongoJob<T>>, p: DequeueParameters, i: nat, batch: string)
    requires p.batch == Some(batch) && p.maximumLastDequeueTimestamp < p.now
    requires i < |jobs| && Eligible(p, jobs[i])
    requires OutsideBatch(jobs, p, batch)
    ensures var jobs' := jobs[i := MarkDequeued(p, jobs[i])];
      && Count(jobs', EligibleFor<T>(p)) + 1 == Count(jobs, EligibleFor<T>(p))
      && Count(jobs', InBatch(batch)) == Count(jobs, InBatch(batch)) + 1
      && OutsideBatch(jobs', p, batch)
  {
    var x := MarkDequeued(p, jobs[i]);
    CountUpdate(jobs, i, x, EligibleFor<T>(p));
    CountUpdate(jobs, i, x, InBatch(batch));
    assert !EligibleFor<T>(p)(x) && EligibleFor<T>(p)(jobs[i]);
    assert InBatch<T>(batch)(x) && !InBatch<T>(batch)(jobs[i]);
  }

  /** How many jobs `count` updates take from `eligible` candidates: each
      update takes one while any is left. */
  function Taken(count: int, eligible: nat): (r: nat)
    ensures count <= 0 ==> r == 0
    ensures count > 0 ==> r <= count && r <= eligible && (r == count || r == eligible)
  {
    if count <= 0 then 0 else if count < eligible then count else eligible
  }

  /** With a positive process timeout, each update of the bulk takes one
      more eligible job into the batch until none is left. */
  lemma {:induction false} BulkDequeueTakes<T>(jobs: seq<MongoJob<T>>, p: DequeueParameters, count: int, batch: string)
    requires p.batch == Some(batch) && p.maximumLastDequeueTimestamp < p.now
    requires OutsideBatch(jobs, p, batch)
    ensures Count(BulkDequeue(jobs, p, count), InBatch(batch)) == Count(jobs, InBatch(batch)) + Taken(count, Count(jobs, EligibleFor<T>(p)))
    decreases count, 1
  {
    if count > 0 {
      match FirstEligible(jobs, p)
      case None =>
        var eligible := EligibleFor<T>(p);
        assert forall j :: 0 <= j < |jobs| ==> !eligible(jobs[j]);
        CountZero(jobs, eligible);
        BulkDequeueTakes(jobs, p, count - 1, batch);
      case Some(i) =>
        TakesFirst(jobs, p, count, batch, i);
    }
  }

  /** The step of `BulkDequeueTakes` that updates the first eligible job. */
  lemma {:induction false} TakesFirst<T>(jobs: seq<MongoJob<T>>, p: DequeueParameters, count: int, batch: string, i: nat)
    requires p.batch == Some(batch) && p.maximumLastDequeueTimestamp < p.now
    requires OutsideBatch(jobs, p, batch)
    requires count > 0 && FirstEligible(jobs, p) == Some(i)
    ensures Count(BulkDequeue(jobs, p, count), InBatch(batch)) == Count(jobs, InBatch(batch)) + Taken(count, Count(jobs, EligibleFor<T>(p)))
    decreases count, 0
  {
    var jobs' := jobs[i := MarkDequeued(p, jobs[i])];
    assert BulkDequeue(jobs, p, count) == BulkDequeue(jobs', p, count - 1);
    DequeueStep(jobs, p, i, batch);
    BulkDequeueTakes(jobs', p, count - 1, batch);
  }

  /** `dequeueMany`: the bulk updates, then every job carrying the fresh
      batch id. */
  function DequeueMany<T>(jobs: seq<MongoJob<T>>, maxTries: int, processTimeout: int, now: int, batch: string, count: int): (r: (seq<Job<T>>, seq<MongoJob<T>>))
    ensures |r.1| == |jobs|
    ensures r.1 == BulkDequeue(jobs, DequeueFindParameters(maxTries, processTimeout, now, Some(batch)), count)
    ensures forall job :: job in r.0 ==> exists j :: 0 <= j < |r.1| && r.1[j].batch == Some(batch) && job == ToModelJob(r.1[j])
  {
    var updated := BulkDequeue(jobs, DequeueFindParameters(maxTries, processTimeout, now, Some(batch)), count);
    var loaded := InBatchJobs(updated, batch);
    var out := seq(|loaded|, i requires 0 <= i < |loaded| => ToModelJob(loaded[i]));
    assert forall k :: 0 <= k < |out| ==> out[k] == ToModelJob(loaded[k]) && loaded[k] in updated && loaded[k].batch == Some(batch);
    (out, updated)
  }

  /** `loadManyByFilter({ batch })`. */
  function InBatchJobs<T>(jobs: seq<MongoJob<T>>, batch: string): (r: seq<MongoJob<T>>)
    ensures |r| == Count(jobs, InBatch(batch))
    ensures forall x :: x in r ==> x in jobs && x.batch == Some(batch)
  {
    if |jobs| == 0 then []
    else (if jobs[0].batch == Some(batch) then [jobs[0]] else []) + InBatchJobs(jobs[1..], batch)
  }

  /** A fresh batch id with a positive process timeout: `dequeueMany(count)`
      returns `count` jobs, or every eligible job when there are fewer. */
  lemma DequeueManyCount<T>(jobs: seq<MongoJob<T>>, maxTries: int, processTimeout: int, now: int, batch: string, count: int)
    requires processTimeout > 0 && count >= 0
    requires forall j :: 0 <= j < |jobs| ==> jobs[j].batch != Some(batch)
    ensures var eligible := Count(jobs, EligibleFor<T>(DequeueFindParameters(maxTries, processTimeout, now, None)));
      |DequeueMany(jobs, maxTries, processTimeout, now, batch, count).0| == if count < eligible then count else eligible
  {
    var p := DequeueFindParameters(maxTries, processTimeout, now, Some(batch));
    var q := DequeueFindParameters(maxTries, processTimeout, now, None);
    BulkDequeueTakes(jobs, p, count, batch);
    CountZero(jobs, InBatch(batch));
    CountSame(jobs, EligibleFor<T>(p), EligibleFor<T>(q));
  }

  lemma {:induction false} CountSame<T>(jobs: seq<MongoJob<T>>, f: MongoJob<T> -> bool, g: MongoJob<T> -> bool)
    requires forall x :: f(x) == g(x)
    ensures Count(jobs, f) == Count(jobs, g)
  {
    if |jobs| > 0 {
      CountSame(jobs[1..], f, g);
    }
  }

  /** `acknowledge`: the jobs with the given ids are deleted. */
  function Acknowledge<T(!new)>(jobs: seq<MongoJob<T>>, ids: set<string>): (r: seq<MongoJob<T>>)
    ensures forall x :: x in r <==> x in jobs && x.id !in ids
  {
    if |jobs| == 0 then []
    else
      var rest := Acknowledge(jobs[1..], ids);
      assert forall x :: x in jobs <==> x == jobs[0] || x in jobs[1..];
      (if jobs[0].id !in ids then [jobs[0]] else []) + rest
  }

  /** One pass of `getConsumer` per dequeue result: an empty result asks for
      a backoff, a job is yielded. */
  function ConsumerPasses<T>(polls: seq<Option<Job<T>>>): (r: seq<Backoff.Pass>)
    ensures |r| == |polls|
    ensures forall i :: 0 <= i < |r| ==> !r[i].cancelled && (r[i].backoff <==> polls[i].None?)
  {
    seq(|polls|, i requires 0 <= i < |polls| => Backoff.Pass(false, polls[i].None?))
  }

  /** The consumer's delay after `n` empty polls in a row: 100 ms doubled
      each time, held at 5000 ms from the sixth on. */
  lemma {:induction false} ConsumerDelays(n: nat)
    ensures Backoff.DelayAfter(ConsumerBackoff, n) == if n >= 6 then 5000 else 100 * Pow2(n)
  {
    if n > 0 {
      ConsumerDelays(n - 1);
      if n <= 6 {
        assert Pow2(1) == 2 && Pow2(2) == 4 && Pow2(3) == 8 && Pow2(4) == 16 && Pow2(5) == 32 && Pow2(6) == 64;
        assert 100 * Pow2(n) == 2 * (100 * Pow2(n - 1));
      }
    }
  }

  function Pow2(n: nat): nat {
    if n == 0 then 1 else 2 * Pow2(n - 1)
  }

  /** With the backoff started from its initial delay, every empty poll of
      the consumer waits the delay reached by the empty polls in a row
      before it, and every found job resets the delay. */
  lemma ConsumerWaits<T>(polls: seq<Option<Job<T>>>, i: nat)
    requires i < |polls|
    ensures var actions := Backoff.BackoffLoopFixed(ConsumerBackoff, ConsumerPasses(polls));
      |actions| == |polls| &&
      (polls[i].Some? ==> actions[i] == Backoff.ResetDelay) &&
      (polls[i].None? ==> actions[i] == Backoff.Wait(Some(Backoff.DelayAfter(ConsumerBackoff, Backoff.Streak(ConsumerPasses(polls), i, 0)))))
  {
    var passes := ConsumerPasses(polls);
    var actions := Backoff.BackoffLoopFixed(ConsumerBackoff, passes);
    if polls[i].None? {
      Backoff.LoopFixedWaits(ConsumerBackoff, passes, i);
    }
  }
}
