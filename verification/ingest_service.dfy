/** The ingest worker itself: lease a batch, then for each item decode, append, and report back. */
module IngestService {
  import opened Wrappers
  import opened ReadingState
  import opened IngestQueue
  import opened IngestProtocol
  import ReadingRepo

  datatype Summary = Summary(leased: nat, processed: nat, failed: nat, deadLettered: nat, errors: nat)

  /** What surrounds one item: whether the context is still live before it, what its append meets, the
      text of an error, whether the statement that reports the outcome to the queue goes through, and the
      id of a dead-letter record, should there be one, and whether that can be written. */
  datatype Turn = Turn(live: bool, env: Env, reason: Text, reportOk: bool, failureId: FailureId, recordOk: bool)

  /** Everything the worker changes. */
  datatype Work = Work(store: State, queue: Queue, failures: map<FailureId, Failure>, summary: Summary)

  function DeadLetter(id: ItemId, it: Item, turn: Turn): Failure {
    Failure(INGEST, Some(id), it.payload, turn.reason, it.attempts, turn.env.now, false)
  }

  function Recorded(failures: map<FailureId, Failure>, id: ItemId, it: Item, turn: Turn): map<FailureId, Failure> {
    if !turn.recordOk || turn.failureId in failures then failures
    else failures[turn.failureId := DeadLetter(id, it, turn)]
  }

  function ReadingTime(it: Item, clock: int): int {
    if it.leasedAt.Some? && it.leasedAt.value != 0 then it.leasedAt.value else clock
  }

  /** One item: undecodable payloads are failed and dead-lettered at once, failed appends only once the
      attempts are used up, and a stored reading finishes its item unless the lease was lost. A report that
      meets a database error leaves the queue as it was, whatever was stored. */
  ghost function OneDone(o: Outside, maxAttempts: int, k: Work, id: ItemId, it: Item, turn: Turn): Work {
    var sub, sum := o.decode(it.payload), k.summary;
    var failed := if turn.reportOk then FailedBy(k.queue, id, turn.reason) else k.queue;
    if sub.None? then
      k.(queue := failed, failures := Recorded(k.failures, id, it, turn),
         summary := sum.(failed := sum.failed + 1, deadLettered := sum.deadLettered + 1, errors := sum.errors + 1))
    else
      var (store, kept) := AppendSpec(o.w, k.store, ToReading(sub.value, ReadingTime(it, turn.env.now)), turn.env);
      if kept.None? then
        var spent := it.attempts >= maxAttempts;
        Work(store, failed, if spent then Recorded(k.failures, id, it, turn) else k.failures,
             sum.(failed := sum.failed + 1, errors := sum.errors + 1,
                  deadLettered := if spent then sum.deadLettered + 1 else sum.deadLettered))
      else
        var finished := turn.reportOk && id in k.queue && k.queue[id].status.Leased?;
        k.(store := store,
           queue := if finished then Completed(k.queue, id, kept.value.shardId, kept.value.lineNo) else k.queue,
           summary := if finished then sum.(processed := sum.processed + 1) else sum.(errors := sum.errors + 1))
  }

  /** The first n items of the batch. */
  ghost function FirstDone(o: Outside, maxAttempts: int, k: Work, ids: seq<ItemId>, items: seq<Item>,
                           turns: nat -> Turn, n: nat): Work
    requires n <= |ids| == |items|
  {
    if n == 0 then k
    else OneDone(o, maxAttempts, FirstDone(o, maxAttempts, k, ids, items, turns, n - 1), ids[n - 1], items[n - 1],
                 turns(n - 1))
  }

  class Service {
    const o: Outside
    const queue: IngestQueue.Repo
    const readings: ReadingRepo.Repo
    const maxAttempts: int

    ghost predicate Wired()
      reads this, readings
    {
      readings.w == o.w
    }

    ghost function Now(summary: Summary): Work
      reads this, queue, readings, readings.shards
    {
      Work(readings.Snapshot(), queue.queue, queue.failures, summary)
    }

    constructor (o: Outside, queue: IngestQueue.Repo, readings: ReadingRepo.Repo, maxAttempts: int)
      requires readings.w == o.w
      ensures this.o == o && this.queue == queue && this.readings == readings && this.maxAttempts == maxAttempts
      ensures Wired()
    {
      this.o, this.queue, this.readings, this.maxAttempts := o, queue, readings, maxAttempts;
    }

    method ProcessOne(id: ItemId, it: Item, turn: Turn, summary: Summary) returns (after: Summary)
      requires Wired() && !readings.shards.locked
      modifies queue, readings, readings.shards
      ensures !readings.shards.locked
      ensures Now(after) == OneDone(o, maxAttempts, old(Now(summary)), id, it, turn)
    {
      var sub := o.decode(it.payload);
      if sub.None? {
        queue.Fail(id, turn.reason, turn.reportOk);
        var _ := queue.Record(turn.failureId, DeadLetter(id, it, turn), turn.recordOk);
        return summary.(failed := summary.failed + 1, deadLettered := summary.deadLettered + 1,
                        errors := summary.errors + 1);
      }
      var stored := readings.Append(ToReading(sub.value, ReadingTime(it, turn.env.now)), turn.env);
      if stored.None? {
        after := summary.(failed := summary.failed + 1, errors := summary.errors + 1);
        queue.Fail(id, turn.reason, turn.reportOk);
        if it.attempts >= maxAttempts {
          var _ := queue.Record(turn.failureId, DeadLetter(id, it, turn), turn.recordOk);
          after := after.(deadLettered := after.deadLettered + 1);
        }
        return;
      }
      var completed := queue.Complete(id, stored.value.shardId, stored.value.lineNo, turn.reportOk);
      if !completed {
        return summary.(errors := summary.errors + 1);
      }
      return summary.(processed := summary.processed + 1);
    }

    /** Leases a batch, if the database lets it, and works through it until the context ends. */
    method ProcessBatch(now: int, ttl: int, limit: int, leaseOk: bool, turns: nat -> Turn)
      returns (summary: Summary, ghost n: nat)
      requires Wired() && !readings.shards.locked
      modifies queue, readings, readings.shards
      ensures !readings.shards.locked
      ensures !leaseOk ==> Now(summary) == old(Now(NONE))
      ensures leaseOk ==> Stopped(turns, |Batch(old(queue.queue), now, limit)|, n)
      ensures leaseOk ==> Now(summary) == BatchDone(o, maxAttempts, old(Now(NONE)), now, ttl, limit, turns, n)
    {
      ghost var k := Now(NONE);
      var ids, items := queue.LeaseBatch(now, ttl, limit, leaseOk);
      if !leaseOk {
        return NONE, 0;
      }
      assert Now(Summary(|ids|, 0, 0, 0, 0)) == JustLeased(k, now, ttl, limit);
      assert items == CopiesOf(k.queue, ids, now, ttl);
      summary, n := WorkThrough(ids, items, turns, Summary(|ids|, 0, 0, 0, 0));
    }

    method WorkThrough(ids: seq<ItemId>, items: seq<Item>, turns: nat -> Turn, counted: Summary)
      returns (summary: Summary, ghost n: nat)
      requires |items| == |ids| && Wired() && !readings.shards.locked
      modifies queue, readings, readings.shards
      ensures !readings.shards.locked
      ensures Stopped(turns, |ids|, n)
      ensures Now(summary) == FirstDone(o, maxAttempts, old(Now(counted)), ids, items, turns, n)
    {
      summary, n := counted, 0;
      var k := 0;
      ghost var start := Now(counted);
      while k < |ids|
        invariant 0 <= k <= |ids| && n == k
        invariant !readings.shards.locked
        invariant forall i :: 0 <= i < k ==> turns(i).live
        invariant Now(summary) == FirstDone(o, maxAttempts, start, ids, items, turns, k)
      {
        var turn := turns(k);
        if !turn.live {
          return;
        }
        ghost var before := Now(summary);
        summary := ProcessOne(ids[k], items[k], turn, summary);
        k := k + 1;
        n := k;
        assert FirstDone(o, maxAttempts, start, ids, items, turns, k)
            == OneDone(o, maxAttempts, before, ids[k - 1], items[k - 1], turn);
      }
    }
  }

  const NONE := Summary(0, 0, 0, 0, 0)

  /** The loop ran over n of the items: all of them, or up to the first dead context. */
  ghost predicate Stopped(turns: nat -> Turn, size: nat, n: nat) {
    n <= size && (n < size ==> !turns(n).live) && forall i :: 0 <= i < n ==> turns(i).live
  }

  /** Right after the lease: the batch granted and counted, nothing done yet. */
  ghost function JustLeased(k: Work, now: int, ttl: int, limit: int): Work {
    var ids := Batch(k.queue, now, limit);
    k.(queue := GrantAll(k.queue, ids, now, now + ttl), summary := NONE.(leased := |ids|))
  }

  ghost function CopiesOf(q: Queue, ids: seq<ItemId>, now: int, ttl: int): seq<Item>
    requires forall i :: 0 <= i < |ids| ==> ids[i] in q
  {
    seq(|ids|, i requires 0 <= i < |ids| => Granted(q[ids[i]], now, now + ttl))
  }

  ghost function BatchDone(o: Outside, maxAttempts: int, k: Work, now: int, ttl: int, limit: int, turns: nat -> Turn,
                           n: nat): Work
    requires n <= |Batch(k.queue, now, limit)|
  {
    var ids := Batch(k.queue, now, limit);
    BatchDistinct(k.queue, now, limit);
    FirstDone(o, maxAttempts, JustLeased(k, now, ttl, limit), ids, CopiesOf(k.queue, ids, now, ttl), turns, n)
  }
}
