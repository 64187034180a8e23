/** What one run of the worker amounts to: its steps are steps of the protocol, and left alone it
    finishes or fails every item of its batch, storing one reading for each one finished. */
module IngestBatches {
  import opened Wrappers
  import opened ReadingState
  import opened IngestQueue
  import opened IngestProtocol
  import opened IngestConservation
  import opened IngestService

  /** The worker's treatment of an item is an append followed by the report that fits its outcome, or by
      none at all, as if the worker had crashed, when the report meets a database error. */
  ghost predicate Reported(o: Outside, s: System, g: Grant, turn: Turn, after: System)
    requires Enabled(o, s, AppendA(g, turn.env))
  {
    var mid := Next(o, s, AppendA(g, turn.env));
    after == if !turn.reportOk then Next(o, mid, CrashA(g))
             else if mid.flights[g].Stored? then Next(o, mid, CompleteA(g))
             else Next(o, mid, FailA(g, turn.reason))
  }

  lemma WorkerFollowsProtocol(o: Outside, maxAttempts: int, k: Work, s: System, id: ItemId, it: Item, turn: Turn,
                              after: System)
    requires s.store == k.store && s.queue == k.queue
    requires id in s.queue && s.queue[id].payload == it.payload
    requires (id, it.attempts) in s.flights && s.flights[(id, it.attempts)] == Working(ReadingTime(it, turn.env.now))
    requires Enabled(o, s, AppendA((id, it.attempts), turn.env)) && Reported(o, s, (id, it.attempts), turn, after)
    ensures var done := OneDone(o, maxAttempts, k, id, it, turn);
      done.store == after.store && done.queue == after.queue
  {
  }

  // --- Alone ----------------------------------------------------------------------------------

  /** The item's payload decodes and its reading is stored. */
  ghost predicate Stores(o: Outside, store: State, it: Item, turn: Turn) {
    && o.decode(it.payload).Some?
    && AppendSucceeds(o.w, store, ToReading(o.decode(it.payload).value, ReadingTime(it, turn.env.now)), turn.env)
  }

  /** What the worker makes of a leased item: still leased when it could not report, and else finished or
      failed as its reading was stored or not. */
  ghost predicate Settled(it: Item, stored: bool, turn: Turn) {
    && it.status == (if !turn.reportOk then Leased else if stored then Finished else Failed)
    && (it.status.Failed? ==> it.lastError == turn.reason)
  }

  function Count(b: bool): nat {
    if b then 1 else 0
  }

  /** How one item moves the counters, the index and the queue. */
  lemma OneSettles(o: Outside, maxAttempts: int, k: Work, id: ItemId, it: Item, turn: Turn)
    requires id in k.queue && k.queue[id].status.Leased?
    ensures var k', stored := OneDone(o, maxAttempts, k, id, it, turn), Stores(o, k.store, it, turn);
      && OneMoved(k.queue, k'.queue, id) && Settled(k'.queue[id], stored, turn)
      && |k'.store.index| == |k.store.index| + Count(stored)
      && k'.summary.leased == k.summary.leased
      && k'.summary.failed == k.summary.failed + Count(!stored)
      && k'.summary.processed == k.summary.processed + Count(stored && turn.reportOk)
      && k'.summary.errors == k.summary.errors + Count(!(stored && turn.reportOk))
  {
  }

  /** The row shows the submission column by column, at its own time or this one, in the shard of that day. */
  ghost predicate SubmissionShows(o: Outside, row: IndexRow, sub: Submission, time: int) {
    && row.collector == sub.collector && row.queueCount == sub.queueCount && row.durationMs == sub.durationMs
    && row.faultCode == sub.faultCode && row.ts == (if sub.ts != 0 then sub.ts else time)
    && row.createdAt == time && row.shardId == ShardId("readings", o.w.day(row.ts))
  }

  /** What is stored for an item is its submission, value by value, at the submitted time or else when the item
      was leased, or else now; the index row shows that, and a finished item names the place. */
  lemma StoresSubmission(o: Outside, maxAttempts: int, k: Work, id: ItemId, it: Item, turn: Turn)
    requires id in k.queue && k.queue[id].status.Leased? && Stores(o, k.store, it, turn)
    ensures var done, sub := OneDone(o, maxAttempts, k, id, it, turn), o.decode(it.payload).value;
      var time := if it.leasedAt.Some? && it.leasedAt.value != 0 then it.leasedAt.value else turn.env.now;
      && turn.env.newId in done.store.index
      && SubmissionShows(o, done.store.index[turn.env.newId], sub, time)
      && (turn.reportOk ==>
            var row := done.store.index[turn.env.newId];
            done.queue[id] == k.queue[id].(status := Finished, shardId := Some(row.shardId), lineNo := row.lineNo))
  {
  }

  ghost predicate OneMoved(q: Queue, q': Queue, id: ItemId) {
    q'.Keys == q.Keys && forall other :: other in q && other != id ==> q'[other] == q[other]
  }

  lemma FinishedGrow(q: Queue, q': Queue, id: ItemId)
    requires OneMoved(q, q', id) && id in q && q[id].status.Leased?
    ensures |FinishedIds(q')| == |FinishedIds(q)| + Count(q'[id].status.Finished?)
  {
    if q'[id].status.Finished? {
      assert FinishedIds(q') == FinishedIds(q) + {id};
    } else {
      assert FinishedIds(q') == FinishedIds(q);
    }
  }

  ghost predicate Distinct(ids: seq<ItemId>) {
    forall i, j :: 0 <= i < j < |ids| ==> ids[i] != ids[j]
  }

  /** Which of the first n items had their reading stored. */
  ghost function Outcomes(o: Outside, maxAttempts: int, start: Work, ids: seq<ItemId>, items: seq<Item>,
                          turns: nat -> Turn, n: nat)
    : (stored: seq<bool>)
    requires n <= |ids| == |items|
    ensures |stored| == n
  {
    if n == 0 then []
    else
      Outcomes(o, maxAttempts, start, ids, items, turns, n - 1)
      + [Stores(o, FirstDone(o, maxAttempts, start, ids, items, turns, n - 1).store, items[n - 1], turns(n - 1))]
  }

  function Trues(b: seq<bool>): (n: nat)
    ensures n <= |b|
  {
    if b == [] then 0 else Trues(b[..|b| - 1]) + Count(b[|b| - 1])
  }

  lemma TruesSnoc(b: seq<bool>, last: bool)
    ensures Trues(b + [last]) == Trues(b) + Count(last)
  {
    assert (b + [last])[..|b|] == b;
  }

  /** After as many items as there are outcomes: those settled, the rest still leased, and everything else
      as it was. */
  ghost predicate QueueAfter(start: Queue, ids: seq<ItemId>, turns: nat -> Turn, stored: seq<bool>, q: Queue) {
    && |stored| <= |ids| && q.Keys == start.Keys
    && (forall i :: 0 <= i < |stored| ==> ids[i] in q && Settled(q[ids[i]], stored[i], turns(i)))
    && (forall i :: |stored| <= i < |ids| ==> ids[i] in q && q[ids[i]].status.Leased?)
    && (forall id :: id in q && id !in ids ==> q[id] == start[id])
  }

  /** The counters, the index and the queue in step with the outcomes so far. */
  ghost predicate Tallied(start: Work, k: Work, stored: seq<bool>) {
    && k.summary.leased == start.summary.leased
    && k.summary.failed == start.summary.failed + |stored| - Trues(stored)
    && k.summary.processed + k.summary.errors == start.summary.processed + start.summary.errors + |stored|
    && |k.store.index| == |start.store.index| + Trues(stored)
    && |FinishedIds(k.queue)| + start.summary.processed == |FinishedIds(start.queue)| + k.summary.processed
  }

  lemma QueueMoves(start: Queue, ids: seq<ItemId>, turns: nat -> Turn, stored: seq<bool>, last: bool, q: Queue,
                   q': Queue)
    requires |stored| < |ids| && Distinct(ids) && QueueAfter(start, ids, turns, stored, q)
    requires OneMoved(q, q', ids[|stored|]) && Settled(q'[ids[|stored|]], last, turns(|stored|))
    ensures QueueAfter(start, ids, turns, stored + [last], q')
  {
  }

  /** The n-th item, after those before it. */
  lemma OneMore(o: Outside, maxAttempts: int, start: Work, ids: seq<ItemId>, turns: nat -> Turn, stored: seq<bool>,
                k: Work, it: Item)
    requires |stored| < |ids| && Distinct(ids) && QueueAfter(start.queue, ids, turns, stored, k.queue)
    requires Tallied(start, k, stored)
    ensures var n := |stored|;
      var k', last := OneDone(o, maxAttempts, k, ids[n], it, turns(n)), Stores(o, k.store, it, turns(n));
      QueueAfter(start.queue, ids, turns, stored + [last], k'.queue) && Tallied(start, k', stored + [last])
  {
    var n := |stored|;
    var k', last := OneDone(o, maxAttempts, k, ids[n], it, turns(n)), Stores(o, k.store, it, turns(n));
    OneSettles(o, maxAttempts, k, ids[n], it, turns(n));
    FinishedGrow(k.queue, k'.queue, ids[n]);
    QueueMoves(start.queue, ids, turns, stored, last, k.queue, k'.queue);
    TruesSnoc(stored, last);
  }

  lemma {:induction false} BatchProgress(o: Outside, maxAttempts: int, start: Work, ids: seq<ItemId>, items: seq<Item>,
                                         turns: nat -> Turn, n: nat)
    requires n <= |ids| == |items| && Distinct(ids)
    requires QueueAfter(start.queue, ids, turns, [], start.queue)
    ensures var k, stored := FirstDone(o, maxAttempts, start, ids, items, turns, n),
                             Outcomes(o, maxAttempts, start, ids, items, turns, n);
      QueueAfter(start.queue, ids, turns, stored, k.queue) && Tallied(start, k, stored)
  {
    if n > 0 {
      BatchProgress(o, maxAttempts, start, ids, items, turns, n - 1);
      OneMore(o, maxAttempts, start, ids, turns, Outcomes(o, maxAttempts, start, ids, items, turns, n - 1),
              FirstDone(o, maxAttempts, start, ids, items, turns, n - 1), items[n - 1]);
    }
  }

  lemma JustLeasedProgress(k: Work, now: int, ttl: int, limit: int, turns: nat -> Turn)
    ensures var start, ids := JustLeased(k, now, ttl, limit), Batch(k.queue, now, limit);
      && QueueAfter(start.queue, ids, turns, [], start.queue)
      && FinishedIds(start.queue) == FinishedIds(k.queue) && Distinct(ids)
  {
    BatchDistinct(k.queue, now, limit);
    var ids := Batch(k.queue, now, limit);
    forall i, j | 0 <= i < j < |ids|
      ensures ids[i] != ids[j]
    {
      assert ids[j] !in ids[..j] && ids[i] == ids[..j][i];
    }
  }

  /** A worker left alone, whose context ends after n items, accounts for every item it leased: those it did
      not come to are still leased, and so is one whose report met a database error; every other one is
      finished or failed as its reading was stored or not. Every stored reading, reported or not, has added
      one row to the index. */
  lemma BatchAccountsForItems(o: Outside, maxAttempts: int, k: Work, now: int, ttl: int, limit: int, turns: nat -> Turn,
                              n: nat)
    requires n <= |Batch(k.queue, now, limit)|
    ensures var ids := Batch(k.queue, now, limit);
      && (forall i :: 0 <= i < |ids| ==> ids[i] in k.queue)
      && var start, items := JustLeased(k, now, ttl, limit), CopiesOf(k.queue, ids, now, ttl);
         var stored := Outcomes(o, maxAttempts, start, ids, items, turns, n);
         var done := BatchDone(o, maxAttempts, k, now, ttl, limit, turns, n);
         && done.summary.leased == |ids| <= (if limit > 0 then limit else 50)
         && done.summary.processed + done.summary.errors == n
         && done.summary.failed == n - Trues(stored) && |done.store.index| == |k.store.index| + Trues(stored)
         && |FinishedIds(done.queue)| == |FinishedIds(k.queue)| + done.summary.processed
         && QueueAfter(start.queue, ids, turns, stored, done.queue)
  {
    var ids := Batch(k.queue, now, limit);
    BatchDistinct(k.queue, now, limit);
    OldestAreOldest(k.queue, EligibleIds(k.queue, now), Limit(limit));
    JustLeasedProgress(k, now, ttl, limit, turns);
    BatchProgress(o, maxAttempts, JustLeased(k, now, ttl, limit), ids, CopiesOf(k.queue, ids, now, ttl), turns, n);
  }
}
