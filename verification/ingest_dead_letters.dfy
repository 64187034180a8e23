/** The dead letters of a batch: which items get one, what it says, and that requeueing brings its item back. */
module IngestDeadLetters {
  import opened Wrappers
  import opened ReadingState
  import opened IngestQueue
  import opened IngestProtocol
  import opened IngestService
  import opened IngestBatches
  import LeaseRuns

  /** The item is given up: its payload does not decode, or its append failed with its attempts used up. */
  ghost predicate GivenUp(o: Outside, maxAttempts: int, it: Item, stored: bool) {
    o.decode(it.payload).None? || (!stored && it.attempts >= maxAttempts)
  }

  /** Which of the items with these outcomes are given up. */
  ghost function AllGivenUp(o: Outside, maxAttempts: int, items: seq<Item>, stored: seq<bool>): (r: seq<bool>)
    requires |stored| <= |items|
    ensures |r| == |stored| && forall i :: 0 <= i < |r| ==> r[i] == GivenUp(o, maxAttempts, items[i], stored[i])
  {
    seq(|stored|, i requires 0 <= i < |stored| => GivenUp(o, maxAttempts, items[i], stored[i]))
  }

  /** What a dead letter says. */
  predicate Says(f: Failure, id: ItemId, it: Item, turn: Turn) {
    && f.taskType == Text("ingest") && f.target == Some(id) && f.payload == it.payload && f.lastError == turn.reason
    && f.attempts == it.attempts && f.failedAt == turn.env.now && !f.resolved
  }

  ghost predicate Unused(before: map<FailureId, Failure>, turns: nat -> Turn, n: nat) {
    && (forall i: nat :: i < n ==> turns(i).failureId !in before)
    && forall i: nat, j: nat :: i < j < n ==> turns(i).failureId != turns(j).failureId
  }

  /** Turn i writes a dead letter. */
  ghost predicate Writes(turns: nat -> Turn, given: seq<bool>, i: nat)
    requires i < |given|
  {
    given[i] && turns(i).recordOk
  }

  /** The rows added are exactly the dead letters of the items given up that could be written. */
  ghost predicate RowsAdded(before: map<FailureId, Failure>, after: map<FailureId, Failure>, ids: seq<ItemId>,
                            items: seq<Item>, turns: nat -> Turn, given: seq<bool>)
    requires |given| <= |ids| == |items|
  {
    && (forall f :: f in before ==> f in after && after[f] == before[f])
    && (forall i: nat :: i < |given| && Writes(turns, given, i) ==>
          turns(i).failureId in after && Says(after[turns(i).failureId], ids[i], items[i], turns(i)))
    && (forall f :: f in after && f !in before ==>
          exists i: nat :: i < |given| && Writes(turns, given, i) && turns(i).failureId == f)
  }

  /** One item: the counter moves exactly when it is given up, and then its dead letter is written, if it can
      be. */
  lemma OneGivenUp(o: Outside, maxAttempts: int, k: Work, id: ItemId, it: Item, turn: Turn)
    requires turn.failureId !in k.failures
    ensures var k', given := OneDone(o, maxAttempts, k, id, it, turn),
                             GivenUp(o, maxAttempts, it, Stores(o, k.store, it, turn));
      && k'.summary.deadLettered == k.summary.deadLettered + Count(given)
      && (given && turn.recordOk ==> turn.failureId in k'.failures && Says(k'.failures[turn.failureId], id, it, turn)
                                     && k'.failures == k.failures[turn.failureId := k'.failures[turn.failureId]])
      && (!(given && turn.recordOk) ==> k'.failures == k.failures)
  {
  }

  lemma WritesMore(turns: nat -> Turn, given: seq<bool>, last: bool)
    ensures forall i: nat :: i < |given| ==> (Writes(turns, given + [last], i) <==> Writes(turns, given, i))
    ensures Writes(turns, given + [last], |given|) <==> last && turns(|given|).recordOk
  {
  }

  /** A turn that writes none. */
  lemma NoRowMore(before: map<FailureId, Failure>, mid: map<FailureId, Failure>, ids: seq<ItemId>, items: seq<Item>,
                  turns: nat -> Turn, given: seq<bool>, last: bool)
    requires |given| < |ids| == |items| && RowsAdded(before, mid, ids, items, turns, given)
    requires !(last && turns(|given|).recordOk)
    ensures RowsAdded(before, mid, ids, items, turns, given + [last])
  {
    WritesMore(turns, given, last);
    forall f | f in mid && f !in before
      ensures exists i: nat :: i < |given + [last]| && Writes(turns, given + [last], i) && turns(i).failureId == f
    {
      var i: nat :| i < |given| && Writes(turns, given, i) && turns(i).failureId == f;
      assert Writes(turns, given + [last], i);
    }
  }

  /** A turn that writes one under an identifier not in use. */
  lemma OneRowMore(before: map<FailureId, Failure>, mid: map<FailureId, Failure>, ids: seq<ItemId>, items: seq<Item>,
                   turns: nat -> Turn, given: seq<bool>, row: Failure)
    requires |given| < |ids| == |items| && RowsAdded(before, mid, ids, items, turns, given)
    requires turns(|given|).recordOk && turns(|given|).failureId !in mid
    requires Says(row, ids[|given|], items[|given|], turns(|given|))
    ensures RowsAdded(before, mid[turns(|given|).failureId := row], ids, items, turns, given + [true])
  {
    var more, n := given + [true], |given|;
    var after := mid[turns(n).failureId := row];
    WritesMore(turns, given, true);
    forall i: nat | i < |more| && Writes(turns, more, i)
      ensures turns(i).failureId in after && Says(after[turns(i).failureId], ids[i], items[i], turns(i))
    {
      if i < n {
        assert Writes(turns, given, i) && turns(i).failureId in mid;
      }
    }
    forall f | f in after && f !in before
      ensures exists i: nat :: i < |more| && Writes(turns, more, i) && turns(i).failureId == f
    {
      if f in mid {
        var i: nat :| i < n && Writes(turns, given, i) && turns(i).failureId == f;
        assert Writes(turns, more, i);
      } else {
        assert Writes(turns, more, n) && turns(n).failureId == f;
      }
    }
  }

  lemma NotWritten(before: map<FailureId, Failure>, after: map<FailureId, Failure>, ids: seq<ItemId>, items: seq<Item>,
                   turns: nat -> Turn, given: seq<bool>, n: nat)
    requires |given| <= |ids| == |items| && RowsAdded(before, after, ids, items, turns, given)
    requires |given| < n && Unused(before, turns, n)
    ensures turns(|given|).failureId !in after
  {
  }

  /** As many dead letters are counted as items were given up, and the rows added are exactly theirs, as far as
      they could be written, each saying what it is about. */
  ghost predicate Lettered(o: Outside, maxAttempts: int, start: Work, k: Work, ids: seq<ItemId>, items: seq<Item>,
                           turns: nat -> Turn, stored: seq<bool>)
    requires |stored| <= |ids| == |items|
  {
    var given := AllGivenUp(o, maxAttempts, items, stored);
    && k.summary.deadLettered == start.summary.deadLettered + Trues(given)
    && RowsAdded(start.failures, k.failures, ids, items, turns, given)
  }

  lemma OneDeadLetter(o: Outside, maxAttempts: int, start: Work, ids: seq<ItemId>, items: seq<Item>,
                      turns: nat -> Turn, stored: seq<bool>, k: Work)
    requires |stored| < |ids| == |items| && Unused(start.failures, turns, |stored| + 1)
    requires Lettered(o, maxAttempts, start, k, ids, items, turns, stored)
    ensures var n := |stored|;
      Lettered(o, maxAttempts, start, OneDone(o, maxAttempts, k, ids[n], items[n], turns(n)), ids, items, turns,
               stored + [Stores(o, k.store, items[n], turns(n))])
  {
    var n := |stored|;
    var last := Stores(o, k.store, items[n], turns(n));
    var k' := OneDone(o, maxAttempts, k, ids[n], items[n], turns(n));
    var given, lost := AllGivenUp(o, maxAttempts, items, stored), GivenUp(o, maxAttempts, items[n], last);
    NotWritten(start.failures, k.failures, ids, items, turns, given, n + 1);
    OneGivenUp(o, maxAttempts, k, ids[n], items[n], turns(n));
    if lost && turns(n).recordOk {
      OneRowMore(start.failures, k.failures, ids, items, turns, given, k'.failures[turns(n).failureId]);
    } else {
      NoRowMore(start.failures, k.failures, ids, items, turns, given, lost);
    }
    TruesSnoc(given, lost);
    assert AllGivenUp(o, maxAttempts, items, stored + [last]) == given + [lost];
  }

  lemma UnusedFewer(failures: map<FailureId, Failure>, turns: nat -> Turn, n: nat)
    requires n > 0 && Unused(failures, turns, n)
    ensures Unused(failures, turns, n - 1)
  {
  }

  lemma OneItemMore(o: Outside, maxAttempts: int, start: Work, ids: seq<ItemId>, items: seq<Item>, turns: nat -> Turn,
                    n: nat)
    requires 0 < n <= |ids| == |items| && Unused(start.failures, turns, n)
    requires Lettered(o, maxAttempts, start, FirstDone(o, maxAttempts, start, ids, items, turns, n - 1), ids, items,
                      turns, Outcomes(o, maxAttempts, start, ids, items, turns, n - 1))
    ensures Lettered(o, maxAttempts, start, FirstDone(o, maxAttempts, start, ids, items, turns, n), ids, items, turns,
                     Outcomes(o, maxAttempts, start, ids, items, turns, n))
  {
    OneDeadLetter(o, maxAttempts, start, ids, items, turns, Outcomes(o, maxAttempts, start, ids, items, turns, n - 1),
                  FirstDone(o, maxAttempts, start, ids, items, turns, n - 1));
  }

  /** So it is over any batch, with identifiers not in use. */
  lemma {:induction false} DeadLettersOf(o: Outside, maxAttempts: int, start: Work, ids: seq<ItemId>, items: seq<Item>,
                                         turns: nat -> Turn, n: nat)
    requires n <= |ids| == |items| && Unused(start.failures, turns, n)
    ensures Lettered(o, maxAttempts, start, FirstDone(o, maxAttempts, start, ids, items, turns, n), ids, items, turns,
                     Outcomes(o, maxAttempts, start, ids, items, turns, n))
  {
    if n == 0 {
      NoneYet(o, maxAttempts, start, ids, items, turns);
    } else {
      UnusedFewer(start.failures, turns, n);
      DeadLettersOf(o, maxAttempts, start, ids, items, turns, n - 1);
      OneItemMore(o, maxAttempts, start, ids, items, turns, n);
    }
  }

  lemma NoneYet(o: Outside, maxAttempts: int, start: Work, ids: seq<ItemId>, items: seq<Item>, turns: nat -> Turn)
    requires |ids| == |items|
    ensures Lettered(o, maxAttempts, start, start, ids, items, turns, [])
  {
  }

  /** Of a batch that leases and works off n items: an item gets a dead letter exactly when its payload does not
      decode, or its append failed at an attempt that, counting this one, reaches the limit. */
  lemma BatchDeadLetters(o: Outside, maxAttempts: int, k: Work, now: int, ttl: int, limit: int, turns: nat -> Turn,
                         n: nat)
    requires n <= |Batch(k.queue, now, limit)| && Unused(k.failures, turns, n)
    ensures var ids := Batch(k.queue, now, limit);
      && (forall i :: 0 <= i < |ids| ==> ids[i] in k.queue)
      && var start, items := JustLeased(k, now, ttl, limit), CopiesOf(k.queue, ids, now, ttl);
         var stored := Outcomes(o, maxAttempts, start, ids, items, turns, n);
         var given := AllGivenUp(o, maxAttempts, items, stored);
         var done := BatchDone(o, maxAttempts, k, now, ttl, limit, turns, n);
         && done.summary.deadLettered == Trues(given)
         && RowsAdded(k.failures, done.failures, ids, items, turns, given)
         && (forall i: nat :: i < n ==>
               (given[i] <==> o.decode(k.queue[ids[i]].payload).None?
                              || (!stored[i] && k.queue[ids[i]].attempts + 1 >= maxAttempts)))
         && (forall i: nat :: i < n ==> items[i].payload == k.queue[ids[i]].payload)
         && (forall i: nat :: i < n ==> items[i].attempts == k.queue[ids[i]].attempts + 1)
  {
    var ids := Batch(k.queue, now, limit);
    BatchDistinct(k.queue, now, limit);
    DeadLettersOf(o, maxAttempts, JustLeased(k, now, ttl, limit), ids, CopiesOf(k.queue, ids, now, ttl), turns, n);
  }

  lemma RowIsOf(before: map<FailureId, Failure>, after: map<FailureId, Failure>, ids: seq<ItemId>, items: seq<Item>,
                turns: nat -> Turn, given: seq<bool>, i: nat)
    requires i < |given| <= |ids| == |items| && RowsAdded(before, after, ids, items, turns, given)
    requires Unused(before, turns, |given|) && turns(i).failureId in after
    ensures Says(after[turns(i).failureId], ids[i], items[i], turns(i))
  {
    var j: nat :| j < |given| && Writes(turns, given, j) && turns(j).failureId == turns(i).failureId;
    assert i == j;
  }

  lemma BatchKeepsItems(o: Outside, maxAttempts: int, k: Work, now: int, ttl: int, limit: int, turns: nat -> Turn,
                        n: nat)
    requires n <= |Batch(k.queue, now, limit)|
    ensures BatchDone(o, maxAttempts, k, now, ttl, limit, turns, n).queue.Keys == k.queue.Keys
  {
    BatchAccountsForItems(o, maxAttempts, k, now, ttl, limit, turns, n);
  }

  /** The dead letter that turn i of a batch added. */
  lemma DeadLetterSays(o: Outside, maxAttempts: int, k: Work, now: int, ttl: int, limit: int, turns: nat -> Turn,
                       n: nat, i: nat)
    requires i < n <= |Batch(k.queue, now, limit)| && Unused(k.failures, turns, n)
    requires turns(i).failureId in BatchDone(o, maxAttempts, k, now, ttl, limit, turns, n).failures
    ensures var id := Batch(k.queue, now, limit)[i];
      var f := BatchDone(o, maxAttempts, k, now, ttl, limit, turns, n).failures[turns(i).failureId];
      id in k.queue && f == Failure(Text("ingest"), Some(id), k.queue[id].payload, turns(i).reason,
                                    k.queue[id].attempts + 1, turns(i).env.now, false)
  {
    var ids, done := Batch(k.queue, now, limit), BatchDone(o, maxAttempts, k, now, ttl, limit, turns, n);
    BatchDeadLetters(o, maxAttempts, k, now, ttl, limit, turns, n);
    var start, items := JustLeased(k, now, ttl, limit), CopiesOf(k.queue, ids, now, ttl);
    var given := AllGivenUp(o, maxAttempts, items, Outcomes(o, maxAttempts, start, ids, items, turns, n));
    RowIsOf(k.failures, done.failures, ids, items, turns, given, i);
  }

  /** Requeueing what a dead letter names makes that item pending again, and a later batch that asks for as many
      items as there are holds it. */
  lemma DeadLetterComesBack(o: Outside, maxAttempts: int, k: Work, now: int, ttl: int, limit: int, turns: nat -> Turn,
                            n: nat, i: nat, requeued: int, later: int, size: int)
    requires i < n <= |Batch(k.queue, now, limit)| && Unused(k.failures, turns, n) && |k.queue.Keys| <= size
    requires turns(i).failureId in BatchDone(o, maxAttempts, k, now, ttl, limit, turns, n).failures
    ensures var done := BatchDone(o, maxAttempts, k, now, ttl, limit, turns, n);
      var target := done.failures[turns(i).failureId].target;
      && target == Some(Batch(k.queue, now, limit)[i])
      && var q' := LeaseRuns.Next(done.queue, LeaseRuns.RequeueOp(requeued, target.value));
         target.value in q' && q'[target.value].status.Pending? && target.value in Batch(q', later, size)
  {
    DeadLetterSays(o, maxAttempts, k, now, ttl, limit, turns, n, i);
    BatchKeepsItems(o, maxAttempts, k, now, ttl, limit, turns, n);
    LeaseRuns.RequeuedIsLeased(BatchDone(o, maxAttempts, k, now, ttl, limit, turns, n).queue,
                               Batch(k.queue, now, limit)[i], requeued, later, size);
  }
}
