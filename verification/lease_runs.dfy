/** Runs of the queue alone, on a clock that never goes back: who holds an item, how often it was
    handed out, and why the reaper may run or not without anybody noticing. */
module LeaseRuns {
  import opened Wrappers
  import opened Lines
  import opened ReadingState
  import opened IngestQueue

  datatype Op =
    | EnqueueOp(now: int, id: ItemId, collector: Text, payload: Bytes)
    | LeaseOp(now: int, ttl: int, limit: int)
    | CompleteOp(now: int, id: ItemId, shardId: ShardId, lineNo: int)
    | FailOp(now: int, id: ItemId, reason: Text)
    | ReclaimOp(now: int)
    | RequeueOp(now: int, id: ItemId)

  ghost function Next(q: Queue, op: Op): Queue {
    match op
    case EnqueueOp(now, id, collector, payload) => Enqueued(q, id, collector, payload, now)
    case LeaseOp(now, ttl, limit) => GrantAll(q, Batch(q, now, limit), now, now + ttl)
    case CompleteOp(_, id, shardId, lineNo) => Completed(q, id, shardId, lineNo)
    case FailOp(_, id, reason) => FailedBy(q, id, reason)
    case ReclaimOp(now) => Reclaimed(q, now)
    case RequeueOp(_, id) => Requeued(q, id)
  }

  ghost predicate Grants(q: Queue, op: Op, id: ItemId) {
    op.LeaseOp? && id in Batch(q, op.now, op.limit)
  }

  lemma GrantIsEligible(q: Queue, op: Op, id: ItemId)
    requires Grants(q, op, id)
    ensures id in q && Eligible(q[id], op.now)
    ensures Next(q, op)[id] == Granted(q[id], op.now, op.now + op.ttl)
  {
    BatchDistinct(q, op.now, op.limit);
  }

  ghost predicate Run(states: seq<Queue>, ops: seq<Op>) {
    && |states| == |ops| + 1 && states[0] == map[]
    && (forall i :: 0 <= i < |ops| ==> states[i + 1] == Next(states[i], ops[i]))
    && (forall i, j :: 0 <= i < j < |ops| ==> ops[i].now <= ops[j].now)
  }

  // --- Exclusivity ----------------------------------------------------------------------------

  /** After a lease that ends at `expiry`, with the clock at `clock`: still leased until then, or
      pending with that moment past, or out of the leasing game. */
  ghost predicate Trail(q: Queue, id: ItemId, expiry: int, clock: int) {
    && id in q
    && match q[id].status
       case Leased => q[id].expiresAt == Some(expiry)
       case Pending => expiry < clock
       case _ => true
  }

  lemma StepKeepsTrail(q: Queue, op: Op, id: ItemId, expiry: int, clock: int)
    requires Trail(q, id, expiry, clock) && clock <= op.now
    requires !Grants(q, op, id) && !(op.RequeueOp? && op.id == id)
    ensures Trail(Next(q, op), id, expiry, op.now)
  {
  }

  lemma {:induction false} TrailFollowsGrant(states: seq<Queue>, ops: seq<Op>, i: nat, j: nat, id: ItemId)
    requires Run(states, ops) && i < j <= |ops| && Grants(states[i], ops[i], id)
    requires forall k :: i < k < j ==> !Grants(states[k], ops[k], id) && !(ops[k].RequeueOp? && ops[k].id == id)
    ensures Trail(states[j], id, ops[i].now + ops[i].ttl, ops[j - 1].now)
  {
    if j == i + 1 {
      GrantIsEligible(states[i], ops[i], id);
    } else {
      TrailFollowsGrant(states, ops, i, j - 1, id);
      StepKeepsTrail(states[j - 1], ops[j - 1], id, ops[i].now + ops[i].ttl, ops[j - 2].now);
    }
  }

  /** An item is granted again only after its last lease has run out, unless an operator requeued it. */
  lemma LeaseIsExclusive(states: seq<Queue>, ops: seq<Op>, i: nat, j: nat, id: ItemId)
    requires Run(states, ops) && i < j < |ops|
    requires Grants(states[i], ops[i], id) && Grants(states[j], ops[j], id)
    requires forall k :: i < k < j ==> !Grants(states[k], ops[k], id)
    ensures ops[i].now + ops[i].ttl < ops[j].now || exists k :: i < k < j && ops[k].RequeueOp? && ops[k].id == id
  {
    if forall k :: i < k < j ==> !(ops[k].RequeueOp? && ops[k].id == id) {
      TrailFollowsGrant(states, ops, i, j, id);
      GrantIsEligible(states[j], ops[j], id);
    }
  }

  // --- Attempts -------------------------------------------------------------------------------

  ghost function GrantCount(states: seq<Queue>, ops: seq<Op>, n: nat, id: ItemId): nat
    requires n <= |ops| && |states| == |ops| + 1
  {
    if n == 0 then 0
    else GrantCount(states, ops, n - 1, id) + if Grants(states[n - 1], ops[n - 1], id) then 1 else 0
  }

  lemma StepCountsAttempt(q: Queue, op: Op, id: ItemId)
    ensures id in q ==> id in Next(q, op)
    ensures id in q ==> Next(q, op)[id].attempts == q[id].attempts + if Grants(q, op, id) then 1 else 0
    ensures id !in q ==> !Grants(q, op, id) && (id in Next(q, op) ==> Next(q, op)[id].attempts == 0)
  {
    if Grants(q, op, id) {
      GrantIsEligible(q, op, id);
    }
  }

  /** The attempts column is the number of times the item was handed out. */
  lemma {:induction false} AttemptsCountGrants(states: seq<Queue>, ops: seq<Op>, n: nat, id: ItemId)
    requires Run(states, ops) && n <= |ops|
    ensures GrantCount(states, ops, n, id) == if id in states[n] then states[n][id].attempts else 0
  {
    if n > 0 {
      AttemptsCountGrants(states, ops, n - 1, id);
      StepCountsAttempt(states[n - 1], ops[n - 1], id);
    }
  }

  /** The items that are pending, or leased until a time strictly past. */
  function Waiting(q: Queue, now: int): set<ItemId> {
    set id | id in q && (q[id].status.Pending? ||
                         (q[id].status.Leased? && q[id].expiresAt.Some? && q[id].expiresAt.value < now))
  }

  /** A batch is the oldest of them, as many as asked for, or 50 when that is not positive, or all there are:
      no item left waiting is older than one handed out. */
  lemma BatchIsOldest(q: Queue, now: int, limit: int)
    ensures var ids, eligible := Batch(q, now, limit), Waiting(q, now);
      && (limit > 0 ==> |ids| == if limit < |eligible| then limit else |eligible|)
      && (limit <= 0 ==> |ids| == if 50 < |eligible| then 50 else |eligible|)
      && (forall i :: 0 <= i < |ids| ==> ids[i] in eligible && ids[i] !in ids[..i])
      && (forall i, j :: 0 <= i < j < |ids| ==> q[ids[i]].createdAt <= q[ids[j]].createdAt)
      && (forall i, id :: 0 <= i < |ids| && id in eligible && id !in ids ==> q[ids[i]].createdAt <= q[id].createdAt)
  {
    assert EligibleIds(q, now) == Waiting(q, now);
    OldestAreOldest(q, EligibleIds(q, now), Limit(limit));
    BatchDistinct(q, now, limit);
  }

  /** What each statement makes of an item. */
  lemma StepShows(q: Queue, op: Op, id: ItemId)
    requires id in q
    ensures id in Next(q, op)
    ensures var it, it' := q[id], Next(q, op)[id];
      match op
      case EnqueueOp(_, _, _, _) => it' == it
      case LeaseOp(now, ttl, limit) =>
        it' == if id in Batch(q, now, limit)
               then it.(status := Leased, leasedAt := Some(now), expiresAt := Some(now + ttl),
                        attempts := it.attempts + 1)
               else it
      case CompleteOp(_, of, shardId, lineNo) =>
        it' == if id == of && it.status.Leased?
               then it.(status := Finished, shardId := Some(shardId), lineNo := lineNo) else it
      case FailOp(_, of, reason) => it' == if id == of then it.(status := Failed, lastError := reason) else it
      case ReclaimOp(now) =>
        it' == if it.status.Leased? && it.expiresAt.Some? && it.expiresAt.value < now
               then it.(status := Pending, leasedAt := None, expiresAt := None) else it
      case RequeueOp(_, of) =>
        it' == if id == of then it.(status := Pending, leasedAt := None, expiresAt := None) else it
  {
  }

  /** Only an enqueue adds an item, and it adds a pending one that was never tried. */
  lemma NewItemShows(q: Queue, op: Op, id: ItemId)
    requires id !in q
    ensures id in Next(q, op) <==> op.EnqueueOp? && op.id == id
    ensures id in Next(q, op) ==>
      Next(q, op)[id] == Item(op.collector, op.payload, Pending, None, None, 0, Text(""), None, 0, op.now)
  {
  }

  /** An item that an operator requeued, whatever state it was in, is in every later batch that asks for as
      many items as there are, until something else happens to it. */
  lemma RequeuedIsLeased(q: Queue, id: ItemId, requeued: int, now: int, limit: int)
    requires id in q && |q.Keys| <= limit
    ensures var q' := Next(q, RequeueOp(requeued, id));
      && q'.Keys == q.Keys && id in Batch(q', now, limit)
      && q'[id] == q[id].(status := Pending, leasedAt := None, expiresAt := None)
      && forall other :: other in q && other != id ==> q'[other] == q[other]
  {
    EligibleIsLeased(Next(q, RequeueOp(requeued, id)), id, now, limit);
  }

  // --- The reaper is transparent ----------------------------------------------------------------

  /** What the LeaseOps of a run hand out, one entry each. */
  ghost function Results(q: Queue, ops: seq<Op>): seq<seq<(ItemId, Item)>>
    decreases ops
  {
    if ops == [] then []
    else HandedOut(q, ops[0]) + Results(Next(q, ops[0]), ops[1..])
  }

  ghost function HandedOut(q: Queue, op: Op): seq<seq<(ItemId, Item)>> {
    if op.LeaseOp? then [Copies(Next(q, op), Batch(q, op.now, op.limit))] else []
  }

  ghost function Copies(q: Queue, ids: seq<ItemId>): (r: seq<(ItemId, Item)>) {
    if ids == [] then []
    else (if ids[0] in q then [(ids[0], q[ids[0]])] else []) + Copies(q, ids[1..])
  }

  /** The same run without its reaper. */
  ghost function WithoutReaper(ops: seq<Op>): seq<Op> {
    if ops == [] then []
    else if ops[0].ReclaimOp? then WithoutReaper(ops[1..])
    else [ops[0]] + WithoutReaper(ops[1..])
  }

  ghost predicate ClockForward(clock: int, ops: seq<Op>)
    decreases ops
  {
    ops == [] || (clock <= ops[0].now && ClockForward(ops[0].now, ops[1..]))
  }

  /** No completion comes for an item whose lease, the reaper aside, has already run out. */
  ghost predicate TimelyOp(q: Queue, op: Op) {
    op.CompleteOp? && op.id in q ==> !Expired(q[op.id], op.now)
  }

  ghost predicate Timely(q: Queue, ops: seq<Op>)
    decreases ops
  {
    ops == [] ||
    (if ops[0].ReclaimOp? then Timely(q, ops[1..]) else TimelyOp(q, ops[0]) && Timely(Next(q, ops[0]), ops[1..]))
  }

  /** A row with and without the reaper: the same, except that an expired lease may already have been
      returned, and that lease times mean nothing on a row that is not leased. */
  ghost predicate Alike(a: Item, b: Item, clock: int) {
    && a == b.(status := a.status, leasedAt := a.leasedAt, expiresAt := a.expiresAt)
    && if a.status == b.status
       then a.status.Leased? ==> a == b
       else a.status.Pending? && b.status.Leased? && b.expiresAt.Some? && b.expiresAt.value < clock
  }

  ghost predicate Bisimilar(q: Queue, p: Queue, clock: int) {
    q.Keys == p.Keys && forall id :: id in q ==> Alike(q[id], p[id], clock)
  }

  lemma ReclaimIsInvisible(q: Queue, p: Queue, clock: int, now: int)
    requires Bisimilar(q, p, clock) && clock <= now
    ensures Bisimilar(Reclaimed(q, now), p, now)
  {
  }

  lemma SameBatch(q: Queue, p: Queue, clock: int, now: int, limit: int)
    requires Bisimilar(q, p, clock) && clock <= now
    ensures Batch(q, now, limit) == Batch(p, now, limit)
  {
    assert EligibleIds(q, now) == EligibleIds(p, now);
    OldestByCreation(q, p, EligibleIds(q, now), Limit(limit));
  }

  lemma LeaseBisimulates(q: Queue, p: Queue, clock: int, op: Op)
    requires Bisimilar(q, p, clock) && clock <= op.now && op.LeaseOp?
    ensures Bisimilar(Next(q, op), Next(p, op), op.now)
    ensures HandedOut(q, op) == HandedOut(p, op)
  {
    SameBatch(q, p, clock, op.now, op.limit);
    var ids := Batch(q, op.now, op.limit);
    BatchDistinct(q, op.now, op.limit);
    SameCopies(Next(q, op), Next(p, op), ids);
  }

  lemma {:induction false} SameCopies(q: Queue, p: Queue, ids: seq<ItemId>)
    requires forall i :: 0 <= i < |ids| ==> ids[i] in q && ids[i] in p && q[ids[i]] == p[ids[i]]
    ensures Copies(q, ids) == Copies(p, ids)
  {
    if ids != [] {
      SameCopies(q, p, ids[1..]);
    }
  }

  lemma StepBisimulates(q: Queue, p: Queue, clock: int, op: Op)
    requires Bisimilar(q, p, clock) && clock <= op.now && !op.ReclaimOp? && TimelyOp(p, op)
    ensures Bisimilar(Next(q, op), Next(p, op), op.now)
    ensures HandedOut(q, op) == HandedOut(p, op)
  {
    if op.LeaseOp? {
      LeaseBisimulates(q, p, clock, op);
    }
  }

  lemma {:induction false} ReaperInvisible(q: Queue, p: Queue, clock: int, ops: seq<Op>)
    requires Bisimilar(q, p, clock) && ClockForward(clock, ops) && Timely(p, ops)
    ensures Results(q, ops) == Results(p, WithoutReaper(ops))
    decreases ops
  {
    if ops != [] {
      var op, rest := ops[0], ops[1..];
      if op.ReclaimOp? {
        ReclaimIsInvisible(q, p, clock, op.now);
        ReaperInvisible(Reclaimed(q, op.now), p, op.now, rest);
        assert HandedOut(q, op) + Results(Next(q, op), rest) == Results(Next(q, op), rest);
      } else {
        StepBisimulates(q, p, clock, op);
        ReaperInvisible(Next(q, op), Next(p, op), op.now, rest);
        assert WithoutReaper(ops) == [op] + WithoutReaper(rest);
      }
    }
  }

  /** Wherever ReclaimExpired steps are inserted, every LeaseBatch hands out the same items with the
      same contents, as long as the clock moves forward and no completion comes after its lease ran out.
      Failures and requeues may come at any time. */
  lemma ReaperIsTransparent(q: Queue, clock: int, ops: seq<Op>)
    requires ClockForward(clock, ops) && Timely(q, ops)
    ensures Results(q, ops) == Results(q, WithoutReaper(ops))
  {
    ReaperInvisible(q, q, clock, ops);
  }

  /** A late completion does tell the two apart: the reaper has taken the item back, so it conflicts
      and the item is leased again, where without the reaper it would have been done. */
  lemma LateCompletionTells(q: Queue, id: ItemId, now: int, shardId: ShardId, lineNo: int)
    requires id in q && Expired(q[id], now)
    ensures Eligible(Next(Next(q, ReclaimOp(now)), CompleteOp(now, id, shardId, lineNo))[id], now)
    ensures !Eligible(Next(q, CompleteOp(now, id, shardId, lineNo))[id], now)
  {
  }

  ghost function After(q: Queue, ops: seq<Op>): Queue
    decreases ops
  {
    if ops == [] then q else After(Next(q, ops[0]), ops[1..])
  }

  lemma {:induction false} ResultsAppend(q: Queue, a: seq<Op>, b: seq<Op>)
    ensures Results(q, a + b) == Results(q, a) + Results(After(q, a), b)
    decreases a
  {
    if a == [] {
      assert a + b == b;
    } else {
      assert (a + b)[1..] == a[1..] + b;
      ResultsAppend(Next(q, a[0]), a[1..], b);
    }
  }

  lemma {:induction false} OldestHasAll(q: Queue, ids: set<ItemId>, n: nat, id: ItemId)
    requires ids <= q.Keys && |ids| <= n && id in ids
    ensures id in Oldest(q, ids, n)
    decreases n
  {
    var m := Earliest(q, ids);
    assert |ids - {m}| == |ids| - 1;
    if id != m {
      OldestHasAll(q, ids - {m}, n - 1, id);
    }
    assert Oldest(q, ids, n) == [m] + Oldest(q, ids - {m}, n - 1);
  }

  ghost predicate HandsOut(copies: seq<(ItemId, Item)>, id: ItemId) {
    exists k :: 0 <= k < |copies| && copies[k].0 == id
  }

  lemma HandsOutEither(a: seq<(ItemId, Item)>, b: seq<(ItemId, Item)>, id: ItemId)
    ensures HandsOut(a + b, id) <==> HandsOut(a, id) || HandsOut(b, id)
  {
    if k :| 0 <= k < |a| && a[k].0 == id {
      assert (a + b)[k].0 == id;
    }
    if k :| 0 <= k < |b| && b[k].0 == id {
      assert (a + b)[|a| + k].0 == id;
    }
    if k :| 0 <= k < |a + b| && (a + b)[k].0 == id {
      assert if k < |a| then a[k].0 == id else b[k - |a|].0 == id;
    }
  }

  lemma {:induction false} CopiesNames(q: Queue, ids: seq<ItemId>, id: ItemId)
    ensures HandsOut(Copies(q, ids), id) <==> id in ids && id in q
  {
    if ids != [] {
      CopiesNames(q, ids[1..], id);
      var head := if ids[0] in q then [(ids[0], q[ids[0]])] else [];
      HandsOutEither(head, Copies(q, ids[1..]), id);
      assert HandsOut(head, id) <==> id == ids[0] && id in q by {
        assert |head| > 0 ==> head[0].0 == ids[0];
      }
    }
  }

  lemma OneLease(q: Queue, now: int, ttl: int, limit: int)
    ensures Results(q, [LeaseOp(now, ttl, limit)]) == [Copies(Next(q, LeaseOp(now, ttl, limit)), Batch(q, now, limit))]
  {
    assert [LeaseOp(now, ttl, limit)][1..] == [];
    assert Results(Next(q, LeaseOp(now, ttl, limit)), []) == [];
  }

  lemma SkipsTo(q: Queue, op: Op, rest: seq<Op>)
    requires !op.LeaseOp?
    ensures Results(q, [op] + rest) == Results(Next(q, op), rest)
  {
    assert ([op] + rest)[1..] == rest;
    assert [] + Results(Next(q, op), rest) == Results(Next(q, op), rest);
  }

  lemma EligibleIsLeased(q: Queue, id: ItemId, now: int, limit: int)
    requires id in q && Eligible(q[id], now) && |q.Keys| <= limit
    ensures id in Batch(q, now, limit)
  {
    var eligible := EligibleIds(q, now);
    assert q.Keys == eligible + (q.Keys - eligible);
    assert |q.Keys| == |eligible| + |q.Keys - eligible|;
    assert id in eligible;
    assert |q.Keys| > 0;
    OldestHasAll(q, eligible, Limit(limit), id);
  }

  /** And conversely: after any run, one completion of an item whose lease has already run out is enough for
      a ReclaimExpired step before it to change what a later lease hands out. */
  lemma UntimelyCompletionShows(q: Queue, ops: seq<Op>, id: ItemId, now: int, shardId: ShardId, lineNo: int, ttl: int,
                                limit: int)
    requires id in After(q, ops) && Expired(After(q, ops)[id], now) && |After(q, ops).Keys| <= limit
    ensures var late, lease := CompleteOp(now, id, shardId, lineNo), LeaseOp(now, ttl, limit);
      Results(q, ops + [ReclaimOp(now), late, lease]) != Results(q, ops + [late, lease])
  {
    var p := After(q, ops);
    var late, lease := CompleteOp(now, id, shardId, lineNo), LeaseOp(now, ttl, limit);
    ResultsAppend(q, ops, [ReclaimOp(now), late, lease]);
    ResultsAppend(q, ops, [late, lease]);
    LeaseDiffers(p, id, now, shardId, lineNo, ttl, limit);
    var head, x, y := Results(q, ops), Results(p, [ReclaimOp(now), late, lease]), Results(p, [late, lease]);
    assert (head + x)[|head|..] == x && (head + y)[|head|..] == y;
  }

  lemma LeaseDiffers(p: Queue, id: ItemId, now: int, shardId: ShardId, lineNo: int, ttl: int, limit: int)
    requires id in p && Expired(p[id], now) && |p.Keys| <= limit
    ensures var late, lease := CompleteOp(now, id, shardId, lineNo), LeaseOp(now, ttl, limit);
      Results(p, [ReclaimOp(now), late, lease]) != Results(p, [late, lease])
  {
    var late, lease := CompleteOp(now, id, shardId, lineNo), LeaseOp(now, ttl, limit);
    var reaped, left := Next(Next(p, ReclaimOp(now)), late), Next(p, late);
    LateCompletionTells(p, id, now, shardId, lineNo);
    assert [ReclaimOp(now), late, lease] == [ReclaimOp(now)] + ([late] + [lease]) && [late, lease] == [late] + [lease];
    SkipsTo(p, ReclaimOp(now), [late] + [lease]);
    SkipsTo(Next(p, ReclaimOp(now)), late, [lease]);
    SkipsTo(p, late, [lease]);
    OneLease(reaped, now, ttl, limit);
    OneLease(left, now, ttl, limit);
    assert reaped.Keys == p.Keys;
    EligibleIsLeased(reaped, id, now, limit);
    NotLeased(left, id, now, limit);
    CopiesNames(Next(reaped, lease), Batch(reaped, now, limit), id);
    CopiesNames(Next(left, lease), Batch(left, now, limit), id);
  }

  lemma NotLeased(q: Queue, id: ItemId, now: int, limit: int)
    requires id in q && !Eligible(q[id], now)
    ensures id !in Batch(q, now, limit)
  {
    BatchDistinct(q, now, limit);
  }
}
