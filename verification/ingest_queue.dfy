/** The ingest queue and the dead-letter table. Times are integers and rows with equal created_at
    are ordered by identifier, so that ORDER BY created_at means one order. */
module IngestQueue {
  import opened Wrappers
  import opened Lines
  import opened ReadingState

  type ItemId = nat
  type FailureId = Text

  datatype Status = Pending | Leased | Finished | Failed

  datatype Item = Item(
    collector: Text, payload: Bytes, status: Status, leasedAt: Option<int>, expiresAt: Option<int>, attempts: nat,
    lastError: Text, shardId: Option<ShardId>, lineNo: int, createdAt: int)

  type Queue = map<ItemId, Item>

  datatype Failure = Failure(
    taskType: Text, target: Option<ItemId>, payload: Bytes, lastError: Text, attempts: int, failedAt: int,
    resolved: bool)

  const INGEST := Text("ingest")

  // --- Order --------------------------------------------------------------------------------

  predicate Before(q: Queue, a: ItemId, b: ItemId)
    requires a in q && b in q
  {
    q[a].createdAt < q[b].createdAt || (q[a].createdAt == q[b].createdAt && a < b)
  }

  ghost predicate First(q: Queue, ids: set<ItemId>, m: ItemId)
    requires ids <= q.Keys
  {
    m in ids && forall j :: j in ids && j != m ==> Before(q, m, j)
  }

  lemma FirstExists(q: Queue, ids: set<ItemId>)
    requires ids <= q.Keys && ids != {}
    ensures exists m :: First(q, ids, m)
  {
    var x :| x in ids;
    if ids == {x} {
      assert First(q, ids, x);
    } else {
      FirstExists(q, ids - {x});
      var y :| First(q, ids - {x}, y);
      if Before(q, x, y) {
        forall j | j in ids && j != x
          ensures Before(q, x, j)
        {
          assert j in ids - {x};
        }
        assert First(q, ids, x);
      } else {
        assert First(q, ids, y);
      }
    }
  }

  lemma FirstUnique(q: Queue, ids: set<ItemId>, a: ItemId, b: ItemId)
    requires ids <= q.Keys && First(q, ids, a) && First(q, ids, b)
    ensures a == b
  {
  }

  ghost function Earliest(q: Queue, ids: set<ItemId>): (m: ItemId)
    requires ids <= q.Keys && ids != {}
    ensures First(q, ids, m)
  {
    FirstExists(q, ids);
    var m :| First(q, ids, m);
    m
  }

  /** ORDER BY created_at LIMIT n. */
  ghost function Oldest(q: Queue, ids: set<ItemId>, n: nat): (r: seq<ItemId>)
    requires ids <= q.Keys
    ensures forall k :: 0 <= k < |r| ==> r[k] in ids
    decreases n
  {
    if n == 0 || ids == {} then []
    else var m := Earliest(q, ids); [m] + Oldest(q, ids - {m}, n - 1)
  }

  lemma OldestStep(q: Queue, ids: set<ItemId>, n: nat, m: ItemId, before: seq<ItemId>)
    requires ids <= q.Keys && n > 0 && First(q, ids, m)
    ensures before + Oldest(q, ids, n) == before + [m] + Oldest(q, ids - {m}, n - 1)
  {
    FirstUnique(q, ids, m, Earliest(q, ids));
  }

  /** The result lists distinct rows from oldest to newest, as many as asked for or all there are,
      and every row left out is newer than every row listed. */
  lemma {:induction false} OldestAreOldest(q: Queue, ids: set<ItemId>, n: nat)
    requires ids <= q.Keys
    ensures var r := Oldest(q, ids, n);
      && |r| == (if n < |ids| then n else |ids|)
      && (forall i, j :: 0 <= i < j < |r| ==> Before(q, r[i], r[j]))
      && (forall i, other :: 0 <= i < |r| && other in ids && other !in r ==> Before(q, r[i], other))
  {
    if n > 0 && ids != {} {
      var m := Earliest(q, ids);
      OldestAreOldest(q, ids - {m}, n - 1);
      var rest := Oldest(q, ids - {m}, n - 1);
      assert Oldest(q, ids, n) == [m] + rest;
      assert forall j :: 0 <= j < |rest| ==> Before(q, m, rest[j]);
    }
  }

  /** Only the creation times matter. */
  lemma {:induction false} OldestByCreation(q: Queue, p: Queue, ids: set<ItemId>, n: nat)
    requires ids <= q.Keys && ids <= p.Keys
    requires forall id :: id in ids ==> p[id].createdAt == q[id].createdAt
    ensures Oldest(p, ids, n) == Oldest(q, ids, n)
  {
    if n > 0 && ids != {} {
      var m, m' := Earliest(q, ids), Earliest(p, ids);
      assert First(q, ids, m');
      FirstUnique(q, ids, m, m');
      OldestByCreation(q, p, ids - {m}, n - 1);
    }
  }

  // --- Statements -----------------------------------------------------------------------------

  predicate Expired(it: Item, now: int) {
    it.status.Leased? && it.expiresAt.Some? && it.expiresAt.value < now
  }

  predicate Eligible(it: Item, now: int) {
    it.status.Pending? || Expired(it, now)
  }

  function EligibleIds(q: Queue, now: int): set<ItemId> {
    set id | id in q && Eligible(q[id], now)
  }

  const DEFAULT_LIMIT := 50

  function Limit(limit: int): nat {
    if limit <= 0 then DEFAULT_LIMIT else limit
  }

  ghost function Batch(q: Queue, now: int, limit: int): seq<ItemId> {
    Oldest(q, EligibleIds(q, now), Limit(limit))
  }

  lemma BatchDistinct(q: Queue, now: int, limit: int)
    ensures var ids := Batch(q, now, limit);
      && (forall i :: 0 <= i < |ids| ==> ids[i] in q && Eligible(q[ids[i]], now))
      && (forall i :: 0 <= i < |ids| ==> ids[i] !in ids[..i])
  {
    var ids := Batch(q, now, limit);
    OldestAreOldest(q, EligibleIds(q, now), Limit(limit));
    forall i | 0 <= i < |ids|
      ensures ids[i] in q && Eligible(q[ids[i]], now)
    {
      assert ids[i] in EligibleIds(q, now);
    }
  }

  function Granted(it: Item, now: int, expiry: int): Item {
    it.(status := Leased, leasedAt := Some(now), expiresAt := Some(expiry), attempts := it.attempts + 1)
  }

  /** The UPDATE of every row in the list. */
  function GrantAll(q: Queue, ids: seq<ItemId>, now: int, expiry: int): Queue {
    map id | id in q :: if id in ids then Granted(q[id], now, expiry) else q[id]
  }

  lemma GrantOne(q: Queue, ids: seq<ItemId>, i: nat, now: int, expiry: int)
    requires i < |ids| && ids[i] in q && ids[i] !in ids[..i]
    ensures GrantAll(q, ids[..i], now, expiry)[ids[i]] == q[ids[i]]
    ensures GrantAll(q, ids[..i + 1], now, expiry)
         == GrantAll(q, ids[..i], now, expiry)[ids[i] := Granted(q[ids[i]], now, expiry)]
  {
    assert ids[..i + 1] == ids[..i] + [ids[i]];
  }

  function NewItem(collector: Text, payload: Bytes, now: int): Item {
    Item(collector, payload, Pending, None, None, 0, NO_TEXT, None, 0, now)
  }

  function Enqueued(q: Queue, id: ItemId, collector: Text, payload: Bytes, now: int): Queue {
    if id in q then q else q[id := NewItem(collector, payload, now)]
  }

  function Completed(q: Queue, id: ItemId, shardId: ShardId, lineNo: int): Queue {
    if id in q && q[id].status.Leased?
    then q[id := q[id].(status := Finished, shardId := Some(shardId), lineNo := lineNo)] else q
  }

  function FailedBy(q: Queue, id: ItemId, reason: Text): Queue {
    if id in q then q[id := q[id].(status := Failed, lastError := reason)] else q
  }

  function Returned(it: Item): Item {
    it.(status := Pending, leasedAt := None, expiresAt := None)
  }

  function Reclaimed(q: Queue, now: int): Queue {
    map id | id in q :: if Expired(q[id], now) then Returned(q[id]) else q[id]
  }

  function Requeued(q: Queue, id: ItemId): Queue {
    if id in q then q[id := Returned(q[id])] else q
  }

  // --- The repository ---------------------------------------------------------------------------

  class Repo {
    var queue: Queue
    var failures: map<FailureId, Failure>

    constructor ()
      ensures queue == map[] && failures == map[]
    {
      queue, failures := map[], map[];
    }

    method Enqueue(id: ItemId, collector: Text, payload: Bytes, now: int) returns (ok: bool)
      modifies this`queue
      ensures ok <==> id !in old(queue)
      ensures queue == Enqueued(old(queue), id, collector, payload, now)
      ensures ok ==> queue == old(queue)[id := Item(collector, payload, Pending, None, None, 0, Text(""), None, 0, now)]
    {
      if id in queue {
        return false;
      }
      queue := queue[id := NewItem(collector, payload, now)];
      return true;
    }

    /** SELECT ... ORDER BY created_at ASC LIMIT ?, scanning each row into an item. */
    method SelectOldest(now: int, limit: int) returns (ids: seq<ItemId>, items: seq<Item>)
      ensures ids == Batch(queue, now, limit)
      ensures |items| == |ids| && forall i :: 0 <= i < |ids| ==> ids[i] in queue && items[i] == queue[ids[i]]
    {
      ids, items := [], [];
      var rest, left := EligibleIds(queue, now), Limit(limit);
      while left > 0 && rest != {}
        invariant rest <= queue.Keys
        invariant Batch(queue, now, limit) == ids + Oldest(queue, rest, left)
        invariant |items| == |ids| && forall i :: 0 <= i < |ids| ==> ids[i] in queue && items[i] == queue[ids[i]]
        decreases left
      {
        FirstExists(queue, rest);
        ghost var w :| First(queue, rest, w);
        var m :| m in rest && forall j :: j in rest && j != m ==> Before(queue, m, j);
        OldestStep(queue, rest, left, m, ids);
        ids, items, rest, left := ids + [m], items + [queue[m]], rest - {m}, left - 1;
      }
    }

    /** Claims the oldest eligible items and hands out copies of them as they now stand, in one transaction
        that may fail. */
    method LeaseBatch(now: int, ttl: int, limit: int, dbOk: bool) returns (ids: seq<ItemId>, items: seq<Item>)
      modifies this`queue
      ensures ids == if dbOk then Batch(old(queue), now, limit) else []
      ensures queue == if dbOk then GrantAll(old(queue), ids, now, now + ttl) else old(queue)
      ensures |items| == |ids| && forall i :: 0 <= i < |ids| ==> ids[i] in queue && items[i] == queue[ids[i]]
      ensures |ids| <= if limit > 0 then limit else 50
      ensures forall id :: id in old(queue) ==>
        && id in queue
        && queue[id] == if id !in ids then old(queue)[id] else old(queue)[id].(status := Leased,
             leasedAt := Some(now), expiresAt := Some(now + ttl), attempts := old(queue)[id].attempts + 1)
    {
      if !dbOk {
        return [], [];
      }
      ids, items := SelectOldest(now, limit);
      BatchDistinct(queue, now, limit);
      OldestAreOldest(queue, EligibleIds(queue, now), Limit(limit));
      items := GrantEach(ids, items, now, now + ttl);
    }

    /** The UPDATE loop: each row and the copy in hand move together. */
    method GrantEach(ids: seq<ItemId>, copies: seq<Item>, now: int, expiry: int) returns (items: seq<Item>)
      requires forall i :: 0 <= i < |ids| ==> ids[i] in queue && ids[i] !in ids[..i]
      requires |copies| == |ids| && forall i :: 0 <= i < |ids| ==> copies[i] == queue[ids[i]]
      modifies this`queue
      ensures queue == GrantAll(old(queue), ids, now, expiry)
      ensures |items| == |ids| && forall i :: 0 <= i < |ids| ==> items[i] == queue[ids[i]]
    {
      items := copies;
      assert GrantAll(queue, [], now, expiry) == queue;
      for i := 0 to |ids|
        invariant queue == GrantAll(old(queue), ids[..i], now, expiry) && |items| == |ids|
        invariant forall k :: 0 <= k < i ==> items[k] == Granted(old(queue)[ids[k]], now, expiry)
        invariant forall k :: i <= k < |ids| ==> items[k] == old(queue)[ids[k]]
      {
        var id := ids[i];
        GrantOne(old(queue), ids, i, now, expiry);
        queue := queue[id := Granted(queue[id], now, expiry)];
        items := items[i := items[i].(status := Leased, leasedAt := Some(now), expiresAt := Some(expiry),
                                      attempts := items[i].attempts + 1)];
      }
      assert ids[..|ids|] == ids;
    }

    method Complete(id: ItemId, shardId: ShardId, lineNo: int, dbOk: bool) returns (ok: bool)
      modifies this`queue
      ensures ok <==> dbOk && id in old(queue) && old(queue)[id].status.Leased?
      ensures ok ==>
        queue == old(queue)[id := old(queue)[id].(status := Finished, shardId := Some(shardId), lineNo := lineNo)]
      ensures !ok ==> queue == old(queue)
    {
      if !dbOk || id !in queue || !queue[id].status.Leased? {
        return false;
      }
      queue := queue[id := queue[id].(status := Finished, shardId := Some(shardId), lineNo := lineNo)];
      return true;
    }

    method Fail(id: ItemId, reason: Text, dbOk: bool)
      modifies this`queue
      ensures dbOk && id in old(queue) ==>
        queue == old(queue)[id := old(queue)[id].(status := Failed, lastError := reason)]
      ensures !(dbOk && id in old(queue)) ==> queue == old(queue)
    {
      if dbOk && id in queue {
        queue := queue[id := queue[id].(status := Failed, lastError := reason)];
      }
    }

    method ReclaimExpired(now: int) returns (n: nat)
      modifies this`queue
      ensures queue == Reclaimed(old(queue), now)
      ensures forall id :: id in old(queue) ==>
        && id in queue
        && var it := old(queue)[id];
           queue[id] == if it.status.Leased? && it.expiresAt.Some? && it.expiresAt.value < now
                        then it.(status := Pending, leasedAt := None, expiresAt := None) else it
      ensures n == |set id | id in old(queue) && Expired(old(queue)[id], now)|
    {
      n := |set id | id in queue && Expired(queue[id], now)|;
      queue := map id | id in queue :: if Expired(queue[id], now) then Returned(queue[id]) else queue[id];
    }

    method Record(id: FailureId, f: Failure, dbOk: bool) returns (ok: bool)
      modifies this`failures
      ensures ok <==> dbOk && id !in old(failures)
      ensures failures == if ok then old(failures)[id := f] else old(failures)
    {
      if !dbOk || id in failures {
        return false;
      }
      failures := failures[id := f];
      return true;
    }

    /** Marks the failure resolved and, for ingest work, returns its item to pending, whatever state
        the item is in. */
    method Requeue(id: FailureId) returns (ok: bool)
      modifies this
      ensures ok <==> id in old(failures)
      ensures !ok ==> failures == old(failures) && queue == old(queue)
      ensures ok ==> failures == old(failures)[id := old(failures)[id].(resolved := true)]
      ensures ok ==> var f := old(failures)[id];
        queue == if f.taskType == INGEST && f.target.Some? then Requeued(old(queue), f.target.value) else old(queue)
      ensures ok ==> var f := old(failures)[id];
        if f.taskType == Text("ingest") && f.target.Some? && f.target.value in old(queue)
        then queue == old(queue)[f.target.value := old(queue)[f.target.value].(status := Pending, leasedAt := None,
                                                                              expiresAt := None)]
        else queue == old(queue)
    {
      if id !in failures {
        return false;
      }
      var f := failures[id];
      failures := failures[id := f.(resolved := true)];
      if f.taskType == INGEST && f.target.Some? && f.target.value in queue {
        queue := queue[f.target.value := Returned(queue[f.target.value])];
      }
      return true;
    }
  }
}
