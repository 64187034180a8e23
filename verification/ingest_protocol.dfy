/** The queue and the reading store together. Workers hold copies of leased items, store readings for
    them and report back; leases expire, workers crash, operators requeue, all at any moment. */
module IngestProtocol {
  import opened Wrappers
  import opened Lines
  import opened ReadingState
  import opened ReadingAgreement
  import opened ReadingHeld
  import opened ReadingLegible
  import opened ReadingRuns
  import opened IngestQueue

  datatype Submission = Submission(
    collector: Text, ts: int, queueCount: int, durationMs: int, faultCode: Text,
    raw: map<Text, real>, source: Text, seqNo: int)

  /** The reading store's world and the decoding of queue payloads. */
  datatype Outside = Outside(w: World, decode: Bytes -> Option<Submission>)

  function ToReading(sub: Submission, now: int): Reading {
    Reading(NO_TEXT, sub.collector, if sub.ts == 0 then now else sub.ts, sub.queueCount, sub.durationMs, sub.faultCode,
            sub.raw, sub.source, sub.seqNo, ShardId("", ""), 0, now)
  }

  ghost predicate Reports(rd: Reading, sub: Submission) {
    && rd.collector == sub.collector && rd.queueCount == sub.queueCount && rd.durationMs == sub.durationMs
    && rd.faultCode == sub.faultCode && rd.raw == sub.raw && rd.source == sub.source && rd.seqNo == sub.seqNo
    && (sub.ts != 0 ==> rd.ts == sub.ts)
  }

  /** One grant of an item is named by the item and its attempts count; the worker holding it has
      nothing stored yet, or has stored a line, or has given up and not yet said so. */
  type Grant = (ItemId, nat)

  datatype Phase = Working(leasedAt: int) | Stored(shardId: ShardId, lineNo: int) | Broken

  /** `stored` are the grants on whose behalf a line, or part of one, was left in the store. */
  datatype System = System(store: State, queue: Queue, flights: map<Grant, Phase>, stored: set<Grant>)

  const START := System(EMPTY, map[], map[], {})

  datatype Action =
    | EnqueueA(id: ItemId, collector: Text, payload: Bytes, now: int)
    | LeaseA(now: int, ttl: int, limit: int)
    | AppendA(grant: Grant, env: Env)
    | CompleteA(grant: Grant)
    | FailA(grant: Grant, reason: Text)
    | CrashA(grant: Grant)
    | DieA(grant: Grant, env: Env, written: nat)
    | ReclaimA(now: int)
    | RequeueA(id: ItemId)
    | StoreA(op: Op, after: State)

  /** A worker may crash between its steps, or the process may die inside its append, with `written` bytes
      of the line on disk and the cache gone; other workers of that process then crash as well. */
  ghost predicate Enabled(o: Outside, s: System, a: Action) {
    match a
    case AppendA(g, _) => AtWork(s, g)
    case DieA(g, _, _) => AtWork(s, g)
    case CompleteA(g) => g in s.flights && s.flights[g].Stored?
    case FailA(g, _) => g in s.flights && s.flights[g].Broken?
    case CrashA(g) => g in s.flights
    case StoreA(op, after) => Step(o.w, s.store, op, after)
    case _ => true
  }

  /** A worker's append that succeeds found its file whole and rightly counted, and a rebuild reads every
      shard that has rows. Nothing is asked of appends that fail, of deaths or of anyone else's appends. */
  ghost predicate SoundAction(o: Outside, s: System, a: Action)
    requires Enabled(o, s, a)
  {
    match a
    case AppendA(g, env) =>
      ReadingFor(o, s, g).Some? && AppendSucceeds(o.w, s.store, ReadingFor(o, s, g).value, env) ==>
        LandsWhole(o.w, s.store, ReadingFor(o, s, g).value, env)
    case StoreA(op, _) => forall id :: id in s.store.index ==> !DropsShard(o.w, s.store, op, s.store.index[id].shardId)
    case _ => true
  }

  ghost predicate AtWork(s: System, g: Grant) {
    g in s.flights && s.flights[g].Working? && g.0 in s.queue
  }

  /** The reading a worker stores for its grant. */
  ghost function ReadingFor(o: Outside, s: System, g: Grant): Option<Reading>
    requires AtWork(s, g)
  {
    var sub := o.decode(s.queue[g.0].payload);
    if sub.None? then None else Some(ToReading(sub.value, s.flights[g].leasedAt))
  }

  /** The action leaves a line, or part of one, in the store on behalf of this grant, indexed or not. */
  ghost predicate LeavesLine(o: Outside, s: System, a: Action, g: Grant) {
    match a
    case AppendA(h, env) =>
      && h == g && AtWork(s, g) && ReadingFor(o, s, g).Some?
      && var rd := ReadingFor(o, s, g).value;
         AppendSucceeds(o.w, s.store, rd, env) || LeavesResidue(o.w, s.store, rd, env)
    case DieA(h, env, n) =>
      && h == g && AtWork(s, g) && ReadingFor(o, s, g).Some?
      && CrashWrites(o.w, s.store, ReadingFor(o, s, g).value, env, n)
    case _ => false
  }

  ghost function NewFlights(q: Queue, ids: seq<ItemId>, now: int): map<Grant, Phase>
    requires forall i :: 0 <= i < |ids| ==> ids[i] in q
  {
    map i | 0 <= i < |ids| :: (ids[i], q[ids[i]].attempts + 1) := Working(now)
  }

  ghost function AppendNext(o: Outside, s: System, g: Grant, env: Env): System
    requires AtWork(s, g)
  {
    var rd := ReadingFor(o, s, g);
    var stored := if LeavesLine(o, s, AppendA(g, env), g) then s.stored + {g} else s.stored;
    if rd.None? then s.(flights := s.flights[g := Broken])
    else
      var (store, kept) := AppendSpec(o.w, s.store, rd.value, env);
      var phase := if kept.None? then Broken else Stored(kept.value.shardId, kept.value.lineNo);
      s.(store := store, flights := s.flights[g := phase], stored := stored)
  }

  ghost function DieNext(o: Outside, s: System, g: Grant, env: Env, n: nat): System
    requires AtWork(s, g)
  {
    var rd := ReadingFor(o, s, g);
    var store := if rd.None? then s.store.(counts := map[]) else CrashSpec(o.w, s.store, rd.value, env, n);
    var stored := if LeavesLine(o, s, DieA(g, env, n), g) then s.stored + {g} else s.stored;
    s.(store := store, flights := s.flights - {g}, stored := stored)
  }

  ghost function Next(o: Outside, s: System, a: Action): System
    requires Enabled(o, s, a)
  {
    match a
    case EnqueueA(id, collector, payload, now) => s.(queue := Enqueued(s.queue, id, collector, payload, now))
    case LeaseA(now, ttl, limit) =>
      var ids := Batch(s.queue, now, limit);
      BatchDistinct(s.queue, now, limit);
      s.(queue := GrantAll(s.queue, ids, now, now + ttl), flights := s.flights + NewFlights(s.queue, ids, now))
    case AppendA(g, env) => AppendNext(o, s, g, env)
    case CompleteA(g) =>
      s.(queue := Completed(s.queue, g.0, s.flights[g].shardId, s.flights[g].lineNo), flights := s.flights - {g})
    case FailA(g, reason) => s.(queue := FailedBy(s.queue, g.0, reason), flights := s.flights - {g})
    case CrashA(g) => s.(flights := s.flights - {g})
    case DieA(g, env, n) => DieNext(o, s, g, env, n)
    case ReclaimA(now) => s.(queue := Reclaimed(s.queue, now))
    case RequeueA(id) => s.(queue := Requeued(s.queue, id))
    case StoreA(op, after) => s.(store := after)
  }

  // --- What a finished item points at -------------------------------------------------------------

  /** An indexed reading of this payload is held at this place. */
  ghost predicate Points(o: Outside, store: State, shardId: ShardId, lineNo: int, payload: Bytes) {
    exists rd: Reading ::
      && Holds(o.w, store, RowOf(rd, shardId, lineNo), rd)
      && o.decode(payload).Some? && Reports(rd, o.decode(payload).value)
  }

  /** Every reading held before is held in the same row after. */
  ghost predicate HeldKept(o: Outside, store: State, after: State) {
    forall row, rd :: Holds(o.w, store, row, rd) ==> Holds(o.w, after, row, rd)
  }

  lemma PointsStay(o: Outside, store: State, after: State, shardId: ShardId, lineNo: int, payload: Bytes)
    requires HeldKept(o, store, after) && Points(o, store, shardId, lineNo, payload)
    ensures Points(o, after, shardId, lineNo, payload)
  {
    var rd :| Holds(o.w, store, RowOf(rd, shardId, lineNo), rd) && Reports(rd, o.decode(payload).value);
    assert Holds(o.w, after, RowOf(rd, shardId, lineNo), rd);
  }

  lemma AppendPoints(o: Outside, store: State, sub: Submission, payload: Bytes, now: int, env: Env)
    requires Sound(o.w) && o.decode(payload) == Some(sub)
    requires AppendSucceeds(o.w, store, ToReading(sub, now), env) && LandsWhole(o.w, store, ToReading(sub, now), env)
    ensures var (after, kept) := AppendSpec(o.w, store, ToReading(sub, now), env);
      kept.Some? && Points(o, after, kept.value.shardId, kept.value.lineNo, payload)
  {
    LandedHolds(o.w, store, ToReading(sub, now), env);
    assert Reports(AppendSpec(o.w, store, ToReading(sub, now), env).1.value, sub);
  }

  // --- Invariants -----------------------------------------------------------------------------

  ghost predicate ItemOk(o: Outside, store: State, it: Item) {
    it.status.Finished? ==> it.shardId.Some? && Points(o, store, it.shardId.value, it.lineNo, it.payload)
  }

  ghost predicate QueueOk(o: Outside, s: System) {
    forall id :: id in s.queue ==> ItemOk(o, s.store, s.queue[id])
  }

  ghost predicate FlightOk(o: Outside, s: System, g: Grant)
    requires g in s.flights
  {
    && g.0 in s.queue
    && match s.flights[g]
       case Stored(shardId, lineNo) => Points(o, s.store, shardId, lineNo, s.queue[g.0].payload)
       case _ => true
  }

  /** Finished items and stored flights point at lines. */
  ghost predicate Linked(o: Outside, s: System) {
    QueueOk(o, s) && forall g :: g in s.flights ==> FlightOk(o, s, g)
  }

  /** The grant is one of those its item's attempts count. */
  ghost predicate Numbered(s: System, g: Grant) {
    g.0 in s.queue && 1 <= g.1 <= s.queue[g.0].attempts
  }

  /** No grant is beyond its item's attempts, and one still working has left nothing. */
  ghost predicate Counted(s: System) {
    && (forall g :: g in s.flights ==> Numbered(s, g) && (s.flights[g].Working? ==> g !in s.stored))
    && (forall g :: g in s.stored ==> Numbered(s, g))
  }
}
