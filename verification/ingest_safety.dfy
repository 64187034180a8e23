/** Safety of the ingest protocol over every run. */
module IngestSafety {
  import opened Wrappers
  import opened ReadingState
  import opened ReadingHeld
  import opened ReadingRuns
  import opened IngestQueue
  import opened IngestProtocol

  // --- Steps that only move on --------------------------------------------------------------------

  /** Lines stay, payloads stay, attempts never fall. */
  ghost predicate Onward(o: Outside, s: System, s': System) {
    && (forall sid, k, payload :: Points(o, s.store, sid, k, payload) ==> Points(o, s'.store, sid, k, payload))
    && (forall id :: id in s.queue ==> id in s'.queue && s'.queue[id].payload == s.queue[id].payload &&
                                       s'.queue[id].attempts >= s.queue[id].attempts)
  }

  lemma FlightStaysOk(o: Outside, s: System, s': System, g: Grant)
    requires Onward(o, s, s') && g in s.flights && g in s'.flights && s'.flights[g] == s.flights[g]
    requires FlightOk(o, s, g)
    ensures FlightOk(o, s', g)
  {
  }

  lemma OnwardStaysLinked(o: Outside, s: System, s': System)
    requires Linked(o, s) && Onward(o, s, s') && QueueOk(o, s')
    requires forall g :: g in s'.flights ==> g in s.flights && s'.flights[g] == s.flights[g]
    ensures Linked(o, s')
  {
    forall g | g in s'.flights
      ensures FlightOk(o, s', g)
    {
      FlightStaysOk(o, s, s', g);
    }
  }

  lemma ItemsStayOk(o: Outside, s: System, s': System)
    requires QueueOk(o, s) && Onward(o, s, s')
    requires forall id :: id in s'.queue && s'.queue[id].status.Finished? ==>
      id in s.queue && s'.queue[id] == s.queue[id]
    ensures QueueOk(o, s')
  {
    forall id | id in s'.queue
      ensures ItemOk(o, s'.store, s'.queue[id])
    {
      assert s'.queue[id].status.Finished? ==> ItemOk(o, s.store, s.queue[id]);
    }
  }

  lemma QueueStepStaysLinked(o: Outside, s: System, a: Action)
    requires Linked(o, s) && (a.EnqueueA? || a.FailA? || a.CrashA? || a.ReclaimA? || a.RequeueA?) && Enabled(o, s, a)
    ensures Linked(o, Next(o, s, a))
  {
    var s' := Next(o, s, a);
    ItemsStayOk(o, s, s');
    OnwardStaysLinked(o, s, s');
  }

  lemma CompletedItemsOk(o: Outside, s: System, g: Grant)
    requires QueueOk(o, s) && g in s.flights && s.flights[g].Stored? && FlightOk(o, s, g)
    ensures QueueOk(o, s.(queue := Completed(s.queue, g.0, s.flights[g].shardId, s.flights[g].lineNo)))
  {
    var queue := Completed(s.queue, g.0, s.flights[g].shardId, s.flights[g].lineNo);
    forall id | id in queue
      ensures ItemOk(o, s.store, queue[id])
    {
      if id != g.0 {
        assert ItemOk(o, s.store, s.queue[id]);
      }
    }
  }

  lemma CompleteStaysLinked(o: Outside, s: System, g: Grant)
    requires Linked(o, s) && Enabled(o, s, CompleteA(g))
    ensures Linked(o, Next(o, s, CompleteA(g)))
  {
    CompletedItemsOk(o, s, g);
    OnwardStaysLinked(o, s, Next(o, s, CompleteA(g)));
  }

  lemma HeldKeptMovesOn(o: Outside, s: System, s': System)
    requires HeldKept(o, s.store, s'.store) && s'.queue == s.queue
    ensures Onward(o, s, s')
  {
    forall sid, k, payload | Points(o, s.store, sid, k, payload)
      ensures Points(o, s'.store, sid, k, payload)
    {
      PointsStay(o, s.store, s'.store, sid, k, payload);
    }
  }

  /** A step of the store that drops no shard with rows keeps all that is held. */
  lemma StepKeepsAllHeld(o: Outside, store: State, op: Op, after: State)
    requires Sound(o.w) && NoBlankLines(store.files) && Step(o.w, store, op, after)
    requires forall id :: id in store.index ==> !DropsShard(o.w, store, op, store.index[id].shardId)
    ensures HeldKept(o, store, after) && NoBlankLines(after.files)
  {
    StepGrows(o.w, store, op, after);
    forall row, rd | Holds(o.w, store, row, rd)
      ensures Holds(o.w, after, row, rd)
    {
      StepKeepsHeldIff(o.w, store, op, after, row, rd);
    }
  }

  lemma StoreStepStaysLinked(o: Outside, s: System, op: Op, after: State)
    requires Sound(o.w) && NoBlankLines(s.store.files) && Linked(o, s)
    requires Enabled(o, s, StoreA(op, after)) && SoundAction(o, s, StoreA(op, after))
    ensures Linked(o, Next(o, s, StoreA(op, after)))
  {
    var s' := Next(o, s, StoreA(op, after));
    StepKeepsAllHeld(o, s.store, op, after);
    HeldKeptMovesOn(o, s, s');
    ItemsStayOk(o, s, s');
    OnwardStaysLinked(o, s, s');
  }

  // --- Lease and append ---------------------------------------------------------------------------

  lemma LeaseMovesOn(o: Outside, s: System, now: int, ttl: int, limit: int)
    requires QueueOk(o, s)
    ensures var s' := Next(o, s, LeaseA(now, ttl, limit));
      Onward(o, s, s') && QueueOk(o, s')
  {
    var s' := Next(o, s, LeaseA(now, ttl, limit));
    assert Onward(o, s, s');
    ItemsStayOk(o, s, s');
  }

  /** A new grant is of an item in the queue, and nothing is stored for it yet. */
  lemma NewFlightOk(o: Outside, s: System, now: int, ttl: int, limit: int, g: Grant)
    requires Linked(o, s) && g in Next(o, s, LeaseA(now, ttl, limit)).flights && g !in s.flights
    ensures FlightOk(o, Next(o, s, LeaseA(now, ttl, limit)), g)
  {
    BatchDistinct(s.queue, now, limit);
  }

  /** New grants are numbered beyond all grants before. */
  lemma NewFlightsAreNew(s: System, now: int, limit: int, g: Grant)
    requires Counted(s) && (g in s.flights || g in s.stored)
    ensures var ids := Batch(s.queue, now, limit);
      (forall i :: 0 <= i < |ids| ==> ids[i] in s.queue) && g !in NewFlights(s.queue, ids, now)
  {
    BatchDistinct(s.queue, now, limit);
    assert Numbered(s, g);
  }

  lemma LeaseStaysLinked(o: Outside, s: System, now: int, ttl: int, limit: int)
    requires Counted(s) && Linked(o, s)
    ensures Linked(o, Next(o, s, LeaseA(now, ttl, limit)))
  {
    var s' := Next(o, s, LeaseA(now, ttl, limit));
    LeaseMovesOn(o, s, now, ttl, limit);
    forall g | g in s'.flights
      ensures FlightOk(o, s', g)
    {
      if g in s.flights {
        NewFlightsAreNew(s, now, limit, g);
        FlightStaysOk(o, s, s', g);
      } else {
        NewFlightOk(o, s, now, ttl, limit, g);
      }
    }
  }

  lemma AppendMovesOn(o: Outside, s: System, g: Grant, env: Env)
    requires Sound(o.w) && NoBlankLines(s.store.files) && Enabled(o, s, AppendA(g, env))
    ensures var s' := Next(o, s, AppendA(g, env));
      NoBlankLines(s'.store.files) && s'.queue == s.queue && Onward(o, s, s')
  {
    var rd := ReadingFor(o, s, g);
    if rd.Some? {
      StepKeepsAllHeld(o, s.store, AppendOp(rd.value, env), AppendSpec(o.w, s.store, rd.value, env).0);
      HeldKeptMovesOn(o, s, Next(o, s, AppendA(g, env)));
    }
  }

  lemma AppendFlightOk(o: Outside, s: System, g: Grant, env: Env)
    requires Sound(o.w) && Linked(o, s) && Enabled(o, s, AppendA(g, env)) && SoundAction(o, s, AppendA(g, env))
    ensures var s' := Next(o, s, AppendA(g, env));
      g in s'.flights && FlightOk(o, s', g)
  {
    assert FlightOk(o, s, g);
    var rd := ReadingFor(o, s, g);
    if rd.Some? && AppendSucceeds(o.w, s.store, rd.value, env) {
      var payload := s.queue[g.0].payload;
      AppendPoints(o, s.store, o.decode(payload).value, payload, s.flights[g].leasedAt, env);
    }
  }

  lemma OneFlightMovesOn(o: Outside, s: System, s': System, g: Grant)
    requires Linked(o, s) && Onward(o, s, s') && s'.queue == s.queue
    requires g in s.flights && g in s'.flights && FlightOk(o, s', g)
    requires s'.flights == s.flights[g := s'.flights[g]]
    ensures Linked(o, s')
  {
    ItemsStayOk(o, s, s');
    forall f | f in s'.flights
      ensures FlightOk(o, s', f)
    {
      if f != g {
        FlightStaysOk(o, s, s', f);
      }
    }
    assert FlightOk(o, s, g);
  }

  lemma AppendStaysLinked(o: Outside, s: System, g: Grant, env: Env)
    requires Sound(o.w) && NoBlankLines(s.store.files) && Linked(o, s)
    requires Enabled(o, s, AppendA(g, env)) && SoundAction(o, s, AppendA(g, env))
    ensures Linked(o, Next(o, s, AppendA(g, env)))
  {
    AppendMovesOn(o, s, g, env);
    AppendFlightOk(o, s, g, env);
    OneFlightMovesOn(o, s, Next(o, s, AppendA(g, env)), g);
  }

  lemma DieMovesOn(o: Outside, s: System, g: Grant, env: Env, n: nat)
    requires Sound(o.w) && NoBlankLines(s.store.files) && Enabled(o, s, DieA(g, env, n))
    ensures var s' := Next(o, s, DieA(g, env, n));
      NoBlankLines(s'.store.files) && s'.queue == s.queue && Onward(o, s, s')
  {
    var rd, s' := ReadingFor(o, s, g), Next(o, s, DieA(g, env, n));
    StepKeepsAllHeld(o, s.store, if rd.Some? then CrashOp(rd.value, env, n) else RestartOp, s'.store);
    HeldKeptMovesOn(o, s, s');
  }

  /** The dead worker's grant is gone. */
  lemma FlightLost(o: Outside, s: System, s': System, g: Grant)
    requires Linked(o, s) && Onward(o, s, s') && s'.queue == s.queue
    requires g in s.flights && s'.flights == s.flights - {g}
    ensures Linked(o, s')
  {
    ItemsStayOk(o, s, s');
    forall f | f in s'.flights
      ensures FlightOk(o, s', f)
    {
      FlightStaysOk(o, s, s', f);
    }
    assert FlightOk(o, s, g);
  }

  lemma DieStaysLinked(o: Outside, s: System, g: Grant, env: Env, n: nat)
    requires Sound(o.w) && NoBlankLines(s.store.files) && Linked(o, s) && Enabled(o, s, DieA(g, env, n))
    ensures Linked(o, Next(o, s, DieA(g, env, n)))
  {
    DieMovesOn(o, s, g, env, n);
    FlightLost(o, s, Next(o, s, DieA(g, env, n)), g);
  }

  lemma StepStaysLinked(o: Outside, s: System, a: Action)
    requires Sound(o.w) && NoBlankLines(s.store.files) && Counted(s) && Linked(o, s)
    requires Enabled(o, s, a) && SoundAction(o, s, a)
    ensures Linked(o, Next(o, s, a))
  {
    match a {
      case LeaseA(now, ttl, limit) => LeaseStaysLinked(o, s, now, ttl, limit);
      case AppendA(g, env) => AppendStaysLinked(o, s, g, env);
      case DieA(g, env, n) => DieStaysLinked(o, s, g, env, n);
      case CompleteA(g) => CompleteStaysLinked(o, s, g);
      case StoreA(op, after) => StoreStepStaysLinked(o, s, op, after);
      case _ => QueueStepStaysLinked(o, s, a);
    }
  }

  lemma StepMakesNoBlankLine(o: Outside, s: System, a: Action)
    requires Sound(o.w) && NoBlankLines(s.store.files) && Enabled(o, s, a)
    ensures NoBlankLines(Next(o, s, a).store.files)
  {
    match a {
      case AppendA(g, env) => AppendMovesOn(o, s, g, env);
      case DieA(g, env, n) => DieMovesOn(o, s, g, env, n);
      case StoreA(op, after) => StepGrows(o.w, s.store, op, after);
      case _ =>
    }
  }

  // --- Grants ---------------------------------------------------------------------------------

  /** Items stay and attempts never fall. */
  lemma AttemptsGrow(o: Outside, s: System, a: Action, g: Grant)
    requires Enabled(o, s, a) && Numbered(s, g)
    ensures Numbered(Next(o, s, a), g)
  {
  }

  lemma LeaseStaysCounted(o: Outside, s: System, now: int, ttl: int, limit: int)
    requires Counted(s)
    ensures Counted(Next(o, s, LeaseA(now, ttl, limit)))
  {
    var a := LeaseA(now, ttl, limit);
    var s' := Next(o, s, a);
    BatchDistinct(s.queue, now, limit);
    forall g | g in s'.flights
      ensures Numbered(s', g) && (s'.flights[g].Working? ==> g !in s'.stored)
    {
      if g in s.flights {
        NewFlightsAreNew(s, now, limit, g);
        AttemptsGrow(o, s, a, g);
      } else if g in s.stored {
        NewFlightsAreNew(s, now, limit, g);
      }
    }
    forall g | g in s'.stored
      ensures Numbered(s', g)
    {
      AttemptsGrow(o, s, a, g);
    }
  }

  lemma StepStaysCounted(o: Outside, s: System, a: Action)
    requires Counted(s) && Enabled(o, s, a)
    ensures Counted(Next(o, s, a))
  {
    if a.LeaseA? {
      LeaseStaysCounted(o, s, a.now, a.ttl, a.limit);
    } else {
      var s' := Next(o, s, a);
      forall g | g in s'.flights
        ensures Numbered(s', g) && (s'.flights[g].Working? ==> g !in s'.stored)
      {
        AttemptsGrow(o, s, a, g);
      }
      forall g | g in s'.stored
        ensures Numbered(s', g)
      {
        AttemptsGrow(o, s, a, g);
      }
    }
  }

  // --- Runs -----------------------------------------------------------------------------------

  ghost predicate Run(o: Outside, states: seq<System>, actions: seq<Action>) {
    && |states| == |actions| + 1 && states[0] == START
    && forall i :: 0 <= i < |actions| ==>
         Enabled(o, states[i], actions[i]) && states[i + 1] == Next(o, states[i], actions[i])
  }

  /** The runs whose rebuilds read every shard with rows, and whose workers, when they succeed, found their
      file whole and rightly counted. */
  ghost predicate SoundRun(o: Outside, states: seq<System>, actions: seq<Action>) {
    Run(o, states, actions) && forall i :: 0 <= i < |actions| ==> SoundAction(o, states[i], actions[i])
  }

  lemma {:induction false} EveryRunIsCounted(o: Outside, states: seq<System>, actions: seq<Action>, i: nat)
    requires Run(o, states, actions) && i < |states|
    ensures Counted(states[i])
  {
    if i > 0 {
      EveryRunIsCounted(o, states, actions, i - 1);
      RunStepStaysCounted(o, states, actions, i - 1);
    }
  }

  lemma RunStepStaysCounted(o: Outside, states: seq<System>, actions: seq<Action>, i: nat)
    requires Run(o, states, actions) && i < |actions| && Counted(states[i])
    ensures Counted(states[i + 1])
  {
    assert Enabled(o, states[i], actions[i]) && states[i + 1] == Next(o, states[i], actions[i]);
    StepStaysCounted(o, states[i], actions[i]);
  }

  lemma {:induction false} EveryRunHasNoBlankLines(o: Outside, states: seq<System>, actions: seq<Action>, i: nat)
    requires Sound(o.w) && Run(o, states, actions) && i < |states|
    ensures NoBlankLines(states[i].store.files)
  {
    if i > 0 {
      EveryRunHasNoBlankLines(o, states, actions, i - 1);
      assert Enabled(o, states[i - 1], actions[i - 1]) && states[i] == Next(o, states[i - 1], actions[i - 1]);
      StepMakesNoBlankLine(o, states[i - 1], actions[i - 1]);
    }
  }

  lemma {:induction false} EveryRunIsLinked(o: Outside, states: seq<System>, actions: seq<Action>, i: nat)
    requires Sound(o.w) && SoundRun(o, states, actions) && i < |states|
    ensures Linked(o, states[i])
    decreases i, 0
  {
    if i > 0 {
      RunStepStaysLinked(o, states, actions, i - 1);
    }
  }

  lemma {:induction false} RunStepStaysLinked(o: Outside, states: seq<System>, actions: seq<Action>, i: nat)
    requires Sound(o.w) && SoundRun(o, states, actions) && i < |actions|
    ensures Linked(o, states[i + 1])
    decreases i, 1
  {
    EveryRunIsLinked(o, states, actions, i);
    EveryRunIsCounted(o, states, actions, i);
    EveryRunHasNoBlankLines(o, states, actions, i);
    var s, a := states[i], actions[i];
    assert Enabled(o, s, a) && SoundAction(o, s, a) && states[i + 1] == Next(o, s, a);
    StepStaysLinked(o, s, a);
  }

  /** In every state of every such run, through torn lines of any shard, deaths, expiries, requeues and
      rebuilds, a finished item points at an indexed line that decodes to its own submission, and Get finds
      it there. */
  lemma FinishedItemsAreStored(o: Outside, states: seq<System>, actions: seq<Action>, i: nat, id: ItemId)
    requires Sound(o.w) && SoundRun(o, states, actions) && i < |states|
    requires id in states[i].queue && states[i].queue[id].status.Finished?
    ensures var it, store := states[i].queue[id], states[i].store;
      exists rd: Reading ::
        && GetSpec(o.w, store, rd.id) == Ok(rd) && rd.id in store.index
        && Some(store.index[rd.id].shardId) == it.shardId && store.index[rd.id].lineNo == it.lineNo
        && o.decode(it.payload).Some? && Reports(rd, o.decode(it.payload).value)
  {
    EveryRunIsLinked(o, states, actions, i);
    var it, store := states[i].queue[id], states[i].store;
    assert ItemOk(o, store, it);
    var rd :| Holds(o.w, store, RowOf(rd, it.shardId.value, it.lineNo), rd) && Reports(rd, o.decode(it.payload).value);
    HeldReads(o.w, store, RowOf(rd, it.shardId.value, it.lineNo), rd);
  }

  // --- Lines and attempts -------------------------------------------------------------------------

  /** The steps so far that left a line, or part of one, in the store on behalf of this item. */
  ghost function LinesFor(o: Outside, states: seq<System>, actions: seq<Action>, i: nat, id: ItemId): nat
    requires i <= |actions| && |states| == |actions| + 1
  {
    if i == 0 then 0
    else LinesFor(o, states, actions, i - 1, id) + if LeavesLineFor(o, states[i - 1], actions[i - 1], id) then 1 else 0
  }

  ghost predicate LeavesLineFor(o: Outside, s: System, a: Action, id: ItemId) {
    (a.AppendA? || a.DieA?) && a.grant.0 == id && LeavesLine(o, s, a, a.grant)
  }

  ghost function StoredFor(s: System, id: ItemId): set<Grant> {
    set g | g in s.stored && g.0 == id
  }

  lemma {:induction false} GrantsFit(grants: set<Grant>, id: ItemId, n: nat)
    requires forall g :: g in grants ==> g.0 == id && 1 <= g.1 <= n
    ensures |grants| <= n
  {
    if n == 0 {
      assert grants == {};
    } else {
      GrantsFit(grants - {(id, n)}, id, n - 1);
      assert |grants| <= |grants - {(id, n)}| + 1;
    }
  }

  lemma StoredGrows(o: Outside, s: System, a: Action)
    requires Counted(s) && Enabled(o, s, a)
    ensures var left := (a.AppendA? || a.DieA?) && LeavesLine(o, s, a, a.grant);
      && Next(o, s, a).stored == (if left then s.stored + {a.grant} else s.stored)
      && (left ==> a.grant !in s.stored)
  {
  }

  /** Each such step is the first and only one of its grant. */
  lemma StepStoresOnce(o: Outside, s: System, a: Action, id: ItemId)
    requires Counted(s) && Enabled(o, s, a)
    ensures |StoredFor(Next(o, s, a), id)| == |StoredFor(s, id)| + if LeavesLineFor(o, s, a, id) then 1 else 0
  {
    StoredGrows(o, s, a);
    if LeavesLineFor(o, s, a, id) {
      OneMoreStored(s, Next(o, s, a), a.grant);
    } else {
      assert StoredFor(Next(o, s, a), id) == StoredFor(s, id);
    }
  }

  lemma OneMoreStored(s: System, s': System, g: Grant)
    requires s'.stored == s.stored + {g} && g !in s.stored
    ensures |StoredFor(s', g.0)| == |StoredFor(s, g.0)| + 1
  {
    assert StoredFor(s', g.0) == StoredFor(s, g.0) + {g};
  }

  lemma {:induction false} LinesAreStored(o: Outside, states: seq<System>, actions: seq<Action>, i: nat, id: ItemId)
    requires Run(o, states, actions) && i < |states|
    ensures LinesFor(o, states, actions, i, id) == |StoredFor(states[i], id)|
  {
    if i == 0 {
      assert StoredFor(states[0], id) == {};
    } else {
      LinesAreStored(o, states, actions, i - 1, id);
      EveryRunIsCounted(o, states, actions, i - 1);
      StepStoresOnce(o, states[i - 1], actions[i - 1], id);
    }
  }

  /** Over any run whatever, the lines and parts of lines left in the store on behalf of an item, by appends
      that succeeded, failed or never returned, are no more than its attempts. */
  lemma StoredNeverExceedsAttempts(o: Outside, states: seq<System>, actions: seq<Action>, i: nat, id: ItemId)
    requires Run(o, states, actions) && i < |states|
    ensures LinesFor(o, states, actions, i, id) <= if id in states[i].queue then states[i].queue[id].attempts else 0
  {
    LinesAreStored(o, states, actions, i, id);
    EveryRunIsCounted(o, states, actions, i);
    var s := states[i];
    GrantsFit(StoredFor(s, id), id, if id in s.queue then s.queue[id].attempts else 0);
  }
}
