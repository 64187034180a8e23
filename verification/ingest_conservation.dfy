/** When nothing goes wrong around the workers, every stored reading is one finished item. */
module IngestConservation {
  import opened Wrappers
  import opened ReadingState
  import opened ReadingRuns
  import opened IngestQueue
  import opened IngestProtocol
  import opened IngestCounting
  import IngestSafety

  /** No crash, no requeue, no append from elsewhere, nothing left behind unindexed, and no lease in hand
      has run out when the queue is next leased or reclaimed. Append failures and undecodable payloads are
      allowed. */
  ghost predicate Calm(o: Outside, s: System, a: Action) {
    CleanAction(o, s, a) && Quiet(s, a)
  }

  ghost predicate Quiet(s: System, a: Action) {
    match a
    case CrashA(_) => false
    case DieA(_, _, _) => false
    case RequeueA(_) => false
    case StoreA(op, _) => !op.AppendOp?
    case LeaseA(now, _, _) => NoneExpired(s, now)
    case ReclaimA(now) => NoneExpired(s, now)
    case _ => true
  }

  ghost predicate NoneExpired(s: System, now: int) {
    forall g :: g in s.flights && g.0 in s.queue ==> !Expired(s.queue[g.0], now)
  }

  /** Each grant in hand is the current lease of its item. */
  ghost predicate InHand(s: System, g: Grant) {
    g.0 in s.queue && s.queue[g.0].status.Leased? && s.queue[g.0].attempts == g.1
  }

  ghost predicate AllInHand(s: System) {
    forall g :: g in s.flights ==> InHand(s, g)
  }

  ghost function FinishedIds(q: Queue): set<ItemId> {
    set id | id in q && q[id].status.Finished?
  }

  ghost function StoredFlights(flights: map<Grant, Phase>): set<Grant> {
    set g | g in flights && flights[g].Stored?
  }

  ghost predicate Balanced(s: System) {
    |s.store.index| == |FinishedIds(s.queue)| + |StoredFlights(s.flights)|
  }

  // --- One step -------------------------------------------------------------------------------

  /** A grant in hand is numbered by its item's current attempts, a new one by one more. */
  lemma HandedAreNew(s: System, now: int, limit: int, g: Grant)
    requires AllInHand(s) && g in s.flights
    ensures var ids := Batch(s.queue, now, limit);
      (forall i :: 0 <= i < |ids| ==> ids[i] in s.queue) && g !in NewFlights(s.queue, ids, now)
  {
    BatchDistinct(s.queue, now, limit);
    assert InHand(s, g);
  }

  lemma LeaseKeepsHands(o: Outside, s: System, now: int, ttl: int, limit: int)
    requires AllInHand(s) && NoneExpired(s, now)
    ensures AllInHand(Next(o, s, LeaseA(now, ttl, limit)))
  {
    var s' := Next(o, s, LeaseA(now, ttl, limit));
    BatchDistinct(s.queue, now, limit);
    forall g | g in s'.flights
      ensures InHand(s', g)
    {
      assert g in s.flights ==> InHand(s, g);
    }
  }

  lemma LeaseKeepsBalance(o: Outside, s: System, now: int, ttl: int, limit: int)
    requires AllInHand(s) && Balanced(s)
    ensures Balanced(Next(o, s, LeaseA(now, ttl, limit)))
  {
    var s' := Next(o, s, LeaseA(now, ttl, limit));
    BatchDistinct(s.queue, now, limit);
    assert FinishedIds(s'.queue) == FinishedIds(s.queue);
    forall g | g in s.flights {
      HandedAreNew(s, now, limit, g);
    }
    assert StoredFlights(s'.flights) == StoredFlights(s.flights);
  }

  lemma CompleteBalances(o: Outside, s: System, g: Grant)
    requires AllInHand(s) && Balanced(s) && Enabled(o, s, CompleteA(g))
    ensures var s' := Next(o, s, CompleteA(g));
      AllInHand(s') && Balanced(s')
  {
    var s' := Next(o, s, CompleteA(g));
    OtherHands(s, g, s'.queue);
    assert InHand(s, g);
    assert FinishedIds(s'.queue) == FinishedIds(s.queue) + {g.0};
    assert StoredFlights(s'.flights) == StoredFlights(s.flights) - {g};
  }

  /** Two grants in hand are of different items, so finishing one leaves the others alone. */
  lemma OtherHands(s: System, g: Grant, queue: Queue)
    requires AllInHand(s) && g in s.flights
    requires forall id :: id in s.queue && id != g.0 ==> id in queue && queue[id] == s.queue[id]
    ensures AllInHand(s.(queue := queue, flights := s.flights - {g}))
  {
    forall f | f in s.flights && f != g
      ensures InHand(s.(queue := queue), f)
    {
      assert InHand(s, f) && InHand(s, g);
    }
  }

  lemma FailBalances(o: Outside, s: System, g: Grant, reason: Text)
    requires AllInHand(s) && Balanced(s) && Enabled(o, s, FailA(g, reason))
    ensures var s' := Next(o, s, FailA(g, reason));
      AllInHand(s') && Balanced(s')
  {
    var s' := Next(o, s, FailA(g, reason));
    OtherHands(s, g, s'.queue);
    assert InHand(s, g);
    assert FinishedIds(s'.queue) == FinishedIds(s.queue);
    assert StoredFlights(s'.flights) == StoredFlights(s.flights);
  }

  lemma AppendBalances(o: Outside, s: System, g: Grant, env: Env)
    requires AllInHand(s) && Balanced(s) && Enabled(o, s, AppendA(g, env))
    ensures var s' := Next(o, s, AppendA(g, env));
      AllInHand(s') && Balanced(s')
  {
    var s' := Next(o, s, AppendA(g, env));
    assert forall f :: f in s'.flights ==> InHand(s, f);
    if s'.flights[g].Stored? {
      assert StoredFlights(s'.flights) == StoredFlights(s.flights) + {g};
      assert |s'.store.index| == |s.store.index| + 1;
    } else {
      assert StoredFlights(s'.flights) == StoredFlights(s.flights);
    }
  }

  lemma QuietBalances(o: Outside, s: System, a: Action)
    requires AllInHand(s) && Balanced(s) && Enabled(o, s, a) && (a.EnqueueA? || (a.ReclaimA? && Calm(o, s, a)))
    ensures AllInHand(Next(o, s, a)) && Balanced(Next(o, s, a))
  {
    var s' := Next(o, s, a);
    assert FinishedIds(s'.queue) == FinishedIds(s.queue);
    forall g | g in s'.flights
      ensures InHand(s', g)
    {
      assert InHand(s, g);
    }
  }

  lemma CalmStepBalances(o: Outside, s: System, a: Action)
    requires Sound(o.w) && Agree(o.w, s.store) && AllInHand(s) && Balanced(s) && Enabled(o, s, a) && Calm(o, s, a)
    ensures AllInHand(Next(o, s, a)) && Balanced(Next(o, s, a))
  {
    match a {
      case LeaseA(now, ttl, limit) =>
        LeaseKeepsHands(o, s, now, ttl, limit);
        LeaseKeepsBalance(o, s, now, ttl, limit);
      case AppendA(g, env) => AppendBalances(o, s, g, env);
      case CompleteA(g) => CompleteBalances(o, s, g);
      case FailA(g, reason) => FailBalances(o, s, g, reason);
      case StoreA(op, after) =>
        CleanStepIndex(o.w, s.store, op, after);
        assert after.index == s.store.index;
      case _ => QuietBalances(o, s, a);
    }
  }

  // --- Runs -----------------------------------------------------------------------------------

  ghost predicate CalmRun(o: Outside, states: seq<System>, actions: seq<Action>) {
    IngestSafety.Run(o, states, actions) && forall i :: 0 <= i < |actions| ==> Calm(o, states[i], actions[i])
  }

  lemma StoreAgrees(o: Outside, states: seq<System>, actions: seq<Action>, i: nat)
    requires Sound(o.w) && CalmRun(o, states, actions) && i < |states|
    ensures Agree(o.w, states[i].store)
  {
    assert IngestCounting.CleanRun(o, states, actions);
    IngestCounting.CleanRunsAgree(o, states, actions, i);
  }

  lemma CalmRunStep(o: Outside, states: seq<System>, actions: seq<Action>, i: nat)
    requires Sound(o.w) && CalmRun(o, states, actions) && i < |actions|
    requires AllInHand(states[i]) && Balanced(states[i])
    ensures AllInHand(states[i + 1]) && Balanced(states[i + 1])
  {
    StoreAgrees(o, states, actions, i);
    var s, a := states[i], actions[i];
    assert Enabled(o, s, a) && Calm(o, s, a);
    CalmStepBalances(o, s, a);
  }

  lemma {:induction false} CalmRunsBalance(o: Outside, states: seq<System>, actions: seq<Action>, i: nat)
    requires Sound(o.w) && CalmRun(o, states, actions) && i < |states|
    ensures AllInHand(states[i]) && Balanced(states[i])
  {
    if i == 0 {
      assert FinishedIds(START.queue) == {} && StoredFlights(START.flights) == {};
    } else {
      CalmRunsBalance(o, states, actions, i - 1);
      CalmRunStep(o, states, actions, i - 1);
    }
  }

  /** Once no worker is between storing and completing, there are as many indexed readings as finished
      items: each submission is stored exactly once. */
  lemma RowsEqualFinished(o: Outside, states: seq<System>, actions: seq<Action>, i: nat)
    requires Sound(o.w) && CalmRun(o, states, actions) && i < |states|
    requires forall g :: g in states[i].flights ==> !states[i].flights[g].Stored?
    ensures |states[i].store.index| == |FinishedIds(states[i].queue)|
  {
    CalmRunsBalance(o, states, actions, i);
    assert StoredFlights(states[i].flights) == {};
  }
}
