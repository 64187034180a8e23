/** Whole runs: any interleaving of handlers, the duty desk and one evaluator. */
module AlertRuns {
  import opened Wrappers
  import opened AlertState
  import opened AlertStore
  import opened AlertProtocol

  /** Where the evaluator stands between two of its statements: it has read an active alert, or has
      found none and is about to create one. */
  datatype Evaluator = Idle | Holding(id: AlertId, seen: Alert) | Creating(collector: Text, rule: Text)

  datatype System = System(db: Db, evaluator: Evaluator)

  const START := System(Db(map[], map[]), Idle)

  datatype Action =
    | AcceptA(id: AlertId, handler: Handler, newId: AssignmentId, now: int)
    | MoveA(id: AlertId, event: Event, handler: Handler, note: Text, now: int)
    | FindA(collector: Text, rule: Text, found: Option<AlertId>)
    | RefreshA(now: int)
    | CreateA(newAlert: AlertId, draft: Alert, now: int)
    | SkipA

  /** What Evaluate creates: an open, unassigned alert for the pair it looked up. */
  ghost predicate Draft(a: Alert, collector: Text, rule: Text) {
    a.collector == collector && a.rule == rule && a.state.Open? && a.assignee == NOBODY && a.version == 0
  }

  /** No service sends the accept event through Transition; everything else may come at any time. */
  ghost predicate Enabled(s: System, a: Action) {
    match a
    case AcceptA(_, _, _, _) => true
    case MoveA(_, event, _, _, _) => !event.Accept?
    case FindA(collector, rule, found) => s.evaluator.Idle? && FindAnswer(s.db, collector, rule, found)
    case RefreshA(_) => s.evaluator.Holding?
    case CreateA(_, draft, _) => s.evaluator.Creating? && Draft(draft, s.evaluator.collector, s.evaluator.rule)
    case SkipA => true
  }

  ghost function Refreshed(db: Db, id: AlertId, seen: Alert, now: int): Db {
    var a := seen.(lastSeen := now);
    if UpdateSucceeds(db, id, a) then db.(alerts := db.alerts[id := Overwritten(db.alerts[id], a, now)]) else db
  }

  function Created(db: Db, newId: AlertId, draft: Alert, now: int): Db {
    if newId in db.alerts then db else db.(alerts := db.alerts[newId := Filled(draft, now)])
  }

  ghost function Next(s: System, a: Action): System
    requires Enabled(s, a)
  {
    match a
    case AcceptA(id, handler, newId, now) =>
      if AcceptSucceeds(s.db, id, newId) then s.(db := Accepted(s.db, id, handler, newId, now)) else s
    case MoveA(id, event, handler, note, now) =>
      if TransitionSucceeds(s.db, id, event, handler) then s.(db := Moved(s.db, id, event, note, now)) else s
    case FindA(collector, rule, found) =>
      s.(evaluator := if found.Some? then Holding(found.value, s.db.alerts[found.value]) else Creating(collector, rule))
    case RefreshA(now) => System(Refreshed(s.db, s.evaluator.id, s.evaluator.seen, now), Idle)
    case CreateA(newId, draft, now) => System(Created(s.db, newId, draft, now), Idle)
    case SkipA => s.(evaluator := Idle)
  }

  // --- Versions -------------------------------------------------------------------------------

  /** From one row to a later one of the same alert: unchanged, or written once with version + 1. */
  ghost predicate Written(before: Alert, after: Alert) {
    after == before || after.version == before.version + 1
  }

  /** Every write to an alert raises its version by one, and no alert disappears. */
  lemma EveryWriteRaisesVersion(s: System, a: Action, id: AlertId)
    requires Enabled(s, a) && id in s.db.alerts
    ensures id in Next(s, a).db.alerts && Written(s.db.alerts[id], Next(s, a).db.alerts[id])
  {
  }

  /** The copy the evaluator holds is the stored row, or the stored version has moved past it. */
  ghost predicate CopyOk(s: System) {
    s.evaluator.Holding? ==>
      var id, seen := s.evaluator.id, s.evaluator.seen;
      && id in s.db.alerts
      && (s.db.alerts[id] == seen || s.db.alerts[id].version > seen.version)
  }

  lemma StepKeepsCopy(s: System, a: Action)
    requires Enabled(s, a) && CopyOk(s)
    ensures CopyOk(Next(s, a))
  {
    if s.evaluator.Holding? && (a.AcceptA? || a.MoveA?) {
      EveryWriteRaisesVersion(s, a, s.evaluator.id);
    }
  }

  ghost predicate OnlyTouched(before: Alert, after: Alert) {
    after == before.(lastSeen := after.lastSeen, updatedAt := after.updatedAt, version := after.version)
  }

  /** A refresh never undoes what ran between its read and its write: it changes no assignment, and of
      every alert at most last_seen, updated_at and version. It goes through exactly when the row it
      read is still there. */
  lemma RefreshOnlyTouches(s: System, now: int)
    requires CopyOk(s) && s.evaluator.Holding?
    ensures var id, seen, db' := s.evaluator.id, s.evaluator.seen, Next(s, RefreshA(now)).db;
      && db'.assignments == s.db.assignments && db'.alerts.Keys == s.db.alerts.Keys
      && (forall other :: other in s.db.alerts ==> OnlyTouched(s.db.alerts[other], db'.alerts[other]))
      && (db' != s.db <==> s.db.alerts[id] == seen)
      && (db' != s.db ==> db'.alerts[id].lastSeen == db'.alerts[id].updatedAt == now)
      && (db' != s.db ==> db'.alerts[id].version == seen.version + 1)
  {
    var id, seen := s.evaluator.id, s.evaluator.seen;
    var db' := Next(s, RefreshA(now)).db;
    if s.db.alerts[id] == seen {
      assert db'.alerts[id].version == s.db.alerts[id].version + 1;
    }
  }

  // --- One active alert per pair ----------------------------------------------------------------

  ghost predicate IsActiveFor(db: Db, id: AlertId, collector: Text, rule: Text) {
    id in db.alerts && ActiveFor(db.alerts[id], collector, rule)
  }

  ghost predicate OneActive(db: Db) {
    forall i, j, collector, rule ::
      IsActiveFor(db, i, collector, rule) && IsActiveFor(db, j, collector, rule) ==> i == j
  }

  ghost predicate NoneActive(db: Db, collector: Text, rule: Text) {
    forall id :: !IsActiveFor(db, id, collector, rule)
  }

  ghost predicate Exclusive(s: System) {
    OneActive(s.db) && (s.evaluator.Creating? ==> NoneActive(s.db, s.evaluator.collector, s.evaluator.rule))
  }

  /** Nobody but a create makes an alert active for a pair it was not active for. */
  ghost predicate NoneActivated(db: Db, db': Db) {
    forall id, collector, rule :: IsActiveFor(db', id, collector, rule) ==> IsActiveFor(db, id, collector, rule)
  }

  lemma ActionsActivateNone(s: System, a: Action)
    requires Enabled(s, a) && CopyOk(s) && !a.CreateA?
    ensures NoneActivated(s.db, Next(s, a).db)
  {
    match a {
      case MoveA(id, event, _, _, _) =>
        if id in s.db.alerts {
          NeverReactivated(s.db.alerts[id].state, event);
        }
      case RefreshA(now) =>
        RefreshOnlyTouches(s, now);
      case _ =>
    }
  }

  lemma StepKeepsExclusive(s: System, a: Action)
    requires Enabled(s, a) && CopyOk(s) && Exclusive(s)
    ensures Exclusive(Next(s, a))
  {
    if a.CreateA? {
      CreateKeepsOne(s.db, s.evaluator.collector, s.evaluator.rule, a.newAlert, a.draft, a.now);
    } else {
      ActionsActivateNone(s, a);
      NoneActivatedKeepsOne(s.db, Next(s, a).db);
    }
  }

  lemma CreateKeepsOne(db: Db, collector: Text, rule: Text, newId: AlertId, draft: Alert, now: int)
    requires OneActive(db) && NoneActive(db, collector, rule) && Draft(draft, collector, rule)
    ensures OneActive(Created(db, newId, draft, now))
  {
    var db' := Created(db, newId, draft, now);
    forall i, j, c, r | IsActiveFor(db', i, c, r) && IsActiveFor(db', j, c, r)
      ensures i == j
    {
      assert i != newId ==> IsActiveFor(db, i, c, r);
      assert j != newId ==> IsActiveFor(db, j, c, r);
    }
  }

  /** Whoever creates an alert for a pair, and whatever ran since it looked, there is still at most one
      active alert per pair exactly when the pair has none by then or the new identifier is taken. */
  lemma CreateKeepsOneIff(db: Db, collector: Text, rule: Text, newId: AlertId, draft: Alert, now: int)
    requires OneActive(db) && Draft(draft, collector, rule)
    ensures OneActive(Created(db, newId, draft, now)) <==> newId in db.alerts || NoneActive(db, collector, rule)
  {
    if NoneActive(db, collector, rule) {
      CreateKeepsOne(db, collector, rule, newId, draft, now);
    } else if newId !in db.alerts {
      var id :| IsActiveFor(db, id, collector, rule);
      var db' := Created(db, newId, draft, now);
      assert IsActiveFor(db', id, collector, rule) && IsActiveFor(db', newId, collector, rule);
    }
  }

  lemma NoneActivatedKeepsOne(db: Db, db': Db)
    requires OneActive(db) && NoneActivated(db, db')
    ensures OneActive(db')
    ensures forall collector, rule :: NoneActive(db, collector, rule) ==> NoneActive(db', collector, rule)
  {
  }

  // --- Assignments ------------------------------------------------------------------------------

  /** Rows of equal state, assignee and holders are equally consistent. */
  lemma TouchKeepsMatch(db: Db, db': Db)
    requires AssignmentsMatch(db) && db'.assignments == db.assignments && db'.alerts.Keys == db.alerts.Keys
    requires forall id :: id in db.alerts ==> OnlyTouched(db.alerts[id], db'.alerts[id])
    ensures AssignmentsMatch(db')
  {
    forall id | id in db'.alerts
      ensures Consistent(db', id)
    {
      SameAssignments(db, db', id);
      assert Consistent(db, id);
    }
    assert forall k, id :: HeldBy(db', k, id) <==> HeldBy(db, k, id);
    assert forall k, id :: DoneBy(db', k, id) <==> DoneBy(db, k, id);
  }

  lemma SameAssignments(db: Db, db': Db, id: AlertId)
    requires db'.assignments == db.assignments
    ensures forall k :: HeldBy(db', k, id) <==> HeldBy(db, k, id)
    ensures forall k :: DoneBy(db', k, id) <==> DoneBy(db, k, id)
    ensures (Held(db', id) <==> Held(db, id)) && (Done(db', id) <==> Done(db, id))
  {
    assert forall k :: HeldBy(db', k, id) <==> HeldBy(db, k, id);
    assert forall k :: DoneBy(db', k, id) <==> DoneBy(db, k, id);
  }

  lemma CreateKeepsMatch(db: Db, newId: AlertId, draft: Alert, now: int)
    requires AssignmentsMatch(db) && draft.state.Open? && draft.assignee == NOBODY
    ensures AssignmentsMatch(Created(db, newId, draft, now))
  {
    var db' := Created(db, newId, draft, now);
    forall id | id in db'.alerts
      ensures Consistent(db', id)
    {
      SameAssignments(db, db', id);
      assert id in db.alerts ==> Consistent(db, id);
      assert id !in db.alerts ==> forall k :: k in db.assignments ==> db.assignments[k].alert != id;
    }
    assert forall k, id :: HeldBy(db', k, id) <==> HeldBy(db, k, id);
    assert forall k, id :: DoneBy(db', k, id) <==> DoneBy(db, k, id);
  }

  lemma StepKeepsMatch(s: System, a: Action)
    requires Enabled(s, a) && CopyOk(s) && AssignmentsMatch(s.db)
    ensures AssignmentsMatch(Next(s, a).db)
  {
    match a {
      case AcceptA(id, handler, newId, now) =>
        if AcceptSucceeds(s.db, id, newId) {
          AcceptKeepsMatch(s.db, id, handler, newId, now);
        }
      case MoveA(id, event, handler, note, now) =>
        if TransitionSucceeds(s.db, id, event, handler) {
          MoveKeepsMatch(s.db, id, event, handler, note, now);
        }
      case RefreshA(now) =>
        RefreshOnlyTouches(s, now);
        TouchKeepsMatch(s.db, Next(s, a).db);
      case CreateA(newId, draft, now) =>
        CreateKeepsMatch(s.db, newId, draft, now);
      case _ =>
    }
  }

  // --- Runs -----------------------------------------------------------------------------------

  ghost predicate Run(states: seq<System>, actions: seq<Action>) {
    && |states| == |actions| + 1 && states[0] == START
    && forall i :: 0 <= i < |actions| ==> Enabled(states[i], actions[i]) && states[i + 1] == Next(states[i], actions[i])
  }

  /** In every state of every run the two tables match, at most one alert per collector and rule is
      active, and the evaluator's copy is current or outdated by version. */
  lemma {:induction false} EveryRunIsSafe(states: seq<System>, actions: seq<Action>, i: nat)
    requires Run(states, actions) && i < |states|
    ensures AssignmentsMatch(states[i].db) && Exclusive(states[i]) && CopyOk(states[i])
  {
    if i > 0 {
      EveryRunIsSafe(states, actions, i - 1);
      StepKeepsMatch(states[i - 1], actions[i - 1]);
      StepKeepsExclusive(states[i - 1], actions[i - 1]);
      StepKeepsCopy(states[i - 1], actions[i - 1]);
    }
  }

  /** The evaluator's step adds an alert for this pair. */
  ghost predicate CreatesFor(s: System, a: Action, collector: Text, rule: Text) {
    && a.CreateA? && a.newAlert !in s.db.alerts
    && s.evaluator.Creating? && s.evaluator.collector == collector && s.evaluator.rule == rule
  }

  lemma StepKeepsNoneActive(s: System, a: Action, collector: Text, rule: Text)
    requires Enabled(s, a) && CopyOk(s) && NoneActive(s.db, collector, rule) && !CreatesFor(s, a, collector, rule)
    ensures NoneActive(Next(s, a).db, collector, rule)
  {
    if !a.CreateA? {
      ActionsActivateNone(s, a);
    } else {
      forall id
        ensures !IsActiveFor(Next(s, a).db, id, collector, rule)
      {
        assert !IsActiveFor(s.db, id, collector, rule);
      }
    }
  }

  lemma {:induction false} NoneActiveStays(states: seq<System>, actions: seq<Action>, i: nat, j: nat, collector: Text,
                                           rule: Text)
    requires Run(states, actions) && i <= j < |states| && NoneActive(states[i].db, collector, rule)
    requires forall k :: i <= k < j ==> !CreatesFor(states[k], actions[k], collector, rule)
    ensures NoneActive(states[j].db, collector, rule)
    decreases j
  {
    if i < j {
      NoneActiveStays(states, actions, i, j - 1, collector, rule);
      EveryRunIsSafe(states, actions, j - 1);
      StepKeepsNoneActive(states[j - 1], actions[j - 1], collector, rule);
    }
  }

  /** A second evaluator, in another process, that found nothing for a pair at some point of a run and
      creates its alert at a later one: there is at most one active alert per pair exactly when the pair
      has none by then or the identifier is taken, and always when the first evaluator has not created
      one in between. */
  lemma LateCreateKeepsOneIff(states: seq<System>, actions: seq<Action>, i: nat, j: nat, collector: Text, rule: Text,
                              newId: AlertId, draft: Alert, now: int)
    requires Run(states, actions) && i <= j < |states| && Draft(draft, collector, rule)
    requires FindAnswer(states[i].db, collector, rule, None)
    ensures var db := states[j].db;
      OneActive(Created(db, newId, draft, now)) <==> newId in db.alerts || NoneActive(db, collector, rule)
    ensures (forall k :: i <= k < j ==> !CreatesFor(states[k], actions[k], collector, rule)) ==>
      OneActive(Created(states[j].db, newId, draft, now))
  {
    EveryRunIsSafe(states, actions, j);
    CreateKeepsOneIff(states[j].db, collector, rule, newId, draft, now);
    if forall k :: i <= k < j ==> !CreatesFor(states[k], actions[k], collector, rule) {
      NoneActiveStays(states, actions, i, j, collector, rule);
    }
  }

  /** Over a run, a version names one row: seeing the version again means seeing the row again. */
  lemma {:induction false} VersionNamesRow(states: seq<System>, actions: seq<Action>, i: nat, j: nat, id: AlertId)
    requires Run(states, actions) && i <= j < |states| && id in states[i].db.alerts
    ensures id in states[j].db.alerts
    ensures states[j].db.alerts[id].version >= states[i].db.alerts[id].version
    ensures states[j].db.alerts[id].version == states[i].db.alerts[id].version ==>
      states[j].db.alerts[id] == states[i].db.alerts[id]
  {
    if i < j {
      VersionNamesRow(states, actions, i, j - 1, id);
      EveryWriteRaisesVersion(states[j - 1], actions[j - 1], id);
    }
  }

  ghost function Accepts(states: seq<System>, actions: seq<Action>, i: nat): nat
    requires i <= |actions| && |states| == |actions| + 1
  {
    if i == 0 then 0
    else
      var a := actions[i - 1];
      Accepts(states, actions, i - 1) + if a.AcceptA? && AcceptSucceeds(states[i - 1].db, a.id, a.newId) then 1 else 0
  }

  ghost function RowsIn(db: Db, state: AssignmentState): set<AssignmentId> {
    set k | k in db.assignments && db.assignments[k].state == state
  }

  /** Every successful accept is one row, and every row is active, completed or cancelled. */
  lemma {:induction false} AcceptsAreRows(states: seq<System>, actions: seq<Action>, i: nat)
    requires Run(states, actions) && i < |states|
    ensures var db := states[i].db;
      && Accepts(states, actions, i) == |db.assignments|
      && |db.assignments| == |RowsIn(db, InForce)| + |RowsIn(db, Completed)| + |RowsIn(db, Cancelled)|
  {
    var db := states[i].db;
    PartitionRows(db);
    if i > 0 {
      AcceptsAreRows(states, actions, i - 1);
      StepAddsRow(states[i - 1], actions[i - 1]);
    }
  }

  lemma StepAddsRow(s: System, a: Action)
    requires Enabled(s, a)
    ensures |Next(s, a).db.assignments| ==
      |s.db.assignments| + if a.AcceptA? && AcceptSucceeds(s.db, a.id, a.newId) then 1 else 0
  {
    if a.MoveA? && TransitionSucceeds(s.db, a.id, a.event, a.handler) {
      assert Next(s, a).db.assignments.Keys == s.db.assignments.Keys;
      assert |Next(s, a).db.assignments.Keys| == |s.db.assignments.Keys|;
    }
  }

  lemma PartitionRows(db: Db)
    ensures |db.assignments| == |RowsIn(db, InForce)| + |RowsIn(db, Completed)| + |RowsIn(db, Cancelled)|
  {
    var f, c, x := RowsIn(db, InForce), RowsIn(db, Completed), RowsIn(db, Cancelled);
    assert db.assignments.Keys == f + c + x;
    assert |f + c + x| == |f + c| + |x| && |f + c| == |f| + |c|;
  }

  // --- Whose event it is --------------------------------------------------------------------------

  /** The handler's name decides about nothing but a resolve, where it has to be the assignee's, or left
      out. In particular anybody may start what another has accepted. */
  lemma OnlyResolvingChecksHandler(db: Db, id: AlertId, event: Event, handler: Handler, other: Handler)
    requires AssignmentsMatch(db) && id in db.alerts
    ensures !event.Resolve? ==>
      (TransitionSucceeds(db, id, event, handler) <==> TransitionSucceeds(db, id, event, other))
    ensures event.Resolve? && db.alerts[id].state.Handling? ==>
      (TransitionSucceeds(db, id, event, handler) <==> handler == NOBODY || handler == db.alerts[id].assignee)
  {
    if event.Resolve? && db.alerts[id].state.Handling? {
      TableIsLifecycle(Handling, Resolve, Resolved);
      assert Consistent(db, id);
      HolderIsAssignee(db, id, handler);
    }
  }

  lemma HolderIsAssignee(db: Db, id: AlertId, handler: Handler)
    requires AssignmentsMatch(db) && id in db.alerts && db.alerts[id].state.Handling?
    ensures MayResolve(db, id, handler) <==> handler == NOBODY || handler == db.alerts[id].assignee
  {
    assert Consistent(db, id);
    var k :| HeldBy(db, k, id);
    assert HeldBy(db, k, id) && (handler == NOBODY || db.assignments[k].handler == handler) ==>
      MayResolve(db, id, handler);
  }

  /** For one: an alert accepted by one handler is moved to handling by another. */
  lemma AnotherHandlerStarts(id: AlertId, k: AssignmentId, owner: Handler, other: Handler, draft: Alert)
    requires owner != other && draft.state.Open?
    ensures var db := Accepted(Db(map[id := draft], map[]), id, owner, k, 0);
      TransitionSucceeds(db, id, Start, other) && db.alerts[id].assignee == owner
  {
    TableIsLifecycle(Assigned, Start, Handling);
  }
}
