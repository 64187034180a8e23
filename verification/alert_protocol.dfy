/** Runs of the alert protocol: handlers and the duty desk act on alerts between any two steps of the
    evaluator, whose find, refresh and create are separate statements. */
module AlertProtocol {
  import opened Wrappers
  import opened AlertState
  import opened AlertStore

  // --- Who holds what ---------------------------------------------------------------------------

  ghost predicate DoneBy(db: Db, k: AssignmentId, alertId: AlertId) {
    k in db.assignments && db.assignments[k].alert == alertId && db.assignments[k].state.Completed?
  }

  ghost predicate Done(db: Db, alertId: AlertId) {
    exists k :: DoneBy(db, k, alertId)
  }

  predicate InHands(state: State) {
    state.Assigned? || state.Handling?
  }

  predicate Settled?(state: State) {
    state.Resolved? || state.Closed?
  }

  /** The assignment rows say about this alert what its own row says. */
  ghost predicate Consistent(db: Db, alertId: AlertId)
    requires alertId in db.alerts
  {
    var a := db.alerts[alertId];
    && (Held(db, alertId) <==> InHands(a.state))
    && (Done(db, alertId) <==> Settled?(a.state))
    && (forall k :: HeldBy(db, k, alertId) ==> db.assignments[k].handler == a.assignee)
    && (forall k :: DoneBy(db, k, alertId) ==> db.assignments[k].handler == a.assignee)
    && (a.state.Open? || a.state.Revoked? ==> a.assignee == NOBODY)
  }

  ghost predicate UniqueDone(db: Db) {
    forall k, k', alertId :: DoneBy(db, k, alertId) && DoneBy(db, k', alertId) ==> k == k'
  }

  /** Assigned and handling alerts have exactly one active assignment, by the assignee; open and
      revoked ones have none and no assignee; resolved and closed ones have exactly one completed. */
  ghost predicate AssignmentsMatch(db: Db) {
    && UniqueInForce(db) && UniqueDone(db)
    && (forall id :: id in db.alerts ==> Consistent(db, id))
    && (forall k :: k in db.assignments ==> db.assignments[k].alert in db.alerts)
  }

  lemma AcceptKeepsMatch(db: Db, alertId: AlertId, handler: Handler, newId: AssignmentId, now: int)
    requires AssignmentsMatch(db) && AcceptSucceeds(db, alertId, newId)
    ensures AssignmentsMatch(Accepted(db, alertId, handler, newId, now))
  {
    var db' := Accepted(db, alertId, handler, newId, now);
    assert HeldBy(db', newId, alertId);
    forall k, id
      ensures HeldBy(db', k, id) <==> HeldBy(db, k, id) || (k == newId && id == alertId)
      ensures DoneBy(db', k, id) <==> DoneBy(db, k, id)
    {
    }
    forall id | id in db'.alerts
      ensures Consistent(db', id)
    {
      AcceptKeepsConsistent(db, alertId, handler, newId, now, id);
    }
  }

  lemma AcceptKeepsConsistent(db: Db, alertId: AlertId, handler: Handler, newId: AssignmentId, now: int, id: AlertId)
    requires AssignmentsMatch(db) && AcceptSucceeds(db, alertId, newId) && id in db.alerts
    ensures Consistent(Accepted(db, alertId, handler, newId, now), id)
  {
    var db' := Accepted(db, alertId, handler, newId, now);
    assert Consistent(db, id);
    SameRowsSame(db, db', newId, id);
    if id == alertId {
      assert HeldBy(db', newId, id);
    }
  }

  /** Adding one active row for another alert changes nothing here; for this alert it adds a holder. */
  lemma SameRowsSame(db: Db, db': Db, newId: AssignmentId, id: AlertId)
    requires newId !in db.assignments && newId in db'.assignments
    requires db'.assignments == db.assignments[newId := db'.assignments[newId]]
    requires db'.assignments[newId].state.InForce?
    ensures forall k :: HeldBy(db', k, id) <==> HeldBy(db, k, id) || (k == newId && db'.assignments[newId].alert == id)
    ensures forall k :: DoneBy(db', k, id) <==> DoneBy(db, k, id)
    ensures Done(db', id) <==> Done(db, id)
    ensures db'.assignments[newId].alert != id ==> (Held(db', id) <==> Held(db, id))
  {
    if Done(db, id) {
      var k :| DoneBy(db, k, id);
      assert DoneBy(db', k, id);
    }
    if Held(db, id) {
      var k :| HeldBy(db, k, id);
      assert HeldBy(db', k, id);
    }
  }

  lemma SettledRows(db: Db, db': Db, alertId: AlertId, event: Event, note: Text, now: int, id: AlertId, k: AssignmentId)
    requires db'.assignments == Settled(db.assignments, alertId, event, note, now)
    ensures var settles := event.Resolve? || event.Revoke? || event.Release?;
      && (HeldBy(db', k, id) <==> HeldBy(db, k, id) && !(settles && id == alertId))
      && (DoneBy(db', k, id) <==> DoneBy(db, k, id) || (event.Resolve? && id == alertId && HeldBy(db, k, id)))
    ensures k in db.assignments ==>
      db'.assignments[k].handler == db.assignments[k].handler && db'.assignments[k].alert == db.assignments[k].alert
  {
  }

  lemma SettledHolders(db: Db, db': Db, alertId: AlertId, event: Event, note: Text, now: int, id: AlertId)
    requires db'.assignments == Settled(db.assignments, alertId, event, note, now)
    ensures var settles := event.Resolve? || event.Revoke? || event.Release?;
      && (Held(db', id) <==> Held(db, id) && !(settles && id == alertId))
      && (Done(db', id) <==> Done(db, id) || (event.Resolve? && id == alertId && Held(db, id)))
  {
    forall k {
      SettledRows(db, db', alertId, event, note, now, id, k);
    }
    if Held(db, id) {
      var k :| HeldBy(db, k, id);
      SettledRows(db, db', alertId, event, note, now, id, k);
      assert HeldBy(db', k, id) || DoneBy(db', k, id) || (event.Revoke? || event.Release?);
    }
    if Done(db, id) {
      var k :| DoneBy(db, k, id);
      assert DoneBy(db', k, id);
    }
  }

  lemma OtherStaysConsistent(db: Db, db': Db, alertId: AlertId, event: Event, note: Text, now: int, id: AlertId)
    requires db'.assignments == Settled(db.assignments, alertId, event, note, now)
    requires id in db.alerts && id in db'.alerts && db'.alerts[id] == db.alerts[id] && id != alertId
    requires Consistent(db, id)
    ensures Consistent(db', id)
  {
    SettledHolders(db, db', alertId, event, note, now, id);
    forall k {
      SettledRows(db, db', alertId, event, note, now, id, k);
    }
  }

  lemma MovedStaysConsistent(db: Db, db': Db, event: Event, note: Text, now: int, id: AlertId)
    requires db'.assignments == Settled(db.assignments, id, event, note, now)
    requires id in db.alerts && id in db'.alerts && Consistent(db, id) && !event.Accept?
    requires Lifecycle(db.alerts[id].state, event, db'.alerts[id].state)
    requires db'.alerts[id].assignee == if event.Revoke? || event.Release? then NOBODY else db.alerts[id].assignee
    ensures Consistent(db', id)
  {
    SettledHolders(db, db', id, event, note, now, id);
    forall k {
      SettledRows(db, db', id, event, note, now, id, k);
    }
  }

  lemma MoveKeepsConsistent(db: Db, alertId: AlertId, event: Event, handler: Handler, note: Text, now: int, id: AlertId)
    requires AssignmentsMatch(db) && !event.Accept? && TransitionSucceeds(db, alertId, event, handler)
    requires id in db.alerts
    ensures Consistent(Moved(db, alertId, event, note, now), id)
  {
    var db' := Moved(db, alertId, event, note, now);
    assert Consistent(db, id);
    if id == alertId {
      TableIsLifecycle(db.alerts[id].state, event, db'.alerts[id].state);
      MovedStaysConsistent(db, db', event, note, now, id);
    } else {
      OtherStaysConsistent(db, db', alertId, event, note, now, id);
    }
  }

  lemma SettledStaysUnique(db: Db, db': Db, alertId: AlertId, event: Event, note: Text, now: int)
    requires AssignmentsMatch(db)
    requires db'.assignments == Settled(db.assignments, alertId, event, note, now)
    ensures UniqueInForce(db') && UniqueDone(db')
  {
    forall k, k', id | HeldBy(db', k, id) && HeldBy(db', k', id)
      ensures k == k'
    {
      SettledPair(db, db', alertId, event, note, now, id, k, k');
    }
    forall k, k', id | DoneBy(db', k, id) && DoneBy(db', k', id)
      ensures k == k'
    {
      SettledPair(db, db', alertId, event, note, now, id, k, k');
    }
  }

  lemma SettledPair(db: Db, db': Db, alertId: AlertId, event: Event, note: Text, now: int, id: AlertId,
                    k: AssignmentId, k': AssignmentId)
    requires AssignmentsMatch(db)
    requires db'.assignments == Settled(db.assignments, alertId, event, note, now)
    ensures HeldBy(db', k, id) && HeldBy(db', k', id) ==> k == k'
    ensures DoneBy(db', k, id) && DoneBy(db', k', id) ==> k == k'
  {
    SettledRows(db, db', alertId, event, note, now, id, k);
    SettledRows(db, db', alertId, event, note, now, id, k');
    NotHeldAndDone(db, id, k, k');
    NotHeldAndDone(db, id, k', k);
  }

  lemma MoveKeepsMatch(db: Db, alertId: AlertId, event: Event, handler: Handler, note: Text, now: int)
    requires AssignmentsMatch(db) && !event.Accept? && TransitionSucceeds(db, alertId, event, handler)
    ensures AssignmentsMatch(Moved(db, alertId, event, note, now))
  {
    var db' := Moved(db, alertId, event, note, now);
    SettledStaysUnique(db, db', alertId, event, note, now);
    forall id | id in db'.alerts
      ensures Consistent(db', id)
    {
      MoveKeepsConsistent(db, alertId, event, handler, note, now, id);
    }
    forall k | k in db'.assignments
      ensures db'.assignments[k].alert in db'.alerts
    {
      SettledRows(db, db', alertId, event, note, now, alertId, k);
    }
  }

  /** No alert is in somebody's hands and settled at once. */
  lemma NotHeldAndDone(db: Db, id: AlertId, k: AssignmentId, k': AssignmentId)
    requires AssignmentsMatch(db)
    ensures !(HeldBy(db, k, id) && DoneBy(db, k', id))
  {
    if k in db.assignments && db.assignments[k].alert == id {
      assert Consistent(db, id);
    }
  }
}
