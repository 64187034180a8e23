/** The alerts and assignments tables and the transactions over them. Every method is the sequence
    of SQL statements of one transaction, proved equal to one step on the two tables. */
module AlertStore {
  import opened Wrappers
  import opened AlertState

  type AlertId = Text
  type AssignmentId = Text
  type Handler = Text

  const NOBODY: Handler := NO_TEXT

  datatype Alert = Alert(
    collector: Text, rule: Text, reading: Text, severity: Text, state: State, message: Text, assignee: Handler,
    firstSeen: int, lastSeen: int, suppressedUntil: int, version: int, createdAt: int, updatedAt: int)

  datatype AssignmentState = InForce | Completed | Cancelled

  datatype Assignment = Assignment(
    alert: AlertId, handler: Handler, state: AssignmentState, acceptedAt: int, completedAt: Option<int>,
    note: Text, version: int)

  datatype Db = Db(alerts: map<AlertId, Alert>, assignments: map<AssignmentId, Assignment>)

  datatype AlertError = NotFound | AlreadyAssigned(winner: Handler) | IllegalTransition | NotTheAssignee
    | NoActiveAssignment | Conflict | DuplicateId | DatabaseError

  /** Whether the database holds out: an error before the commit rolls everything back, one while the row is
      read back afterwards is reported for a change that was made. */
  datatype Access = Works | FailsBeforeCommit | FailsReadingBack

  /** WHERE alert_id = ? AND state = 'active' */
  predicate InForceFor(row: Assignment, alertId: AlertId) {
    row.alert == alertId && row.state.InForce?
  }

  ghost predicate HeldBy(db: Db, k: AssignmentId, alertId: AlertId) {
    k in db.assignments && InForceFor(db.assignments[k], alertId)
  }

  ghost predicate Held(db: Db, alertId: AlertId) {
    exists k :: HeldBy(db, k, alertId)
  }

  // --- The transactions as steps ----------------------------------------------------------------

  function Complete(rows: map<AssignmentId, Assignment>, alertId: AlertId, note: Text,
                    now: int): (r: map<AssignmentId, Assignment>)
    ensures r.Keys == rows.Keys
  {
    map k | k in rows :: if InForceFor(rows[k], alertId)
      then rows[k].(state := Completed, completedAt := Some(now), note := note, version := rows[k].version + 1)
      else rows[k]
  }

  function Cancel(rows: map<AssignmentId, Assignment>, alertId: AlertId): (r: map<AssignmentId, Assignment>)
    ensures r.Keys == rows.Keys
  {
    map k | k in rows :: if InForceFor(rows[k], alertId)
      then rows[k].(state := Cancelled, version := rows[k].version + 1)
      else rows[k]
  }

  ghost predicate AcceptSucceeds(db: Db, alertId: AlertId, newId: AssignmentId) {
    && alertId in db.alerts && db.alerts[alertId].state.Open?
    && newId !in db.assignments && !Held(db, alertId)
  }

  /** A claim writes one active assignment and puts its handler's name on the alert. */
  function Accepted(db: Db, alertId: AlertId, handler: Handler, newId: AssignmentId, now: int): Db
    requires alertId in db.alerts
  {
    var a := db.alerts[alertId];
    Db(db.alerts[alertId := a.(state := Assigned, assignee := handler, lastSeen := now, updatedAt := now,
                               version := a.version + 1)],
       db.assignments[newId := Assignment(alertId, handler, InForce, now, None, NO_TEXT, 1)])
  }

  /** The active assignment exists and, unless the caller names nobody, is the caller's. */
  ghost predicate MayResolve(db: Db, alertId: AlertId, handler: Handler) {
    exists k :: HeldBy(db, k, alertId) && (handler == NOBODY || db.assignments[k].handler == handler)
  }

  ghost predicate TransitionSucceeds(db: Db, alertId: AlertId, event: Event, handler: Handler) {
    && alertId in db.alerts && NextState(db.alerts[alertId].state, event).Some?
    && (event.Resolve? ==> MayResolve(db, alertId, handler))
  }

  /** A transition moves the alert along the table and settles its active assignment with it. */
  function Moved(db: Db, alertId: AlertId, event: Event, note: Text, now: int): Db
    requires alertId in db.alerts && NextState(db.alerts[alertId].state, event).Some?
  {
    var a := db.alerts[alertId];
    var freed := event.Revoke? || event.Release?;
    var a' := a.(state := NextState(a.state, event).value, assignee := if freed then NOBODY else a.assignee,
                 lastSeen := now, updatedAt := now, version := a.version + 1);
    Db(db.alerts[alertId := a'], Settled(db.assignments, alertId, event, note, now))
  }

  /** Resolving completes the active assignment; revoking and releasing cancel it. */
  function Settled(rows: map<AssignmentId, Assignment>, alertId: AlertId, event: Event, note: Text, now: int)
    : (r: map<AssignmentId, Assignment>)
    ensures r.Keys == rows.Keys
  {
    if event.Resolve? then Complete(rows, alertId, note, now)
    else if event.Revoke? || event.Release? then Cancel(rows, alertId)
    else rows
  }

  /** Why a transition is refused, checked in this order. */
  ghost function Refusal(db: Db, alertId: AlertId, event: Event): AlertError {
    if alertId !in db.alerts then NotFound
    else if NextState(db.alerts[alertId].state, event).None? then IllegalTransition
    else if !Held(db, alertId) then NoActiveAssignment
    else NotTheAssignee
  }

  /** The partial unique index uq_active_assignment. */
  ghost predicate UniqueInForce(db: Db) {
    forall k, k', alertId :: HeldBy(db, k, alertId) && HeldBy(db, k', alertId) ==> k == k'
  }

  function Filled(a: Alert, now: int): Alert {
    var created := if a.createdAt == 0 then now else a.createdAt;
    var first := if a.firstSeen == 0 then created else a.firstSeen;
    a.(createdAt := created, updatedAt := if a.updatedAt == 0 then created else a.updatedAt,
       firstSeen := first, lastSeen := if a.lastSeen == 0 then first else a.lastSeen,
       version := if a.version == 0 then 1 else a.version)
  }

  /** A versioned write of the columns Update names. */
  function Overwritten(row: Alert, a: Alert, now: int): Alert {
    row.(state := a.state, message := a.message, assignee := a.assignee, lastSeen := a.lastSeen,
         suppressedUntil := a.suppressedUntil, severity := a.severity, version := row.version + 1, updatedAt := now)
  }

  ghost predicate UpdateSucceeds(db: Db, alertId: AlertId, a: Alert) {
    alertId in db.alerts && db.alerts[alertId].version == a.version
  }

  predicate ActiveFor(a: Alert, collector: Text, rule: Text) {
    a.collector == collector && a.rule == rule && Active(a.state)
  }

  /** What FindActive may answer: a newest active alert for the pair, or nothing when there is none. */
  ghost predicate FindAnswer(db: Db, collector: Text, rule: Text, found: Option<AlertId>) {
    match found
    case None => forall id :: id in db.alerts ==> !ActiveFor(db.alerts[id], collector, rule)
    case Some(id) =>
      && id in db.alerts && ActiveFor(db.alerts[id], collector, rule)
      && forall other :: other in db.alerts && ActiveFor(db.alerts[other], collector, rule) ==>
           db.alerts[other].createdAt <= db.alerts[id].createdAt
  }

  // --- The repository ---------------------------------------------------------------------------

  class Repo {
    var alerts: map<AlertId, Alert>
    var assignments: map<AssignmentId, Assignment>

    ghost function Tables(): Db
      reads this
    {
      Db(alerts, assignments)
    }

    constructor ()
      ensures alerts == map[] && assignments == map[]
    {
      alerts, assignments := map[], map[];
    }

    /** Single-winner claim of an open alert. */
    method AcceptAlert(alertId: AlertId, handler: Handler, newId: AssignmentId, now: int, access: Access)
      returns (r: Result<(Assignment, Alert), AlertError>)
      modifies this
      ensures Tables() == if !access.FailsBeforeCommit? && AcceptSucceeds(old(Tables()), alertId, newId)
        then Accepted(old(Tables()), alertId, handler, newId, now) else old(Tables())
      ensures r.Ok? <==> access.Works? && AcceptSucceeds(old(Tables()), alertId, newId)
      ensures r.Ok? ==> r.value == (assignments[newId], alerts[alertId])
      ensures !access.FailsBeforeCommit? && alertId in old(alerts) && !old(alerts)[alertId].state.Open? ==>
        r == Err(AlreadyAssigned(if Active(old(alerts)[alertId].state) then old(alerts)[alertId].assignee else NOBODY))
      ensures !access.FailsBeforeCommit? && alertId in old(alerts) && old(alerts)[alertId].state.Open? ==>
        AcceptSucceeds(old(Tables()), alertId, newId) || r == Err(AlreadyAssigned(old(alerts)[alertId].assignee))
      ensures !access.FailsBeforeCommit? && alertId !in old(alerts) ==> r == Err(NotFound)
      ensures access.FailsBeforeCommit? ==> r == Err(DatabaseError)
      ensures access.FailsReadingBack? && AcceptSucceeds(old(Tables()), alertId, newId) ==> r == Err(DatabaseError)
    {
      if access.FailsBeforeCommit? {
        return Err(DatabaseError);
      }
      if alertId !in alerts {
        return Err(NotFound);
      }
      var a := alerts[alertId];
      if !a.state.Open? {
        var winner := a.assignee;
        if a.state.Resolved? || a.state.Closed? || a.state.Revoked? {
          winner := NOBODY;
        }
        return Err(AlreadyAssigned(winner));
      }
      var holder := HolderOf(alertId);
      if newId in assignments || holder.Some? {
        return Err(AlreadyAssigned(a.assignee));
      }
      var assignment := Assignment(alertId, handler, InForce, now, None, NO_TEXT, 1);
      assignments := assignments[newId := assignment];
      alerts := alerts[alertId := a.(state := Assigned, assignee := handler, version := a.version + 1,
                                     updatedAt := now, lastSeen := now)];
      if access.FailsReadingBack? {
        return Err(DatabaseError);
      }
      return Ok((assignment, alerts[alertId]));
    }

    /** SELECT handler_id FROM assignments WHERE alert_id = ? AND state = 'active' */
    method HolderOf(alertId: AlertId) returns (holder: Option<Handler>)
      ensures holder.None? <==> !Held(Tables(), alertId)
      ensures holder.Some? ==> exists k :: HeldBy(Tables(), k, alertId) && assignments[k].handler == holder.value
    {
      var ids := set k | k in assignments && InForceFor(assignments[k], alertId);
      if ids == {} {
        assert forall k :: HeldBy(Tables(), k, alertId) ==> k in ids;
        return None;
      }
      var k :| k in ids;
      assert HeldBy(Tables(), k, alertId);
      return Some(assignments[k].handler);
    }

    /** One legal move along the table, with its assignment side effects. */
    method Transition(alertId: AlertId, event: Event, handler: Handler, note: Text, now: int, access: Access)
      returns (r: Result<Alert, AlertError>)
      requires UniqueInForce(Tables())
      modifies this
      ensures Tables() == if !access.FailsBeforeCommit? && TransitionSucceeds(old(Tables()), alertId, event, handler)
        then Moved(old(Tables()), alertId, event, note, now) else old(Tables())
      ensures r.Ok? <==> access.Works? && TransitionSucceeds(old(Tables()), alertId, event, handler)
      ensures r.Ok? ==> r.value == alerts[alertId]
      ensures r.Err? ==>
        r.error == if !access.FailsBeforeCommit? && !TransitionSucceeds(old(Tables()), alertId, event, handler)
                   then Refusal(old(Tables()), alertId, event) else DatabaseError
    {
      if access.FailsBeforeCommit? {
        return Err(DatabaseError);
      }
      if alertId !in alerts {
        return Err(NotFound);
      }
      var a := alerts[alertId];
      var next := NextState(a.state, event);
      if next.None? {
        return Err(IllegalTransition);
      }
      var assignee := a.assignee;
      if event.Resolve? {
        var holder := HolderOf(alertId);
        if holder.None? {
          return Err(NoActiveAssignment);
        }
        if handler != NOBODY && holder.value != handler {
          return Err(NotTheAssignee);
        }
        assignments := Complete(assignments, alertId, note, now);
      } else if event.Revoke? || event.Release? {
        assignments := Cancel(assignments, alertId);
        assignee := NOBODY;
      }
      var moved := a.(state := next.value, assignee := assignee, lastSeen := now, updatedAt := now,
                      version := a.version + 1);
      assert assignments == Settled(old(assignments), alertId, event, note, now);
      assert moved == Moved(old(Tables()), alertId, event, note, now).alerts[alertId];
      alerts := alerts[alertId := moved];
      return if access.FailsReadingBack? then Err(DatabaseError) else Ok(moved);
    }

    method Create(newId: AlertId, a: Alert, now: int) returns (ok: bool)
      modifies this`alerts
      ensures ok <==> newId !in old(alerts)
      ensures alerts == if ok then old(alerts)[newId := Filled(a, now)] else old(alerts)
    {
      if newId in alerts {
        return false;
      }
      alerts := alerts[newId := Filled(a, now)];
      return true;
    }

    /** WHERE id = ? AND version = ? */
    method Update(alertId: AlertId, a: Alert, now: int) returns (ok: bool)
      modifies this`alerts
      ensures ok <==> UpdateSucceeds(old(Tables()), alertId, a)
      ensures alerts == if ok then old(alerts)[alertId := Overwritten(old(alerts)[alertId], a, now)] else old(alerts)
    {
      if alertId !in alerts || alerts[alertId].version != a.version {
        return false;
      }
      alerts := alerts[alertId := Overwritten(alerts[alertId], a, now)];
      return true;
    }

    /** WHERE collector_id = ? AND rule_id = ? AND state IN (...) ORDER BY created_at DESC LIMIT 1 */
    method FindActive(collector: Text, rule: Text) returns (found: Option<AlertId>)
      ensures FindAnswer(Tables(), collector, rule, found)
    {
      var ids := set id | id in alerts && ActiveFor(alerts[id], collector, rule);
      if ids == {} {
        assert forall id :: id in alerts && ActiveFor(alerts[id], collector, rule) ==> id in ids;
        return None;
      }
      GreatestExists(alerts, ids, (a: Alert) => a.createdAt);
      var id :| id in ids && forall other :: other in ids ==> alerts[other].createdAt <= alerts[id].createdAt;
      return Some(id);
    }
  }
}
