/** What the rows of the two alert tables say, column by column, and what a row tells about the run
    that made it. */
module AlertColumns {
  import opened Wrappers
  import opened AlertState
  import opened AlertStore
  import opened AlertProtocol
  import opened AlertRuns

  // --- One transaction ---------------------------------------------------------------------------

  /** The columns no transaction writes after the alert was created. */
  predicate SameOrigin(a: Alert, b: Alert) {
    && a.collector == b.collector && a.rule == b.rule && a.reading == b.reading && a.firstSeen == b.firstSeen
    && a.createdAt == b.createdAt
  }

  /** The columns only a versioned write of the whole row changes. */
  predicate SameText(a: Alert, b: Alert) {
    a.severity == b.severity && a.message == b.message && a.suppressedUntil == b.suppressedUntil
  }

  predicate WrittenAt(before: Alert, after: Alert, now: int) {
    after.version == before.version + 1 && after.lastSeen == now && after.updatedAt == now
  }

  ghost predicate OthersStay<K, V>(before: map<K, V>, after: map<K, V>, id: K) {
    && (forall k :: k in before ==> k in after) && (forall k :: k in after ==> k in before || k == id)
    && forall k :: k in before && k != id ==> after[k] == before[k]
  }

  /** Under a new identifier, and whatever the tables hold, a claim goes through exactly when the alert is open
      and the unique index on active rows admits the row it adds. */
  lemma ClaimSucceedsIff(db: Db, id: AlertId, handler: Handler, newId: AssignmentId, now: int)
    requires UniqueInForce(db) && id in db.alerts && newId !in db.assignments
    ensures AcceptSucceeds(db, id, newId)
       <==> db.alerts[id].state.Open? && UniqueInForce(Accepted(db, id, handler, newId, now))
  {
    var db' := Accepted(db, id, handler, newId, now);
    SameRowsSame(db, db', newId, id);
    assert HeldBy(db', newId, id);
    if Held(db, id) {
      var k :| HeldBy(db, k, id);
      assert HeldBy(db', k, id) && k != newId;
    } else {
      forall k, k', other | HeldBy(db', k, other) && HeldBy(db', k', other)
        ensures k == k'
      {
        SameRowsSame(db, db', newId, other);
      }
    }
  }

  /** A claim: the alert is assigned to the handler, and one new row in force says so. */
  lemma ClaimColumns(db: Db, id: AlertId, handler: Handler, newId: AssignmentId, now: int)
    requires AcceptSucceeds(db, id, newId)
    ensures var db' := Accepted(db, id, handler, newId, now);
      && OthersStay(db.alerts, db'.alerts, id) && OthersStay(db.assignments, db'.assignments, newId)
      && db.alerts[id].state.Open? && db'.alerts[id].state.Assigned? && db'.alerts[id].assignee == handler
      && SameOrigin(db.alerts[id], db'.alerts[id]) && SameText(db.alerts[id], db'.alerts[id])
      && WrittenAt(db.alerts[id], db'.alerts[id], now)
      && newId in db'.assignments && IsClaim(db'.assignments[newId], id, handler, now)
  {
  }

  predicate IsClaim(row: Assignment, id: AlertId, handler: Handler, now: int) {
    && row.alert == id && row.handler == handler && row.state.InForce? && row.acceptedAt == now
    && row.completedAt.None? && row.note == NO_TEXT && row.version == 1
  }

  /** The active row once the work is done: by the same handler, since then, with this note. */
  predicate CompletedNow(before: Assignment, after: Assignment, note: Text, now: int) {
    && SameClaim(before, after) && after.state.Completed? && after.completedAt == Some(now) && after.note == note
    && after.version == before.version + 1
  }

  predicate CancelledNow(before: Assignment, after: Assignment) {
    && SameClaim(before, after) && after.state.Cancelled? && after.completedAt == before.completedAt
    && after.note == before.note && after.version == before.version + 1
  }

  predicate SameClaim(before: Assignment, after: Assignment) {
    after.alert == before.alert && after.handler == before.handler && after.acceptedAt == before.acceptedAt
  }

  /** What becomes of an assignment row by a move of this alert. */
  predicate RowMoves(before: Assignment, after: Assignment, id: AlertId, event: Event, note: Text, now: int) {
    if before.alert != id || !before.state.InForce? then after == before
    else if event.Resolve? then CompletedNow(before, after, note, now)
    else if event.Revoke? || event.Release? then CancelledNow(before, after)
    else after == before
  }

  /** A transition moves the alert along its lifecycle at this time, clears the assignee on revoke and release
      alone, and completes the active row with the caller's note or cancels it. */
  lemma MoveColumns(db: Db, id: AlertId, event: Event, handler: Handler, note: Text, now: int)
    requires TransitionSucceeds(db, id, event, handler)
    ensures var db' := Moved(db, id, event, note, now);
      && OthersStay(db.alerts, db'.alerts, id) && id in db'.alerts
      && Lifecycle(db.alerts[id].state, event, db'.alerts[id].state)
      && db'.alerts[id].assignee == (if event.Revoke? || event.Release? then NO_TEXT else db.alerts[id].assignee)
      && SameOrigin(db.alerts[id], db'.alerts[id]) && SameText(db.alerts[id], db'.alerts[id])
      && WrittenAt(db.alerts[id], db'.alerts[id], now)
      && db'.assignments.Keys == db.assignments.Keys
      && forall k :: k in db.assignments ==> RowMoves(db.assignments[k], db'.assignments[k], id, event, note, now)
  {
    TableIsLifecycle(db.alerts[id].state, event, NextState(db.alerts[id].state, event).value);
  }

  /** A versioned write: these columns are the caller's, the rest the row's own. */
  lemma UpdateColumns(row: Alert, a: Alert, now: int)
    ensures var r := Overwritten(row, a, now);
      && SameOrigin(row, r) && SameText(a, r) && r.state == a.state && r.assignee == a.assignee
      && r.lastSeen == a.lastSeen && r.updatedAt == now && r.version == row.version + 1
  {
  }

  /** A new alert: what the caller left out is the time of the call, and the version is one. */
  lemma CreateColumns(a: Alert, now: int)
    ensures var r := Filled(a, now);
      && r.collector == a.collector && r.rule == a.rule && r.reading == a.reading && SameText(a, r)
      && r.state == a.state && r.assignee == a.assignee
      && (a.version == 0 ==> r.version == 1) && (a.version != 0 ==> r.version == a.version)
      && (a.createdAt == 0 ==> r.createdAt == now) && (a.createdAt != 0 ==> r.createdAt == a.createdAt)
      && (a.updatedAt == 0 ==> r.updatedAt == r.createdAt) && (a.updatedAt != 0 ==> r.updatedAt == a.updatedAt)
      && (a.firstSeen == 0 ==> r.firstSeen == r.createdAt) && (a.firstSeen != 0 ==> r.firstSeen == a.firstSeen)
      && (a.lastSeen == 0 ==> r.lastSeen == r.firstSeen) && (a.lastSeen != 0 ==> r.lastSeen == a.lastSeen)
  {
  }

  // --- Why one is refused -------------------------------------------------------------------------

  /** The refusals of a transition, over the rows of the alert. */
  lemma RefusalTells(db: Db, id: AlertId, event: Event, handler: Handler)
    requires AssignmentsMatch(db) && !TransitionSucceeds(db, id, event, handler)
    ensures var why := Refusal(db, id, event);
      && (why.NotFound? <==> id !in db.alerts)
      && (why.IllegalTransition? <==> id in db.alerts && forall to :: !Lifecycle(db.alerts[id].state, event, to))
      && !why.NoActiveAssignment?
      && (why.NotTheAssignee? <==> id in db.alerts && event.Resolve? && db.alerts[id].state.Handling?
                                   && handler != NO_TEXT && handler != db.alerts[id].assignee)
      && (why.NotFound? || why.IllegalTransition? || why.NotTheAssignee?)
  {
    if id in db.alerts {
      forall to {
        TableIsLifecycle(db.alerts[id].state, event, to);
      }
      OnlyResolvingChecksHandler(db, id, event, handler, NOBODY);
      assert Consistent(db, id);
    }
  }

  // --- Whole runs -----------------------------------------------------------------------------------

  ghost predicate Claims(s: System, a: Action, k: AssignmentId) {
    a.AcceptA? && a.newId == k && AcceptSucceeds(s.db, a.id, k)
  }

  ghost predicate Moves(s: System, a: Action, id: AlertId) {
    a.MoveA? && a.id == id && TransitionSucceeds(s.db, id, a.event, a.handler)
  }

  /** The move takes the alert out of its handler's hands. */
  ghost predicate Settles(s: System, a: Action, id: AlertId) {
    Moves(s, a, id) && (a.event.Resolve? || a.event.Revoke? || a.event.Release?)
  }

  /** Step j of the run is the first after step i to take this alert out of its handler's hands. */
  ghost predicate FirstToSettle(states: seq<System>, actions: seq<Action>, i: int, j: int, id: AlertId)
    requires |states| > |actions|
  {
    && 0 <= i < j < |actions| && Settles(states[j], actions[j], id)
    && forall k :: i < k < j ==> !Settles(states[k], actions[k], id)
  }

  /** The row says when it was claimed and by whom, in step i. */
  ghost predicate ClaimedIn(row: Assignment, a: Action) {
    a.AcceptA? && row.alert == a.id && row.handler == a.handler && row.acceptedAt == a.now
  }

  /** And how that ended in step j. A resolve is by the row's own handler or one who names nobody. */
  ghost predicate EndedIn(row: Assignment, a: Action) {
    && a.MoveA? && row.version == 2
    && (if a.event.Resolve?
        then row.state.Completed? && row.completedAt == Some(a.now) && row.note == a.note
             && (a.handler == NO_TEXT || a.handler == row.handler)
        else row.state.Cancelled? && row.completedAt.None? && row.note == NO_TEXT)
  }

  ghost predicate Unended(row: Assignment) {
    row.state.InForce? && row.completedAt.None? && row.note == NO_TEXT && row.version == 1
  }

  ghost predicate Ended(states: seq<System>, actions: seq<Action>, n: nat, row: Assignment, i: int)
    requires |states| > |actions| >= n
  {
    exists j :: j < n && FirstToSettle(states, actions, i, j, row.alert) && EndedIn(row, actions[j])
  }

  ghost predicate Going(states: seq<System>, actions: seq<Action>, n: nat, row: Assignment, i: int)
    requires |states| > |actions| >= n && i >= 0
  {
    Unended(row) && forall j :: i < j < n ==> !Settles(states[j], actions[j], row.alert)
  }

  ghost predicate Begun(states: seq<System>, actions: seq<Action>, n: nat, k: AssignmentId, row: Assignment, i: int)
    requires |states| > |actions| >= n
  {
    0 <= i < n && Claims(states[i], actions[i], k) && ClaimedIn(row, actions[i])
  }

  ghost predicate Tells(states: seq<System>, actions: seq<Action>, n: nat, k: AssignmentId, row: Assignment, i: int)
    requires |states| > |actions| >= n
  {
    && Begun(states, actions, n, k, row, i)
    && if row.state.InForce? then Going(states, actions, n, row, i) else Ended(states, actions, n, row, i)
  }

  /** A row in force ends with the move that takes its alert out of its handler's hands, and no other row
      changes. */
  ghost predicate RowSteps(s: System, a: Action, row: Assignment, row': Assignment) {
    if !row.state.InForce? || !Settles(s, a, row.alert) then row' == row
    else if a.event.Resolve? then
      CompletedNow(row, row', a.note, a.now) && (a.handler == NO_TEXT || a.handler == row.handler)
    else CancelledNow(row, row')
  }

  /** What a step does to an assignment row it did not write first. */
  lemma StepKeepsRow(s: System, a: Action, k: AssignmentId)
    requires Enabled(s, a) && UniqueInForce(s.db) && !Claims(s, a, k) && k in Next(s, a).db.assignments
    ensures k in s.db.assignments
    ensures RowSteps(s, a, s.db.assignments[k], Next(s, a).db.assignments[k])
  {
    if a.MoveA? && TransitionSucceeds(s.db, a.id, a.event, a.handler) {
      MoveColumns(s.db, a.id, a.event, a.handler, a.note, a.now);
      var row := s.db.assignments[k];
      if row.alert == a.id && row.state.InForce? {
        assert HeldBy(s.db, k, a.id);
      }
    }
  }

  /** The row in force is settled now. */
  lemma StoryEnds(states: seq<System>, actions: seq<Action>, m: nat, row: Assignment, row': Assignment, i: int)
    requires |states| > |actions| > m && 0 <= i < m && Going(states, actions, m, row, i)
    requires Settles(states[m], actions[m], row.alert)
    requires row.state.InForce? && RowSteps(states[m], actions[m], row, row')
    ensures Ended(states, actions, m + 1, row', i) && !row'.state.InForce?
  {
    assert FirstToSettle(states, actions, i, m, row'.alert) && EndedIn(row', actions[m]);
  }

  lemma BeginningStays(states: seq<System>, actions: seq<Action>, m: nat, k: AssignmentId, row: Assignment,
                       row': Assignment, i: int)
    requires |states| > |actions| > m && Begun(states, actions, m, k, row, i)
    requires RowSteps(states[m], actions[m], row, row')
    ensures Begun(states, actions, m + 1, k, row', i)
  {
    assert SameClaim(row, row');
  }

  lemma StillGoing(states: seq<System>, actions: seq<Action>, m: nat, row: Assignment, i: nat)
    requires |states| > |actions| > m && Going(states, actions, m, row, i) && !Settles(states[m], actions[m], row.alert)
    ensures Going(states, actions, m + 1, row, i)
  {
    forall j | i < j < m + 1
      ensures !Settles(states[j], actions[j], row.alert)
    {
      assert j < m || j == m;
    }
  }

  lemma StoryStays(states: seq<System>, actions: seq<Action>, m: nat, row: Assignment, i: int)
    requires |states| > |actions| > m && 0 <= i < m && Ended(states, actions, m, row, i)
    ensures Ended(states, actions, m + 1, row, i)
  {
    var j :| j < m && FirstToSettle(states, actions, i, j, row.alert) && EndedIn(row, actions[j]);
    assert j < m + 1;
  }

  /** One more step of a story already told. */
  lemma StoryGoesOn(states: seq<System>, actions: seq<Action>, m: nat, k: AssignmentId, row: Assignment,
                    row': Assignment, i: int)
    requires |states| > |actions| > m && Tells(states, actions, m, k, row, i)
    requires RowSteps(states[m], actions[m], row, row')
    ensures Tells(states, actions, m + 1, k, row', i)
  {
    BeginningStays(states, actions, m, k, row, row', i);
    if !row.state.InForce? {
      StoryStays(states, actions, m, row, i);
    } else if Settles(states[m], actions[m], row.alert) {
      StoryEnds(states, actions, m, row, row', i);
    } else {
      StillGoing(states, actions, m, row, i);
    }
  }

  /** In every state of every run, every assignment row tells its story: the one claim that wrote it, with its
      handler and time, and, once it is over, the first later move that took the alert out of those hands,
      with the note and time of the resolve, or neither if it was revoked or released. */
  lemma {:induction false} RowsTellTheirStory(states: seq<System>, actions: seq<Action>, n: nat, k: AssignmentId)
    requires Run(states, actions) && n < |states| && k in states[n].db.assignments
    ensures exists i :: Tells(states, actions, n, k, states[n].db.assignments[k], i)
  {
    var m := n - 1;
    var s, a := states[m], actions[m];
    if Claims(s, a, k) {
      ClaimColumns(s.db, a.id, a.handler, k, a.now);
      assert Tells(states, actions, n, k, states[n].db.assignments[k], m);
    } else {
      EveryRunIsSafe(states, actions, m);
      StepKeepsRow(s, a, k);
      RowsTellTheirStory(states, actions, m, k);
      var i :| Tells(states, actions, m, k, s.db.assignments[k], i);
      StoryGoesOn(states, actions, m, k, s.db.assignments[k], states[n].db.assignments[k], i);
    }
  }

  /** A refresh that meets the row it read. */
  ghost predicate Refreshes(s: System, a: Action, id: AlertId)
    requires Enabled(s, a)
  {
    a.RefreshA? && s.evaluator.id == id && id in s.db.alerts && s.db.alerts[id].version == s.evaluator.seen.version
  }

  ghost predicate WritesTo(s: System, a: Action, id: AlertId)
    requires Enabled(s, a)
  {
    (a.AcceptA? && a.id == id && AcceptSucceeds(s.db, id, a.newId)) || Moves(s, a, id) || Refreshes(s, a, id)
  }

  ghost function Writes(states: seq<System>, actions: seq<Action>, n: nat, id: AlertId): nat
    requires Run(states, actions) && n <= |actions|
  {
    if n == 0 then 0
    else Writes(states, actions, n - 1, id) + if WritesTo(states[n - 1], actions[n - 1], id) then 1 else 0
  }

  lemma StepCountsVersion(s: System, a: Action, id: AlertId)
    requires Enabled(s, a)
    ensures id in s.db.alerts ==>
      && id in Next(s, a).db.alerts
      && Next(s, a).db.alerts[id].version == s.db.alerts[id].version + if WritesTo(s, a, id) then 1 else 0
    ensures id !in s.db.alerts ==>
      !WritesTo(s, a, id) && (id in Next(s, a).db.alerts ==> Next(s, a).db.alerts[id].version == 1)
  {
  }

  /** The version of an alert counts the claims, moves and refreshes that landed on it, creation being one. */
  lemma {:induction false} VersionCountsWrites(states: seq<System>, actions: seq<Action>, n: nat, id: AlertId)
    requires Run(states, actions) && n < |states|
    ensures id in states[n].db.alerts ==> states[n].db.alerts[id].version == 1 + Writes(states, actions, n, id)
    ensures id !in states[n].db.alerts ==> Writes(states, actions, n, id) == 0
  {
    if n > 0 {
      VersionCountsWrites(states, actions, n - 1, id);
      StepCountsVersion(states[n - 1], actions[n - 1], id);
    }
  }
}
