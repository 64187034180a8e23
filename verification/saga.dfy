/** Batches with compensation, as values: what each step does, what undoing it does, and what a whole
    batch leaves behind. The database is used by nobody else while a batch runs. */
module Saga {
  import opened Rules
  import opened Wrappers

  type CollectorId = Text

  datatype Status = Active | Disabled

  datatype Collector = Collector(
    code: Text, name: Text, kind: Text, location: Text, status: Status, handler: Text, version: int,
    createdAt: int, updatedAt: int)

  datatype Tables = Tables(rules: map<RuleId, Rule>, collectors: map<CollectorId, Collector>)

  datatype RuleUpdate = RuleUpdate(
    minValue: Option<real>, maxValue: Option<real>, enabled: Option<bool>, severity: Text, faultTrigger: Option<Text>)

  /** What a step is asked to do. */
  datatype Action = Disable(collector: CollectorId) | Tune(rule: RuleId, update: RuleUpdate)

  /** What a step's closures share: the status or the rule it found before changing it. */
  datatype Captured = Captured(status: Option<Status>, rule: Option<Rule>)

  const NOTHING := Captured(None, None)

  // --- One step -------------------------------------------------------------------------------

  function ApplyUpdate(r: Rule, u: RuleUpdate): Rule {
    r.(minValue := if u.minValue.Some? then u.minValue else r.minValue,
       maxValue := if u.maxValue.Some? then u.maxValue else r.maxValue,
       enabled := if u.enabled.Some? then u.enabled.value else r.enabled,
       severity := if u.severity != NO_TEXT then u.severity else r.severity,
       faultTrigger := if u.faultTrigger.Some? then u.faultTrigger.value else r.faultTrigger)
  }

  /** The versioned UPDATE of a rule: created_at and the identifier are not among its columns. */
  function RuleRow(row: Rule, r: Rule, now: int): Rule {
    r.(version := row.version + 1, createdAt := row.createdAt, updatedAt := now)
  }

  function StatusRow(row: Collector, status: Status, now: int): Collector {
    row.(status := status, version := row.version + 1, updatedAt := now)
  }

  predicate Exists(db: Tables, a: Action) {
    match a
    case Disable(id) => id in db.collectors
    case Tune(id, _) => id in db.rules
  }

  /** A database error met by a step. An early one comes before its write. A late one is met when a status
      just written is read back; a step that writes no status reads nothing back. */
  datatype Fault = Clear | Early | Late

  predicate Fails(db: Tables, a: Action, fault: Fault) {
    || !Exists(db, a) || fault.Early?
    || (fault.Late? && a.Disable? && db.collectors[a.collector].status.Active?)
  }

  /** A step that goes through. */
  function Do(db: Tables, a: Action, now: int): (Tables, Captured)
    requires Exists(db, a)
  {
    match a
    case Disable(id) =>
      var c := db.collectors[id];
      if c.status.Disabled? then (db, NOTHING)
      else (db.(collectors := db.collectors[id := StatusRow(c, Disabled, now)]), Captured(Some(c.status), None))
    case Tune(id, u) =>
      var r := db.rules[id];
      (db.(rules := db.rules[id := RuleRow(r, ApplyUpdate(r, u), now)]), Captured(None, Some(r)))
  }

  /** What a failing step leaves: nothing, unless the error came after its write. */
  function Failed(db: Tables, a: Action, fault: Fault, now: int): Tables {
    if fault.Late? && a.Disable? && Exists(db, a) then Do(db, a, now).0 else db
  }

  function Undo(db: Tables, a: Action, cap: Captured, now: int): (Tables, Captured) {
    match a
    case Disable(id) =>
      if id !in db.collectors || db.collectors[id].status.Active? then (db, cap)
      else
        var target := if cap.status.Some? then cap.status.value else Active;
        (db.(collectors := db.collectors[id := StatusRow(db.collectors[id], target, now)]), cap)
    case Tune(id, _) =>
      if cap.rule.None? || id !in db.rules then (db, cap)
      else
        var row := RuleRow(db.rules[id], cap.rule.value, now);
        (db.(rules := db.rules[id := row]),
         cap.(rule := Some(cap.rule.value.(version := row.version, updatedAt := now))))
  }

  /** A database error met by a compensation. A failing read is taken for a vanished object; a failing
      write is reported, after the captured rule has moved on to the version it was read at; and the status
      just written may fail to be read back, which is reported as well. */
  datatype Trouble = Fine | NoRead | NoWrite | Unconfirmed

  /** The compensation writes all the same. */
  predicate Lands(trouble: Trouble) {
    trouble.Fine? || trouble.Unconfirmed?
  }

  /** Compensating a disable finds its collector gone or active already. */
  predicate Idle(db: Tables, id: CollectorId) {
    id !in db.collectors || db.collectors[id].status.Active?
  }

  /** A compensation that may meet trouble, and whether it reports success. */
  function UndoUnder(db: Tables, a: Action, cap: Captured, now: int, trouble: Trouble): (Tables, Captured, bool) {
    if Lands(trouble) then
      var (db', cap') := Undo(db, a, cap, now);
      (db', cap', trouble.Fine? || a.Tune? || Idle(db, a.collector))
    else if trouble.NoRead? then (db, cap, true)
    else
      match a
      case Disable(id) => (db, cap, Idle(db, id))
      case Tune(id, _) =>
        if cap.rule.None? || id !in db.rules then (db, cap, true)
        else (db, cap.(rule := Some(cap.rule.value.(version := db.rules[id].version, updatedAt := now))), false)
  }

  // --- A batch --------------------------------------------------------------------------------

  /** The tables and the captured states after the first n steps have gone through. */
  datatype Ahead = Ahead(db: Tables, caps: seq<Captured>)

  ghost predicate AllExist(db: Tables, actions: seq<Action>) {
    forall i :: 0 <= i < |actions| ==> Exists(db, actions[i])
  }

  function Forward(db: Tables, actions: seq<Action>, now: int, n: nat): (r: Ahead)
    requires n <= |actions| && AllExist(db, actions[..n])
    ensures |r.caps| == n && r.db.rules.Keys == db.rules.Keys && r.db.collectors.Keys == db.collectors.Keys
  {
    if n == 0 then Ahead(db, [])
    else
      assert forall i :: 0 <= i < n - 1 ==> actions[..n - 1][i] == actions[..n][i];
      var b := Forward(db, actions, now, n - 1);
      assert actions[..n][n - 1] == actions[n - 1];
      var (db', cap) := Do(b.db, actions[n - 1], now);
      Ahead(db', b.caps + [cap])
  }

  /** Compensations n - 1 down to 0. */
  function Backward(db: Tables, actions: seq<Action>, caps: seq<Captured>, now: int, n: nat): (r: Ahead)
    requires n <= |actions| && n <= |caps|
    ensures |r.caps| == |caps| && r.caps[n..] == caps[n..]
    ensures r.db.rules.Keys == db.rules.Keys && r.db.collectors.Keys == db.collectors.Keys
    decreases n
  {
    if n == 0 then Ahead(db, caps)
    else
      var (db', cap) := Undo(db, actions[n - 1], caps[n - 1], now);
      Backward(db', actions, caps[n - 1 := cap], now, n - 1)
  }

  /** The same pass with whatever trouble it meets at each step: it never stops early, and it is clean
      when no compensation reported an error. */
  function BackwardUnder(db: Tables, actions: seq<Action>, caps: seq<Captured>, now: int, n: nat,
                         trouble: nat -> Trouble)
    : (r: (Ahead, bool))
    requires n <= |actions| && n <= |caps|
    ensures |r.0.caps| == |caps|
    ensures r.0.db.rules.Keys == db.rules.Keys && r.0.db.collectors.Keys == db.collectors.Keys
    decreases n
  {
    if n == 0 then (Ahead(db, caps), true)
    else
      var (db', cap, ok) := UndoUnder(db, actions[n - 1], caps[n - 1], now, trouble(n - 1));
      var (b, clean) := BackwardUnder(db', actions, caps[n - 1 := cap], now, n - 1, trouble);
      (b, clean && ok)
  }

  ghost predicate Calm(trouble: nat -> Trouble, n: nat) {
    forall i: nat :: i < n ==> trouble(i).Fine?
  }

  lemma {:induction false} CalmPassIsPlain(db: Tables, actions: seq<Action>, caps: seq<Captured>, now: int, n: nat,
                                           trouble: nat -> Trouble)
    requires n <= |actions| && n <= |caps| && Calm(trouble, n)
    ensures BackwardUnder(db, actions, caps, now, n, trouble) == (Backward(db, actions, caps, now, n), true)
    decreases n
  {
    if n > 0 {
      var (db', cap) := Undo(db, actions[n - 1], caps[n - 1], now);
      CalmPassIsPlain(db', actions, caps[n - 1 := cap], now, n - 1, trouble);
    }
  }

  /** The step fails when its turn comes, told from where the batch starts: a late error strikes it only
      if its collector started active and no earlier step named it. */
  predicate Stops(db: Tables, actions: seq<Action>, faults: nat -> Fault, i: nat)
    requires i < |actions|
  {
    || !Exists(db, actions[i]) || faults(i).Early?
    || (faults(i).Late? && actions[i].Disable? && db.collectors[actions[i].collector].status.Active?
        && actions[i] !in actions[..i])
  }

  /** The step at which a batch stops: the first that fails, or the number of steps when there is none. */
  function FirstFailure(db: Tables, actions: seq<Action>, faults: nat -> Fault, from: nat): (n: nat)
    requires from <= |actions|
    ensures from <= n <= |actions|
    ensures forall i :: from <= i < n ==> Exists(db, actions[i]) && !Stops(db, actions, faults, i)
    ensures n < |actions| ==> Stops(db, actions, faults, n)
    decreases |actions| - from
  {
    if from == |actions| || Stops(db, actions, faults, from) then from
    else FirstFailure(db, actions, faults, from + 1)
  }

  /** The tables when the batch stops at step n, before any compensation. */
  function Stopped(b: Ahead, actions: seq<Action>, faults: nat -> Fault, now: int, n: nat): Tables
    requires n < |actions|
  {
    Failed(b.db, actions[n], faults(n), now)
  }

  /** The whole batch: forward to the first failure, and back again if there was one. */
  function BatchOutcome(db: Tables, actions: seq<Action>, faults: nat -> Fault, now: int): Ahead {
    var n := FirstFailure(db, actions, faults, 0);
    var b := Forward(db, actions, now, n);
    if n == |actions| then b else Backward(Stopped(b, actions, faults, now, n), actions, b.caps, now, n)
  }

  /** The whole batch when the compensations meet trouble too. */
  function OutcomeUnder(db: Tables, actions: seq<Action>, faults: nat -> Fault, trouble: nat -> Trouble, now: int)
    : (Ahead, bool)
  {
    var n := FirstFailure(db, actions, faults, 0);
    var b := Forward(db, actions, now, n);
    if n == |actions| then (b, true)
    else BackwardUnder(Stopped(b, actions, faults, now, n), actions, b.caps, now, n, trouble)
  }

  lemma CalmOutcomeIsPlain(db: Tables, actions: seq<Action>, faults: nat -> Fault, trouble: nat -> Trouble, now: int)
    requires Calm(trouble, |actions|) || FirstFailure(db, actions, faults, 0) == |actions|
    ensures OutcomeUnder(db, actions, faults, trouble, now) == (BatchOutcome(db, actions, faults, now), true)
  {
    var n := FirstFailure(db, actions, faults, 0);
    if n < |actions| {
      var b := Forward(db, actions, now, n);
      CalmPassIsPlain(Stopped(b, actions, faults, now, n), actions, b.caps, now, n, trouble);
    }
  }

  lemma LastStep(db: Tables, actions: seq<Action>, now: int, n: nat)
    requires 0 < n <= |actions| && AllExist(db, actions[..n])
    ensures AllExist(db, actions[..n - 1])
    ensures var b := Forward(db, actions, now, n - 1);
      && Exists(b.db, actions[n - 1])
      && var (db', cap) := Do(b.db, actions[n - 1], now);
         Forward(db, actions, now, n) == Ahead(db', b.caps + [cap])
  {
    assert actions[..n - 1] == actions[..n][..n - 1];
    assert actions[..n][n - 1] == actions[n - 1];
  }

  /** After n steps the active collectors are those that started active and that none of the steps named. */
  lemma {:induction false} ForwardStatus(db: Tables, actions: seq<Action>, now: int, n: nat, id: CollectorId)
    requires n <= |actions| && AllExist(db, actions[..n]) && id in db.collectors
    ensures Forward(db, actions, now, n).db.collectors[id].status.Active?
       <==> db.collectors[id].status.Active? && Disable(id) !in actions[..n]
  {
    if n > 0 {
      LastStep(db, actions, now, n);
      ForwardStatus(db, actions, now, n - 1, id);
      assert actions[..n] == actions[..n - 1] + [actions[n - 1]];
    }
  }

  /** So Stops tells which step fails. */
  lemma StopsWhenReached(db: Tables, actions: seq<Action>, faults: nat -> Fault, now: int, i: nat)
    requires i < |actions| && AllExist(db, actions[..i])
    ensures Fails(Forward(db, actions, now, i).db, actions[i], faults(i)) <==> Stops(db, actions, faults, i)
  {
    if actions[i].Disable? && Exists(db, actions[i]) {
      ForwardStatus(db, actions, now, i, actions[i].collector);
    }
  }

  // --- Rules ----------------------------------------------------------------------------------

  ghost predicate AllTune(actions: seq<Action>) {
    forall i :: 0 <= i < |actions| ==> actions[i].Tune?
  }

  function Occurrences(actions: seq<Action>, id: RuleId, n: nat): nat
    requires n <= |actions|
  {
    if n == 0 then 0
    else Occurrences(actions, id, n - 1) + if actions[n - 1].Tune? && actions[n - 1].rule == id then 1 else 0
  }

  /** Equal in all fields but version and updated_at. */
  ghost predicate SameRule(a: Rule, b: Rule) {
    a == b.(version := a.version, updatedAt := a.updatedAt)
  }

  /** Captured rules that agree with what the forward pass captured, up to version and updated_at. */
  ghost predicate SameCaps(a: seq<Captured>, b: seq<Captured>, n: nat)
    requires n <= |a| && n <= |b|
  {
    forall i :: 0 <= i < n ==> a[i].rule.Some? && b[i].rule.Some? && SameRule(a[i].rule.value, b[i].rule.value)
  }

  lemma {:induction false} ForwardCounts(db: Tables, actions: seq<Action>, now: int, n: nat, id: RuleId)
    requires n <= |actions| && AllExist(db, actions[..n]) && AllTune(actions) && id in db.rules
    ensures var r := Forward(db, actions, now, n).db;
      && r.collectors == db.collectors
      && r.rules[id].version == db.rules[id].version + Occurrences(actions, id, n)
      && (Occurrences(actions, id, n) == 0 ==> r.rules[id] == db.rules[id])
      && r.rules[id].createdAt == db.rules[id].createdAt
  {
    if n > 0 {
      assert actions[..n - 1] == actions[..n][..n - 1];
      assert actions[..n][n - 1] == actions[n - 1];
      ForwardCounts(db, actions, now, n - 1, id);
    }
  }

  /** Undoing one tune brings its rule back to the row `before` that the step captured. */
  lemma UndoTune(before: map<RuleId, Rule>, from: Tables, a: Action, cap: Captured, later: int, id: RuleId)
    requires a.Tune? && a.rule in before && from.rules.Keys == before.Keys && id in before
    requires cap.rule.Some? && SameRule(cap.rule.value, before[a.rule])
    requires from.rules[id].createdAt == before[id].createdAt
    ensures var db' := Undo(from, a, cap, later).0;
      && db'.collectors == from.collectors && db'.rules.Keys == from.rules.Keys
      && db'.rules[id].createdAt == from.rules[id].createdAt
      && if id == a.rule then SameRule(db'.rules[id], before[id]) && db'.rules[id].version == from.rules[id].version + 1
         else db'.rules[id] == from.rules[id]
  {
  }

  lemma CapsBefore(caps: seq<Captured>, b: seq<Captured>, cap: Captured, n: nat, put: Captured)
    requires 0 < n <= |caps| && |b| == n - 1 && SameCaps(caps, b + [cap], n)
    ensures SameCaps(caps[n - 1 := put], b, n - 1)
    ensures caps[n - 1].rule.Some? && cap.rule.Some? && SameRule(caps[n - 1].rule.value, cap.rule.value)
  {
    forall i | 0 <= i < n - 1
      ensures caps[n - 1 := put][i].rule.Some? && b[i].rule.Some?
      ensures SameRule(caps[n - 1 := put][i].rule.value, b[i].rule.value)
    {
      assert (b + [cap])[i] == b[i];
    }
    assert (b + [cap])[n - 1] == cap;
  }

  /** From `from` to `to` by k compensations of a rule whose value before the batch was `before`. */
  ghost predicate Restored(before: Rule, from: Rule, to: Rule, k: nat) {
    to.version == from.version + k && if k > 0 then SameRule(to, before) else to == from
  }

  lemma RestoredChain(before: Rule, mid: Rule, from: Rule, next: Rule, to: Rule, k: nat, undone: bool)
    requires Restored(before, next, to, k) && (k == 0 ==> mid == before)
    requires if undone then SameRule(next, mid) && next.version == from.version + 1 else next == from
    ensures Restored(before, from, to, k + if undone then 1 else 0)
  {
  }

  /** Undoing n tunes, from whatever the rules have become, gives each rule among them its value from
      before the batch, one version later for each time it occurs, and leaves the others alone. */
  lemma {:induction false} BackwardRestores(db: Tables, actions: seq<Action>, now: int, n: nat, from: Tables,
                                            caps: seq<Captured>, later: int, id: RuleId)
    requires n <= |actions| && AllExist(db, actions[..n]) && AllTune(actions)
    requires n <= |caps| && SameCaps(caps, Forward(db, actions, now, n).caps, n)
    requires from.rules.Keys == db.rules.Keys && id in db.rules
    requires from.rules[id].createdAt == db.rules[id].createdAt
    ensures var r := Backward(from, actions, caps, later, n);
      && r.db.collectors == from.collectors
      && Restored(db.rules[id], from.rules[id], r.db.rules[id], Occurrences(actions, id, n))
    decreases n
  {
    if n > 0 {
      LastStep(db, actions, now, n);
      var b := Forward(db, actions, now, n - 1);
      var (db', cap) := Undo(from, actions[n - 1], caps[n - 1], later);
      ForwardCounts(db, actions, now, n - 1, id);
      CapsBefore(caps, b.caps, Do(b.db, actions[n - 1], now).1, n, cap);
      UndoTune(b.db.rules, from, actions[n - 1], caps[n - 1], later, id);
      BackwardRestores(db, actions, now, n - 1, db', caps[n - 1 := cap], later, id);
      RestoredChain(db.rules[id], b.db.rules[id], from.rules[id], db'.rules[id],
                    Backward(from, actions, caps, later, n).db.rules[id], Occurrences(actions, id, n - 1),
                    actions[n - 1].rule == id);
    }
  }
}
