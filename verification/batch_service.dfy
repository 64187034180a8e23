/** The two batches the service offers: disabling collectors, and tuning rules. */
module BatchService {
  import opened Rules
  import opened Saga
  import opened SagaFields
  import opened SagaReports
  import opened SagaRunner
  import opened SagaTheorems
  import opened SagaTrouble

  function Disables(ids: seq<CollectorId>): (r: seq<Action>)
    ensures |r| == |ids| && forall i :: 0 <= i < |ids| ==> r[i] == Disable(ids[i])
  {
    seq(|ids|, i requires 0 <= i < |ids| => Disable(ids[i]))
  }

  function Tunes(updates: seq<(RuleId, RuleUpdate)>): (r: seq<Action>)
    ensures |r| == |updates| && forall i :: 0 <= i < |updates| ==> r[i] == Tune(updates[i].0, updates[i].1)
  {
    seq(|updates|, i requires 0 <= i < |updates| => Tune(updates[i].0, updates[i].1))
  }

  /** One fresh step for each action. */
  method MakeSteps(actions: seq<Action>) returns (steps: seq<Step>)
    ensures Distinct(steps) && NotRun(steps, 0) && Actions(steps) == actions
    ensures forall i :: 0 <= i < |steps| ==> fresh(steps[i])
  {
    steps := [];
    for i := 0 to |actions|
      invariant |steps| == i && Distinct(steps) && NotRun(steps, 0)
      invariant forall j :: 0 <= j < i ==> fresh(steps[j]) && steps[j].action == actions[j]
    {
      var step := new Step(actions[i]);
      steps := steps + [step];
    }
  }

  /** The status in which a batch over these collectors leaves one that it listed and completed: disabled,
      unless the batch failed and the compensation of one of the collector's steps landed. */
  ghost function StatusLeft(ids: seq<CollectorId>, trouble: nat -> Trouble, n: nat, ok: bool, id: CollectorId): Status
    requires n <= |ids|
  {
    if !ok && exists i: nat :: i < n && ids[i] == id && Lands(trouble(i)) then Active else Disabled
  }

  /** What the batch makes of a collector: one it completed is left in that status; the one at which it
      stopped is disabled if the error came after the write; every other one is left alone. */
  ghost predicate Left(ids: seq<CollectorId>, faults: nat -> Fault, trouble: nat -> Trouble, n: nat, id: CollectorId,
                       before: Collector, after: Collector)
    requires n <= |ids|
  {
    if id in ids[..n] then after.status == StatusLeft(ids, trouble, n, n == |ids|, id)
    else if n < |ids| && ids[n] == id && faults(n).Late? then before.status.Active? && after.status.Disabled?
    else after == before
  }

  /** On success the listed collectors are disabled; on failure those of the completed prefix that could be
      undone are active, and the one whose new status could not be read back is disabled. Nothing else
      changes. */
  method DisableCollectors(db: Database, ids: seq<CollectorId>, faults: nat -> Fault, trouble: nat -> Trouble, now: int)
    returns (completed: nat, ok: bool, clean: bool)
    modifies db
    ensures completed == FirstFailure(old(db.State()), Disables(ids), faults, 0) && (ok <==> completed == |ids|)
    ensures db.rules == old(db.rules) && db.collectors.Keys == old(db.collectors).Keys
    ensures forall id :: id in old(db.collectors) ==>
      Left(ids, faults, trouble, completed, id, old(db.collectors)[id], db.collectors[id])
    ensures clean <==> ok || forall i: nat :: i < completed ==> !Loud(Disables(ids), trouble, completed, i)
  {
    ghost var start := db.State();
    var steps := MakeSteps(Disables(ids));
    completed, ok, clean := RunBatch(db, steps, faults, trouble, now);
    UnderKeys(start, Disables(ids), faults, trouble, now);
    forall id | id in start.collectors
      ensures Left(ids, faults, trouble, completed, id, start.collectors[id], db.collectors[id])
    {
      DisableResult(start, ids, faults, trouble, now, id);
    }
    DisableReport(start, ids, faults, trouble, now);
  }

  lemma DisableReport(db: Tables, ids: seq<CollectorId>, faults: nat -> Fault, trouble: nat -> Trouble, now: int)
    ensures var n := FirstFailure(db, Disables(ids), faults, 0);
      OutcomeUnder(db, Disables(ids), faults, trouble, now).1
      <==> n == |ids| || forall i: nat :: i < n ==> !Loud(Disables(ids), trouble, n, i)
  {
    if FirstFailure(db, Disables(ids), faults, 0) < |ids| {
      FailedDisableReports(db, Disables(ids), faults, trouble, now);
    }
  }

  lemma DisableResult(db: Tables, ids: seq<CollectorId>, faults: nat -> Fault, trouble: nat -> Trouble, now: int,
                      id: CollectorId)
    requires id in db.collectors
    ensures var n := FirstFailure(db, Disables(ids), faults, 0);
      var out := OutcomeUnder(db, Disables(ids), faults, trouble, now).0.db;
      id in out.collectors && Left(ids, faults, trouble, n, id, db.collectors[id], out.collectors[id])
  {
    var actions := Disables(ids);
    var n := FirstFailure(db, actions, faults, 0);
    NamedIsListed(ids, n, id);
    if n < |ids| {
      FailedDisableLeaves(db, actions, faults, trouble, now, id);
      UndoneIsListed(ids, trouble, n, id);
    } else {
      CalmOutcomeIsPlain(db, actions, faults, trouble, now);
      DisableOutcome(db, actions, faults, now, id);
    }
  }

  lemma UndoneIsListed(ids: seq<CollectorId>, trouble: nat -> Trouble, n: nat, id: CollectorId)
    requires n <= |ids|
    ensures UndoneSomewhere(Disables(ids), trouble, n, id)
       <==> exists i: nat :: i < n && ids[i] == id && Lands(trouble(i))
  {
    if i: nat :| i < n && ids[i] == id && Lands(trouble(i)) {
      assert Disables(ids)[i] == Disable(id);
    }
  }

  lemma NamedIsListed(ids: seq<CollectorId>, n: nat, id: CollectorId)
    requires n <= |ids|
    ensures Named(Disables(ids), n, id) <==> id in ids[..n]
  {
    if Named(Disables(ids), n, id) {
      var i :| 0 <= i < n && Disables(ids)[i] == Disable(id);
      assert ids[..n][i] == id;
    }
    if id in ids[..n] {
      var i :| 0 <= i < n && ids[..n][i] == id;
      assert Disables(ids)[i] == Disable(id);
    }
  }

  /** Neither batch adds or removes an object, nor touches the other table. */
  lemma UnderKeys(db: Tables, actions: seq<Action>, faults: nat -> Fault, trouble: nat -> Trouble, now: int)
    ensures var out := OutcomeUnder(db, actions, faults, trouble, now).0.db;
      && out.rules.Keys == db.rules.Keys && out.collectors.Keys == db.collectors.Keys
      && (AllDisable(actions) ==> out.rules == db.rules) && (AllTune(actions) ==> out.collectors == db.collectors)
  {
    var n := FirstFailure(db, actions, faults, 0);
    ForwardOtherTable(db, actions, now, n);
    if n < |actions| {
      var b := Forward(db, actions, now, n);
      FailedOtherTable(b.db, actions[n], faults(n), now);
      BackwardOtherTable(Stopped(b, actions, faults, now, n), actions, b.caps, now, n, trouble);
    }
  }

  lemma FailedOtherTable(db: Tables, a: Action, fault: Fault, now: int)
    ensures var out := Failed(db, a, fault, now);
      && out.rules == db.rules && out.collectors.Keys == db.collectors.Keys
      && (a.Tune? ==> out.collectors == db.collectors)
  {
  }

  lemma {:induction false} ForwardOtherTable(db: Tables, actions: seq<Action>, now: int, n: nat)
    requires n <= |actions| && AllExist(db, actions[..n])
    ensures var out := Forward(db, actions, now, n).db;
      (AllDisable(actions) ==> out.rules == db.rules) && (AllTune(actions) ==> out.collectors == db.collectors)
  {
    if n > 0 {
      LastStep(db, actions, now, n);
      ForwardOtherTable(db, actions, now, n - 1);
    }
  }

  lemma {:induction false} BackwardOtherTable(db: Tables, actions: seq<Action>, caps: seq<Captured>, now: int, n: nat,
                                              trouble: nat -> Trouble)
    requires n <= |actions| && n <= |caps|
    ensures var out := BackwardUnder(db, actions, caps, now, n, trouble).0.db;
      (AllDisable(actions) ==> out.rules == db.rules) && (AllTune(actions) ==> out.collectors == db.collectors)
    decreases n
  {
    if n > 0 {
      var (db', cap, ok) := UndoUnder(db, actions[n - 1], caps[n - 1], now, trouble(n - 1));
      BackwardOtherTable(db', actions, caps[n - 1 := cap], now, n - 1, trouble);
    }
  }

  /** On success every rule has its updates applied in order; on failure it holds those before its first
      step that was undone without trouble, which is none of them when its first step was. */
  method UpdateRules(db: Database, updates: seq<(RuleId, RuleUpdate)>, faults: nat -> Fault, trouble: nat -> Trouble,
                     now: int)
    returns (completed: nat, ok: bool, clean: bool)
    modifies db
    ensures completed == FirstFailure(old(db.State()), Tunes(updates), faults, 0) && (ok <==> completed == |updates|)
    ensures db.collectors == old(db.collectors) && db.rules.Keys == old(db.rules).Keys
    ensures forall id :: id in old(db.rules) ==>
      RuleLeft(old(db.rules)[id], db.rules[id], Tunes(updates), trouble, id, completed, ok)
    ensures clean <==> ok || forall i: nat :: i < completed ==> !trouble(i).NoWrite?
  {
    ghost var start := db.State();
    var steps := MakeSteps(Tunes(updates));
    completed, ok, clean := RunBatch(db, steps, faults, trouble, now);
    UnderKeys(start, Tunes(updates), faults, trouble, now);
    forall id | id in start.rules
      ensures RuleLeft(start.rules[id], db.rules[id], Tunes(updates), trouble, id, completed, ok)
    {
      TuneResult(start, Tunes(updates), faults, trouble, now, id);
    }
    TuneReport(start, updates, faults, trouble, now);
  }

  lemma TuneReport(db: Tables, updates: seq<(RuleId, RuleUpdate)>, faults: nat -> Fault, trouble: nat -> Trouble,
                   now: int)
    ensures var n := FirstFailure(db, Tunes(updates), faults, 0);
      OutcomeUnder(db, Tunes(updates), faults, trouble, now).1
      <==> n == |updates| || forall i: nat :: i < n ==> !trouble(i).NoWrite?
  {
    if FirstFailure(db, Tunes(updates), faults, 0) < |updates| {
      FailedTuneReports(db, Tunes(updates), faults, trouble, now);
    }
  }

  /** What a batch of tunes makes of a rule: each field is what the last of the steps it holds says, and its
      version has grown by one for every write. */
  ghost predicate RuleLeft(before: Rule, after: Rule, actions: seq<Action>, trouble: nat -> Trouble, id: RuleId, n: nat,
                           ok: bool)
    requires n <= |actions|
  {
    var held := if ok then n else HeldAt(actions, trouble, id, n);
    && FieldsAre(before, after, actions, id, held)
    && after.version == before.version + Occurrences(actions, id, n)
                        + if ok then 0 else TimesUndone(actions, trouble, id, n)
  }

  lemma TuneResult(db: Tables, actions: seq<Action>, faults: nat -> Fault, trouble: nat -> Trouble, now: int,
                   id: RuleId)
    requires AllTune(actions) && id in db.rules
    ensures var n, out := FirstFailure(db, actions, faults, 0), OutcomeUnder(db, actions, faults, trouble, now).0.db;
      id in out.rules && RuleLeft(db.rules[id], out.rules[id], actions, trouble, id, n, n == |actions|)
  {
    if FirstFailure(db, actions, faults, 0) == |actions| {
      CalmOutcomeIsPlain(db, actions, faults, trouble, now);
      SuccessfulTuneAppliesAll(db, actions, faults, now, id);
      SuccessfulTuneFields(db, actions, faults, now, id);
    } else {
      FailedTuneLeaves(db, actions, faults, trouble, now, id);
      FailedTuneFields(db, actions, faults, trouble, now, id);
    }
  }
}
