/** What a batch of rule updates makes of each field of a rule: what the last update that gives it says. */
module SagaFields {
  import opened Wrappers
  import opened Rules
  import opened Saga
  import opened SagaTheorems
  import opened SagaTrouble

  // What an update gives, field by field.

  function GivenMin(u: RuleUpdate): Option<Option<real>> {
    if u.minValue.Some? then Some(u.minValue) else None
  }

  function GivenMax(u: RuleUpdate): Option<Option<real>> {
    if u.maxValue.Some? then Some(u.maxValue) else None
  }

  function GivenEnabled(u: RuleUpdate): Option<bool> {
    u.enabled
  }

  function GivenSeverity(u: RuleUpdate): Option<Text> {
    if u.severity != Text("") then Some(u.severity) else None
  }

  function GivenTrigger(u: RuleUpdate): Option<Text> {
    u.faultTrigger
  }

  /** Step i updates this rule and gives the field. */
  ghost predicate Gives<T>(actions: seq<Action>, id: RuleId, gives: RuleUpdate -> Option<T>, i: nat)
    requires i < |actions|
  {
    actions[i].Tune? && actions[i].rule == id && gives(actions[i].update).Some?
  }

  /** Step i is the last of the first n to give the field. */
  ghost predicate IsLast<T>(actions: seq<Action>, id: RuleId, n: nat, gives: RuleUpdate -> Option<T>, i: nat)
    requires n <= |actions|
  {
    i < n && Gives(actions, id, gives, i) && forall k: nat :: i < k < n ==> !Gives(actions, id, gives, k)
  }

  ghost predicate NoneGives<T>(actions: seq<Action>, id: RuleId, n: nat, gives: RuleUpdate -> Option<T>)
    requires n <= |actions|
  {
    forall i: nat :: i < n ==> !Gives(actions, id, gives, i)
  }

  /** The field ends as the last of the first n steps to give it says, and as it started if none does. */
  ghost predicate LastGiven<T>(actions: seq<Action>, id: RuleId, n: nat, gives: RuleUpdate -> Option<T>, start: T,
                               end: T)
    requires n <= |actions|
  {
    && (forall i: nat :: IsLast(actions, id, n, gives, i) ==> gives(actions[i].update) == Some(end))
    && (NoneGives(actions, id, n, gives) ==> end == start)
  }

  lemma OneStepGives<T>(actions: seq<Action>, id: RuleId, n: nat, gives: RuleUpdate -> Option<T>, start: T, end: T)
    requires n < |actions| && Gives(actions, id, gives, n) && gives(actions[n].update) == Some(end)
    ensures LastGiven(actions, id, n + 1, gives, start, end)
  {
    forall i: nat | IsLast(actions, id, n + 1, gives, i)
      ensures gives(actions[i].update) == Some(end)
    {
      assert i == n;
    }
  }

  lemma OneStepLeaves<T>(actions: seq<Action>, id: RuleId, n: nat, gives: RuleUpdate -> Option<T>, start: T, end: T)
    requires n < |actions| && LastGiven(actions, id, n, gives, start, end) && !Gives(actions, id, gives, n)
    ensures LastGiven(actions, id, n + 1, gives, start, end)
  {
    forall i: nat | IsLast(actions, id, n + 1, gives, i)
      ensures IsLast(actions, id, n, gives, i)
    {
    }
    assert NoneGives(actions, id, n + 1, gives) ==> NoneGives(actions, id, n, gives);
  }

  lemma LastGivenStep<T>(actions: seq<Action>, id: RuleId, n: nat, gives: RuleUpdate -> Option<T>, start: T, mid: T,
                         end: T)
    requires n < |actions| && LastGiven(actions, id, n, gives, start, mid)
    requires Gives(actions, id, gives, n) ==> gives(actions[n].update) == Some(end)
    requires !Gives(actions, id, gives, n) ==> end == mid
    ensures LastGiven(actions, id, n + 1, gives, start, end)
  {
    if Gives(actions, id, gives, n) {
      OneStepGives(actions, id, n, gives, start, end);
    } else {
      OneStepLeaves(actions, id, n, gives, start, end);
    }
  }

  /** Every field is what the last of the first n steps to give it says; the columns no update gives stay. */
  ghost predicate FieldsAre(before: Rule, after: Rule, actions: seq<Action>, id: RuleId, n: nat)
    requires n <= |actions|
  {
    && LastGiven(actions, id, n, GivenMin, before.minValue, after.minValue)
    && LastGiven(actions, id, n, GivenMax, before.maxValue, after.maxValue)
    && LastGiven(actions, id, n, GivenEnabled, before.enabled, after.enabled)
    && LastGiven(actions, id, n, GivenSeverity, before.severity, after.severity)
    && LastGiven(actions, id, n, GivenTrigger, before.faultTrigger, after.faultTrigger)
    && after.collector == before.collector && after.metric == before.metric
    && after.windowSeconds == before.windowSeconds && after.createdAt == before.createdAt
  }

  lemma FieldsStep(before: Rule, mid: Rule, end: Rule, actions: seq<Action>, id: RuleId, n: nat)
    requires n < |actions| && FieldsAre(before, mid, actions, id, n)
    requires end == if actions[n].Tune? && actions[n].rule == id then ApplyUpdate(mid, actions[n].update) else mid
    ensures FieldsAre(before, end, actions, id, n + 1)
  {
    LastGivenStep(actions, id, n, GivenMin, before.minValue, mid.minValue, end.minValue);
    LastGivenStep(actions, id, n, GivenMax, before.maxValue, mid.maxValue, end.maxValue);
    LastGivenStep(actions, id, n, GivenEnabled, before.enabled, mid.enabled, end.enabled);
    LastGivenStep(actions, id, n, GivenSeverity, before.severity, mid.severity, end.severity);
    LastGivenStep(actions, id, n, GivenTrigger, before.faultTrigger, mid.faultTrigger, end.faultTrigger);
  }

  lemma NoneTunedFields(r: Rule, actions: seq<Action>, id: RuleId, n: nat)
    requires n == 0
    ensures FieldsAre(r, Tuned(r, actions, id, n), actions, id, n)
  {
  }

  lemma {:induction false} TunedFields(r: Rule, actions: seq<Action>, id: RuleId, n: nat)
    requires n <= |actions|
    ensures FieldsAre(r, Tuned(r, actions, id, n), actions, id, n)
    decreases n, 1
  {
    if n == 0 {
      NoneTunedFields(r, actions, id, n);
    } else {
      MoreTunedFields(r, actions, id, n);
    }
  }

  lemma {:induction false} MoreTunedFields(r: Rule, actions: seq<Action>, id: RuleId, n: nat)
    requires 0 < n <= |actions|
    ensures FieldsAre(r, Tuned(r, actions, id, n), actions, id, n)
    decreases n, 0
  {
    TunedFields(r, actions, id, n - 1);
    FieldsStep(r, Tuned(r, actions, id, n - 1), Tuned(r, actions, id, n), actions, id, n - 1);
  }

  lemma SameRuleFields(before: Rule, tuned: Rule, after: Rule, actions: seq<Action>, id: RuleId, n: nat)
    requires n <= |actions| && FieldsAre(before, tuned, actions, id, n) && SameRule(after, tuned)
    ensures FieldsAre(before, after, actions, id, n)
  {
  }

  /** After a batch of tunes that went through, each field of a rule is what the last update of the rule that
      gives it says, and what it was if none does. */
  lemma SuccessfulTuneFields(db: Tables, actions: seq<Action>, faults: nat -> Fault, now: int, id: RuleId)
    requires AllTune(actions) && id in db.rules && FirstFailure(db, actions, faults, 0) == |actions|
    ensures var out := BatchOutcome(db, actions, faults, now).db;
      id in out.rules && FieldsAre(db.rules[id], out.rules[id], actions, id, |actions|)
  {
    SuccessfulTuneAppliesAll(db, actions, faults, now, id);
    TunedFields(db.rules[id], actions, id, |actions|);
    SameRuleFields(db.rules[id], Tuned(db.rules[id], actions, id, |actions|),
                   BatchOutcome(db, actions, faults, now).db.rules[id], actions, id, |actions|);
  }

  /** After a failed one it is so over the steps before the first whose compensation landed, or over the whole
      completed prefix when none did. */
  lemma FailedTuneFields(db: Tables, actions: seq<Action>, faults: nat -> Fault, trouble: nat -> Trouble, now: int,
                         id: RuleId)
    requires AllTune(actions) && id in db.rules && FirstFailure(db, actions, faults, 0) < |actions|
    ensures var n, out := FirstFailure(db, actions, faults, 0), OutcomeUnder(db, actions, faults, trouble, now).0.db;
      id in out.rules && FieldsAre(db.rules[id], out.rules[id], actions, id, HeldAt(actions, trouble, id, n))
  {
    var k := HeldAt(actions, trouble, id, FirstFailure(db, actions, faults, 0));
    FailedTuneLeaves(db, actions, faults, trouble, now, id);
    TunedFields(db.rules[id], actions, id, k);
    SameRuleFields(db.rules[id], Tuned(db.rules[id], actions, id, k),
                   OutcomeUnder(db, actions, faults, trouble, now).0.db.rules[id], actions, id, k);
  }
}
