/** What the two batches of the service guarantee, for lists that may name an object many times. */
module SagaTheorems {
  import opened Wrappers
  import opened Rules
  import opened Saga

  // --- Where a batch stops ----------------------------------------------------------------------

  lemma {:induction false} FailureIs(db: Tables, actions: seq<Action>, faults: nat -> Fault, from: nat, n: nat)
    requires from <= n <= |actions|
    requires forall i: nat :: from <= i < n ==> !Stops(db, actions, faults, i)
    requires n < |actions| ==> Stops(db, actions, faults, n)
    ensures FirstFailure(db, actions, faults, from) == n
    decreases n - from
  {
    if from < n {
      FailureIs(db, actions, faults, from + 1, n);
    }
  }

  /** A late error in this step would strike: no earlier step names its collector. */
  predicate Strikable(actions: seq<Action>, faults: nat -> Fault, i: nat)
    requires i < |actions|
  {
    faults(i).Late? && actions[i].Disable? && actions[i] !in actions[..i]
  }

  ghost predicate SameObjects(db: Tables, db': Tables) {
    db'.rules.Keys == db.rules.Keys && db'.collectors.Keys == db.collectors.Keys
  }

  /** The collectors that late errors could strike in the steps up to n have the status they had. */
  ghost predicate AlikeWhereStruck(db: Tables, db': Tables, actions: seq<Action>, faults: nat -> Fault, n: nat)
    requires SameObjects(db, db')
  {
    forall i: nat :: i <= n && i < |actions| && Strikable(actions, faults, i) && Exists(db, actions[i]) ==>
      db'.collectors[actions[i].collector].status == db.collectors[actions[i].collector].status
  }

  /** Where a batch stops depends on which objects exist, on the errors it meets, and on the statuses of
      the collectors that late errors could strike. */
  lemma SameFailureIff(db: Tables, db': Tables, actions: seq<Action>, faults: nat -> Fault)
    requires SameObjects(db, db')
    ensures var n := FirstFailure(db, actions, faults, 0);
      FirstFailure(db', actions, faults, 0) == n <==> AlikeWhereStruck(db, db', actions, faults, n)
  {
    var n := FirstFailure(db, actions, faults, 0);
    if AlikeWhereStruck(db, db', actions, faults, n) {
      forall i: nat | i <= n && i < |actions|
        ensures Stops(db', actions, faults, i) <==> Stops(db, actions, faults, i)
      {
        assert Strikable(actions, faults, i) || !Strikable(actions, faults, i);
      }
      FailureIs(db', actions, faults, 0, n);
    } else {
      var i: nat :| i <= n && i < |actions| && Strikable(actions, faults, i) && Exists(db, actions[i]) &&
        db'.collectors[actions[i].collector].status != db.collectors[actions[i].collector].status;
      assert Stops(db', actions, faults, i) != Stops(db, actions, faults, i);
    }
  }

  /** Trying a batch again after it was rolled back stops where a first try under the same errors would,
      exactly when the rollback left the collectors that those could strike with the status they had. */
  lemma RetryStopsAlikeIff(db: Tables, actions: seq<Action>, faults: nat -> Fault, again: nat -> Fault, now: int)
    ensures var rolledBack, n := BatchOutcome(db, actions, faults, now).db, FirstFailure(db, actions, again, 0);
      && SameObjects(db, rolledBack)
      && (FirstFailure(rolledBack, actions, again, 0) == n <==> AlikeWhereStruck(db, rolledBack, actions, again, n))
  {
    SameFailureIff(db, BatchOutcome(db, actions, faults, now).db, actions, again);
  }

  // --- UpdateRules ----------------------------------------------------------------------------

  lemma {:induction false} ForwardCaptures(db: Tables, actions: seq<Action>, now: int, n: nat)
    requires n <= |actions| && AllExist(db, actions[..n]) && AllTune(actions)
    ensures var caps := Forward(db, actions, now, n).caps;
      SameCaps(caps, caps, n)
  {
    if n > 0 {
      LastStep(db, actions, now, n);
      ForwardCaptures(db, actions, now, n - 1);
      var b := Forward(db, actions, now, n - 1);
      assert forall i :: 0 <= i < n - 1 ==> Forward(db, actions, now, n).caps[i] == b.caps[i];
    }
  }

  /** A compensation pass changes nothing in what it restores to. */
  lemma {:induction false} BackwardKeepsCaps(db: Tables, actions: seq<Action>, caps: seq<Captured>, now: int, n: nat,
                                             m: nat)
    requires n <= |actions| && n <= m <= |caps| && SameCaps(caps, caps, m)
    ensures SameCaps(Backward(db, actions, caps, now, n).caps, caps, m)
    decreases n
  {
    if n > 0 {
      var (db', cap) := Undo(db, actions[n - 1], caps[n - 1], now);
      var caps' := caps[n - 1 := cap];
      assert SameCaps(caps', caps, m);
      BackwardKeepsCaps(db', actions, caps', now, n - 1, m);
    }
  }

  lemma RolledBackRule(db: Tables, actions: seq<Action>, now: int, n: nat, id: RuleId)
    requires n <= |actions| && AllExist(db, actions[..n]) && AllTune(actions) && id in db.rules
    ensures var b := Forward(db, actions, now, n);
      var r := Backward(b.db, actions, b.caps, now, n);
      && r.db.collectors == db.collectors
      && SameRule(r.db.rules[id], db.rules[id])
      && r.db.rules[id].version == db.rules[id].version + 2 * Occurrences(actions, id, n)
      && SameCaps(r.caps, b.caps, n)
  {
    var b := Forward(db, actions, now, n);
    ForwardCounts(db, actions, now, n, id);
    ForwardCaptures(db, actions, now, n);
    BackwardRestores(db, actions, now, n, b.db, b.caps, now, id);
    BackwardKeepsCaps(b.db, actions, b.caps, now, n, n);
  }

  /** A failed tune leaves every rule as it was before the batch in all fields but version and
      updated_at, its version grown by twice the times it occurs in the completed prefix. */
  lemma FailedTuneRestoresRules(db: Tables, actions: seq<Action>, faults: nat -> Fault, now: int, id: RuleId)
    requires AllTune(actions) && id in db.rules
    requires FirstFailure(db, actions, faults, 0) < |actions|
    ensures var n, out := FirstFailure(db, actions, faults, 0), BatchOutcome(db, actions, faults, now);
      && out.db.collectors == db.collectors && out.db.rules.Keys == db.rules.Keys
      && SameRule(out.db.rules[id], db.rules[id])
      && out.db.rules[id].version == db.rules[id].version + 2 * Occurrences(actions, id, n)
  {
    RolledBackRule(db, actions, now, FirstFailure(db, actions, faults, 0), id);
  }

  /** Running the compensations once more changes nothing but version and updated_at. */
  lemma CompensationIsRepeatable(db: Tables, actions: seq<Action>, faults: nat -> Fault, now: int, later: int,
                                 id: RuleId)
    requires AllTune(actions) && id in db.rules
    requires FirstFailure(db, actions, faults, 0) < |actions|
    ensures var n, out := FirstFailure(db, actions, faults, 0), BatchOutcome(db, actions, faults, now);
      var again := Backward(out.db, actions, out.caps, later, n);
      && SameRule(again.db.rules[id], out.db.rules[id]) && SameRule(again.db.rules[id], db.rules[id])
      && again.db.rules[id].version == out.db.rules[id].version + Occurrences(actions, id, n)
  {
    var n, out := FirstFailure(db, actions, faults, 0), BatchOutcome(db, actions, faults, now);
    RolledBackRule(db, actions, now, n, id);
    BackwardRestores(db, actions, now, n, out.db, out.caps, later, id);
  }

  /** The updates of a batch that concern one rule, applied in order. */
  function Tuned(r: Rule, actions: seq<Action>, id: RuleId, n: nat): Rule
    requires n <= |actions|
  {
    if n == 0 then r
    else
      var before := Tuned(r, actions, id, n - 1);
      if actions[n - 1].Tune? && actions[n - 1].rule == id then ApplyUpdate(before, actions[n - 1].update) else before
  }

  lemma {:induction false} ForwardTunes(db: Tables, actions: seq<Action>, now: int, n: nat, id: RuleId)
    requires n <= |actions| && AllExist(db, actions[..n]) && AllTune(actions) && id in db.rules
    ensures SameRule(Forward(db, actions, now, n).db.rules[id], Tuned(db.rules[id], actions, id, n))
  {
    if n > 0 {
      LastStep(db, actions, now, n);
      ForwardTunes(db, actions, now, n - 1, id);
    }
  }

  /** A tune that goes through leaves each rule with all its updates applied in order, and its version
      grown by one for each. */
  lemma SuccessfulTuneAppliesAll(db: Tables, actions: seq<Action>, faults: nat -> Fault, now: int, id: RuleId)
    requires AllTune(actions) && id in db.rules
    requires FirstFailure(db, actions, faults, 0) == |actions|
    ensures var out := BatchOutcome(db, actions, faults, now);
      && SameRule(out.db.rules[id], Tuned(db.rules[id], actions, id, |actions|))
      && out.db.rules[id].version == db.rules[id].version + Occurrences(actions, id, |actions|)
  {
    assert AllExist(db, actions[..|actions|]);
    ForwardTunes(db, actions, now, |actions|, id);
    ForwardCounts(db, actions, now, |actions|, id);
  }

  // --- DisableCollectors ------------------------------------------------------------------------

  ghost predicate AllDisable(actions: seq<Action>) {
    forall i :: 0 <= i < |actions| ==> actions[i].Disable?
  }

  ghost predicate Named(actions: seq<Action>, n: nat, id: CollectorId)
    requires n <= |actions|
  {
    exists i :: 0 <= i < n && actions[i] == Disable(id)
  }

  /** Whatever a disable step captured, undoing it makes its collector active. */
  ghost predicate CapsActivate(caps: seq<Captured>) {
    forall i :: 0 <= i < |caps| ==> caps[i].status != Some(Disabled)
  }

  lemma {:induction false} ForwardDisables(db: Tables, actions: seq<Action>, now: int, n: nat, id: CollectorId)
    requires n <= |actions| && AllExist(db, actions[..n]) && AllDisable(actions) && id in db.collectors
    ensures var r := Forward(db, actions, now, n);
      && r.db.rules == db.rules && CapsActivate(r.caps)
      && (Named(actions, n, id) ==> r.db.collectors[id].status.Disabled?)
      && (!Named(actions, n, id) ==> r.db.collectors[id] == db.collectors[id])
  {
    if n > 0 {
      LastStep(db, actions, now, n);
      ForwardDisables(db, actions, now, n - 1, id);
      NamedStep(actions, n, id);
    }
  }

  lemma NamedStep(actions: seq<Action>, n: nat, id: CollectorId)
    requires 0 < n <= |actions|
    ensures Named(actions, n, id) <==> Named(actions, n - 1, id) || actions[n - 1] == Disable(id)
  {
  }

  lemma {:induction false} BackwardActivates(from: Tables, actions: seq<Action>, caps: seq<Captured>, now: int, n: nat,
                                             id: CollectorId)
    requires n <= |actions| && n <= |caps| && AllDisable(actions) && CapsActivate(caps) && id in from.collectors
    ensures var r := Backward(from, actions, caps, now, n);
      && r.db.rules == from.rules
      && (Named(actions, n, id) ==> r.db.collectors[id].status.Active?)
      && (from.collectors[id].status.Active? || !Named(actions, n, id) ==> r.db.collectors[id] == from.collectors[id])
    decreases n
  {
    if n > 0 {
      var (db', cap) := Undo(from, actions[n - 1], caps[n - 1], now);
      NamedStep(actions, n, id);
      BackwardActivates(db', actions, caps[n - 1 := cap], now, n - 1, id);
    }
  }

  lemma NamedIsIn(actions: seq<Action>, n: nat, id: CollectorId)
    requires n <= |actions|
    ensures Named(actions, n, id) <==> Disable(id) in actions[..n]
  {
    if i :| 0 <= i < n && actions[i] == Disable(id) {
      assert actions[..n][i] == Disable(id);
    }
  }

  /** The step at which the batch stopped wrote this collector's status, and then reported an error. */
  predicate Stranded(actions: seq<Action>, faults: nat -> Fault, n: nat, id: CollectorId) {
    n < |actions| && actions[n] == Disable(id) && faults(n).Late?
  }

  /** A stranded collector started active and no completed step names it. */
  lemma StrandedStart(db: Tables, actions: seq<Action>, faults: nat -> Fault, id: CollectorId)
    requires id in db.collectors && Stranded(actions, faults, FirstFailure(db, actions, faults, 0), id)
    ensures db.collectors[id].status.Active? && !Named(actions, FirstFailure(db, actions, faults, 0), id)
  {
    NamedIsIn(actions, FirstFailure(db, actions, faults, 0), id);
  }

  /** The tables when the batch stops: the completed prefix disabled, and so the stranded collector. */
  lemma StoppedDisables(db: Tables, actions: seq<Action>, faults: nat -> Fault, now: int, id: CollectorId)
    requires AllDisable(actions) && id in db.collectors && FirstFailure(db, actions, faults, 0) < |actions|
    ensures var n := FirstFailure(db, actions, faults, 0);
      var b := Forward(db, actions, now, n);
      var from := Stopped(b, actions, faults, now, n);
      && CapsActivate(b.caps) && from.rules == db.rules && id in from.collectors
      && (Named(actions, n, id) || Stranded(actions, faults, n, id) ==> from.collectors[id].status.Disabled?)
      && (!Named(actions, n, id) && !Stranded(actions, faults, n, id) ==> from.collectors[id] == db.collectors[id])
  {
    ForwardDisables(db, actions, now, FirstFailure(db, actions, faults, 0), id);
  }

  /** What a batch that stops at step n makes of a collector. One in the completed prefix is disabled if
      that was the whole batch, and else active, whatever it was before; one whose status was written by
      the failing step was active and is left disabled; every other one is untouched. */
  ghost predicate CollectorLeft(actions: seq<Action>, faults: nat -> Fault, n: nat, id: CollectorId,
                                before: Collector, after: Collector)
    requires n <= |actions|
  {
    if Named(actions, n, id) then
      after.status == (if n < |actions| then Active else Disabled) && !Stranded(actions, faults, n, id)
    else if Stranded(actions, faults, n, id) then before.status.Active? && after.status.Disabled?
    else after == before
  }

  /** A batch makes exactly that of every collector. */
  lemma DisableOutcome(db: Tables, actions: seq<Action>, faults: nat -> Fault, now: int, id: CollectorId)
    requires AllDisable(actions) && id in db.collectors
    ensures var n, out := FirstFailure(db, actions, faults, 0), BatchOutcome(db, actions, faults, now);
      && out.db.rules == db.rules && id in out.db.collectors
      && CollectorLeft(actions, faults, n, id, db.collectors[id], out.db.collectors[id])
  {
    var n := FirstFailure(db, actions, faults, 0);
    var b := Forward(db, actions, now, n);
    if n < |actions| {
      StoppedDisables(db, actions, faults, now, id);
      BackwardActivates(Stopped(b, actions, faults, now, n), actions, b.caps, now, n, id);
      if Stranded(actions, faults, n, id) {
        StrandedStart(db, actions, faults, id);
      }
    } else {
      ForwardDisables(db, actions, now, n, id);
    }
  }

  ghost predicate SameStatuses(db: Tables, a: Tables, b: Tables) {
    forall id :: id in db.collectors ==>
      id in a.collectors && id in b.collectors && a.collectors[id].status == b.collectors[id].status
  }

  lemma PrefixIsListed(db: Tables, actions: seq<Action>, faults: nat -> Fault)
    requires AllDisable(actions)
    ensures var n := FirstFailure(db, actions, faults, 0);
      forall i: nat :: i < n ==> actions[i].collector in db.collectors && Named(actions, n, actions[i].collector)
  {
    forall i: nat | i < FirstFailure(db, actions, faults, 0)
      ensures actions[i].collector in db.collectors
      ensures Named(actions, FirstFailure(db, actions, faults, 0), actions[i].collector)
    {
      assert Exists(db, actions[i]) && actions[i] == Disable(actions[i].collector);
    }
  }

  /** Whether tables left by a batch that stopped at step n show the statuses it found. */
  lemma RestoredWhen(db: Tables, after: Tables, actions: seq<Action>, faults: nat -> Fault, n: nat)
    requires n < |actions| && AllDisable(actions)
    requires forall i: nat :: i < n ==> actions[i].collector in db.collectors && Named(actions, n, actions[i].collector)
    requires forall id :: id in db.collectors ==>
      id in after.collectors && CollectorLeft(actions, faults, n, id, db.collectors[id], after.collectors[id])
    ensures SameStatuses(db, after, db) <==>
      && (forall i: nat :: i < n ==> db.collectors[actions[i].collector].status.Active?)
      && !(faults(n).Late? && actions[n].collector in db.collectors)
  {
    if faults(n).Late? && actions[n].collector in db.collectors {
      assert Stranded(actions, faults, n, actions[n].collector);
    }
  }

  /** So a failed batch restores the statuses it found exactly when the completed prefix was all active and
      the failing step wrote nothing: its error was not late, or its collector is missing. */
  lemma DisableRestoresIff(db: Tables, actions: seq<Action>, faults: nat -> Fault, now: int)
    requires AllDisable(actions) && FirstFailure(db, actions, faults, 0) < |actions|
    ensures var n, out := FirstFailure(db, actions, faults, 0), BatchOutcome(db, actions, faults, now);
      && (forall i: nat :: i < n ==> actions[i].collector in db.collectors)
      && (SameStatuses(db, out.db, db) <==>
          && (forall i: nat :: i < n ==> db.collectors[actions[i].collector].status.Active?)
          && !(faults(n).Late? && actions[n].collector in db.collectors))
  {
    var n, after := FirstFailure(db, actions, faults, 0), BatchOutcome(db, actions, faults, now).db;
    PrefixIsListed(db, actions, faults);
    forall id | id in db.collectors
      ensures id in after.collectors && CollectorLeft(actions, faults, n, id, db.collectors[id], after.collectors[id])
    {
      DisableOutcome(db, actions, faults, now, id);
    }
    RestoredWhen(db, after, actions, faults, n);
  }

  /** For one: a collector that was disabled all along comes out active when a later step fails. */
  lemma RollbackActivatesBystander(c: Collector, off: CollectorId, missing: CollectorId, now: int)
    requires c.status.Disabled? && off != missing
    ensures var db := Tables(map[], map[off := c]);
      BatchOutcome(db, [Disable(off), Disable(missing)], _ => Clear, now).db.collectors[off].status.Active?
  {
    var db := Tables(map[], map[off := c]);
    var actions := [Disable(off), Disable(missing)];
    var n := FirstFailure(db, actions, _ => Clear, 0);
    assert Stops(db, actions, _ => Clear, 1) && !Stops(db, actions, _ => Clear, 0);
    assert n == 1;
    DisableOutcome(db, actions, _ => Clear, now, off);
    assert Named(actions, n, off);
  }

  /** For another: a batch of one active collector whose new status cannot be read back reports a failure,
      has nothing to compensate and leaves it disabled. */
  lemma LateErrorLeavesDisabled(c: Collector, on: CollectorId, now: int)
    requires c.status.Active?
    ensures var db := Tables(map[], map[on := c]);
      && FirstFailure(db, [Disable(on)], _ => Late, 0) == 0
      && BatchOutcome(db, [Disable(on)], _ => Late, now).db.collectors[on].status.Disabled?
  {
    var db := Tables(map[], map[on := c]);
    assert Stops(db, [Disable(on)], _ => Late, 0);
    DisableOutcome(db, [Disable(on)], _ => Late, now, on);
  }

  // --- Retrying -------------------------------------------------------------------------------

  ghost predicate Strays(actions: seq<Action>, faults: nat -> Fault, m: nat, n: nat, id: CollectorId, before: Collector)
    requires m <= |actions| && n <= |actions|
  {
    && !Named(actions, n, id)
    && ((Named(actions, m, id) && before.status.Disabled?) || Stranded(actions, faults, m, id))
  }

  /** One collector after a retry and after a first try that stop at the same step: different only if
      neither reaches its step and the rollback had activated or stranded it. */
  lemma RetriedCollector(actions: seq<Action>, faults: nat -> Fault, again: nat -> Fault, m: nat, n: nat,
                         id: CollectorId, before: Collector, rolledBack: Collector, retried: Collector,
                         first: Collector)
    requires m < |actions| && n <= |actions|
    requires CollectorLeft(actions, faults, m, id, before, rolledBack)
    requires CollectorLeft(actions, again, n, id, rolledBack, retried)
    requires CollectorLeft(actions, again, n, id, before, first)
    ensures retried.status == first.status <==> !Strays(actions, faults, m, n, id, before)
  {
  }

  lemma RetryStatus(db: Tables, actions: seq<Action>, faults: nat -> Fault, again: nat -> Fault, now: int, later: int,
                    id: CollectorId)
    requires AllDisable(actions) && id in db.collectors && FirstFailure(db, actions, faults, 0) < |actions|
    requires FirstFailure(BatchOutcome(db, actions, faults, now).db, actions, again, 0)
          == FirstFailure(db, actions, again, 0)
    ensures var m, n := FirstFailure(db, actions, faults, 0), FirstFailure(db, actions, again, 0);
      var rolledBack := BatchOutcome(db, actions, faults, now).db;
      var retried := BatchOutcome(rolledBack, actions, again, later).db;
      var first := BatchOutcome(db, actions, again, later).db;
      && id in retried.collectors && id in first.collectors
      && (retried.collectors[id].status == first.collectors[id].status
          <==> !Strays(actions, faults, m, n, id, db.collectors[id]))
  {
    var rolledBack := BatchOutcome(db, actions, faults, now).db;
    DisableOutcome(db, actions, faults, now, id);
    DisableOutcome(db, actions, again, later, id);
    DisableOutcome(rolledBack, actions, again, later, id);
    RetriedCollector(actions, faults, again, FirstFailure(db, actions, faults, 0), FirstFailure(db, actions, again, 0),
                     id, db.collectors[id], rolledBack.collectors[id],
                     BatchOutcome(rolledBack, actions, again, later).db.collectors[id],
                     BatchOutcome(db, actions, again, later).db.collectors[id]);
  }

  lemma NamedBeyond(actions: seq<Action>, m: nat, n: nat, id: CollectorId) returns (i: nat)
    requires m <= |actions| && n <= |actions| && Named(actions, m, id) && !Named(actions, n, id)
    ensures n <= i < m && actions[i] == Disable(id)
  {
    i :| i < m && actions[i] == Disable(id);
  }

  /** Every collector of the first m steps that the first n do not name was active from the start, and step
      m wrote nothing or is one of those n. */
  ghost predicate NoneStrays(db: Tables, actions: seq<Action>, faults: nat -> Fault, m: nat, n: nat)
    requires m < |actions| && n <= |actions| && AllDisable(actions)
    requires forall i: nat :: i < m ==> actions[i].collector in db.collectors
  {
    && (forall i: nat :: n <= i < m ==>
          Named(actions, n, actions[i].collector) || db.collectors[actions[i].collector].status.Active?)
    && (faults(m).Late? && actions[m].collector in db.collectors ==> m < n)
  }

  lemma NoneStraysIff(db: Tables, actions: seq<Action>, faults: nat -> Fault, n: nat)
    requires AllDisable(actions) && FirstFailure(db, actions, faults, 0) < |actions| && n <= |actions|
    requires forall i: nat :: i < FirstFailure(db, actions, faults, 0) ==> actions[i].collector in db.collectors
    ensures var m := FirstFailure(db, actions, faults, 0);
      NoneStrays(db, actions, faults, m, n) <==>
      forall id :: id in db.collectors ==> !Strays(actions, faults, m, n, id, db.collectors[id])
  {
    var m := FirstFailure(db, actions, faults, 0);
    if NoneStrays(db, actions, faults, m, n) {
      forall id | id in db.collectors
        ensures !Strays(actions, faults, m, n, id, db.collectors[id])
      {
        if Named(actions, m, id) && !Named(actions, n, id) {
          var i := NamedBeyond(actions, m, n, id);
        }
      }
    } else if i: nat :| n <= i < m && !Named(actions, n, actions[i].collector)
                        && db.collectors[actions[i].collector].status.Disabled? {
      assert actions[i] == Disable(actions[i].collector);
      assert Strays(actions, faults, m, n, actions[i].collector, db.collectors[actions[i].collector]);
    } else {
      var id := actions[m].collector;
      StrandedStart(db, actions, faults, id);
      if Named(actions, n, id) {
        var i := NamedBeyond(actions, n, m, id);
      }
      assert Strays(actions, faults, m, n, id, db.collectors[id]);
    }
  }

  /** Every listed collector is disabled. */
  ghost predicate AllOff(t: Tables, actions: seq<Action>) {
    forall i: nat :: i < |actions| && actions[i].Disable? && actions[i].collector in t.collectors ==>
      t.collectors[actions[i].collector].status.Disabled?
  }

  /** Of two tries that stop at different steps, the one that goes further leaves the collector at which the
      other stopped active, unless it goes through. */
  lemma FurtherTry(near: Tables, far: Tables, actions: seq<Action>, again: nat -> Fault, later: int)
    requires AllDisable(actions) && SameObjects(near, far)
    requires FirstFailure(near, actions, again, 0) < FirstFailure(far, actions, again, 0)
    ensures var a, b := BatchOutcome(near, actions, again, later).db, BatchOutcome(far, actions, again, later).db;
      && (FirstFailure(far, actions, again, 0) == |actions| ==> AllOff(b, actions))
      && (FirstFailure(far, actions, again, 0) < |actions| ==> !AllOff(b, actions) && !SameStatuses(near, a, b))
  {
    var k, n := FirstFailure(near, actions, again, 0), FirstFailure(far, actions, again, 0);
    var id := actions[k].collector;
    assert actions[k] == Disable(id) && Named(actions, n, id) && Stranded(actions, again, k, id);
    DisableOutcome(near, actions, again, later, id);
    DisableOutcome(far, actions, again, later, id);
    if n == |actions| {
      forall i: nat | i < |actions| && actions[i].collector in far.collectors
        ensures BatchOutcome(far, actions, again, later).db.collectors[actions[i].collector].status.Disabled?
      {
        assert actions[i] == Disable(actions[i].collector);
        DisableOutcome(far, actions, again, later, actions[i].collector);
      }
    }
  }

  ghost predicate UnlistedAlike(db: Tables, a: Tables, b: Tables, actions: seq<Action>) {
    forall id :: id in db.collectors && Disable(id) !in actions ==>
      id in a.collectors && id in b.collectors && a.collectors[id] == b.collectors[id]
  }

  /** A collector that no step names is left alone by every try. */
  lemma UnlistedCollector(db: Tables, actions: seq<Action>, faults: nat -> Fault, now: int, id: CollectorId)
    requires AllDisable(actions) && id in db.collectors && Disable(id) !in actions
    ensures var out := BatchOutcome(db, actions, faults, now).db;
      id in out.collectors && out.collectors[id] == db.collectors[id]
  {
    DisableOutcome(db, actions, faults, now, id);
  }

  lemma UnlistedStay(db: Tables, actions: seq<Action>, faults: nat -> Fault, now: int)
    requires AllDisable(actions)
    ensures SameObjects(db, BatchOutcome(db, actions, faults, now).db)
    ensures UnlistedAlike(db, BatchOutcome(db, actions, faults, now).db, db, actions)
  {
    var out := BatchOutcome(db, actions, faults, now).db;
    forall id | id in db.collectors && Disable(id) !in actions
      ensures id in out.collectors && out.collectors[id] == db.collectors[id]
    {
      UnlistedCollector(db, actions, faults, now, id);
    }
  }

  lemma UnlistedChain(db: Tables, near: Tables, far: Tables, a: Tables, b: Tables, actions: seq<Action>)
    requires SameObjects(db, near) && SameObjects(db, far) && UnlistedAlike(db, near, far, actions)
    requires UnlistedAlike(near, a, near, actions) && UnlistedAlike(far, b, far, actions)
    ensures UnlistedAlike(db, a, b, actions)
  {
  }

  lemma AllOffAlike(db: Tables, a: Tables, b: Tables, actions: seq<Action>)
    requires AllDisable(actions) && a.collectors.Keys == db.collectors.Keys && b.collectors.Keys == db.collectors.Keys
    requires UnlistedAlike(db, a, b, actions) && AllOff(b, actions)
    ensures SameStatuses(db, a, b) <==> AllOff(a, actions)
  {
    forall id | id in db.collectors && AllOff(a, actions)
      ensures a.collectors[id].status == b.collectors[id].status
    {
      if Disable(id) in actions {
        var i :| 0 <= i < |actions| && actions[i] == Disable(id);
      }
    }
  }

  /** Tries that stop at different steps leave the same statuses exactly when both leave every listed
      collector disabled. */
  lemma DifferentStops(db: Tables, near: Tables, far: Tables, actions: seq<Action>, again: nat -> Fault, later: int)
    requires AllDisable(actions) && SameObjects(db, near) && SameObjects(db, far)
    requires UnlistedAlike(db, near, far, actions)
    requires FirstFailure(near, actions, again, 0) < FirstFailure(far, actions, again, 0)
    ensures var a, b := BatchOutcome(near, actions, again, later).db, BatchOutcome(far, actions, again, later).db;
      SameStatuses(db, a, b) <==> AllOff(a, actions) && AllOff(b, actions)
  {
    var a, b := BatchOutcome(near, actions, again, later).db, BatchOutcome(far, actions, again, later).db;
    FurtherTry(near, far, actions, again, later);
    if FirstFailure(far, actions, again, 0) == |actions| {
      UnlistedStay(near, actions, again, later);
      UnlistedStay(far, actions, again, later);
      UnlistedChain(db, near, far, a, b, actions);
      AllOffAlike(db, a, b, actions);
    }
  }

  lemma RetryStopsElsewhere(db: Tables, actions: seq<Action>, faults: nat -> Fault, again: nat -> Fault, now: int,
                            later: int)
    requires AllDisable(actions)
    requires FirstFailure(BatchOutcome(db, actions, faults, now).db, actions, again, 0)
          != FirstFailure(db, actions, again, 0)
    ensures var rolledBack := BatchOutcome(db, actions, faults, now).db;
      var retried := BatchOutcome(rolledBack, actions, again, later).db;
      var first := BatchOutcome(db, actions, again, later).db;
      SameStatuses(db, retried, first) <==> AllOff(retried, actions) && AllOff(first, actions)
  {
    var rolledBack := BatchOutcome(db, actions, faults, now).db;
    UnlistedStay(db, actions, faults, now);
    if FirstFailure(rolledBack, actions, again, 0) < FirstFailure(db, actions, again, 0) {
      DifferentStops(db, rolledBack, db, actions, again, later);
    } else {
      DifferentStops(db, db, rolledBack, actions, again, later);
    }
  }

  /** Trying again after a rollback leaves the very statuses a first try would have left, when both stop at
      one step, exactly when every collector whose step they do not reach was active from the start or is
      named before, and they get past the step that failed if its write had gone through. When they stop
      at different steps, exactly when both leave every listed collector disabled. */
  lemma RetryLeavesSameStatusesIff(db: Tables, actions: seq<Action>, faults: nat -> Fault, again: nat -> Fault,
                                   now: int, later: int)
    requires AllDisable(actions) && FirstFailure(db, actions, faults, 0) < |actions|
    ensures forall i: nat :: i < FirstFailure(db, actions, faults, 0) ==> actions[i].collector in db.collectors
    ensures var m, n := FirstFailure(db, actions, faults, 0), FirstFailure(db, actions, again, 0);
      var rolledBack := BatchOutcome(db, actions, faults, now).db;
      var retried := BatchOutcome(rolledBack, actions, again, later).db;
      var first := BatchOutcome(db, actions, again, later).db;
      SameStatuses(db, retried, first) <==>
      if FirstFailure(rolledBack, actions, again, 0) == n then NoneStrays(db, actions, faults, m, n)
      else AllOff(retried, actions) && AllOff(first, actions)
  {
    var m, n := FirstFailure(db, actions, faults, 0), FirstFailure(db, actions, again, 0);
    var rolledBack := BatchOutcome(db, actions, faults, now).db;
    PrefixIsListed(db, actions, faults);
    if FirstFailure(rolledBack, actions, again, 0) == n {
      NoneStraysIff(db, actions, faults, n);
      var retried := BatchOutcome(rolledBack, actions, again, later).db;
      var first := BatchOutcome(db, actions, again, later).db;
      forall id | id in db.collectors
        ensures id in retried.collectors && id in first.collectors
        ensures retried.collectors[id].status == first.collectors[id].status
           <==> !Strays(actions, faults, m, n, id, db.collectors[id])
      {
        RetryStatus(db, actions, faults, again, now, later, id);
      }
    } else {
      RetryStopsElsewhere(db, actions, faults, again, now, later);
    }
  }
}
