/** What batches leave behind when their compensations meet trouble, exactly, and why one more pass
    repairs it. */
module SagaTrouble {
  import opened Wrappers
  import opened Rules
  import opened Saga
  import opened SagaTheorems

  // --- Collectors -----------------------------------------------------------------------------

  /** One of the first n steps disabled this collector, and its compensation lands. */
  ghost predicate UndoneSomewhere(actions: seq<Action>, trouble: nat -> Trouble, n: nat, id: CollectorId)
    requires n <= |actions|
  {
    exists i: nat :: i < n && actions[i] == Disable(id) && Lands(trouble(i))
  }

  lemma UndoneStep(actions: seq<Action>, trouble: nat -> Trouble, n: nat, id: CollectorId)
    requires 0 < n <= |actions|
    ensures UndoneSomewhere(actions, trouble, n, id)
       <==> UndoneSomewhere(actions, trouble, n - 1, id) || (actions[n - 1] == Disable(id) && Lands(trouble(n - 1)))
  {
  }

  /** After a compensation pass a collector is active exactly when it was active before the pass or one of
      its steps' compensations lands; those not named are untouched. */
  lemma {:induction false} PassActivatesIff(from: Tables, actions: seq<Action>, caps: seq<Captured>, now: int, n: nat,
                                            trouble: nat -> Trouble, id: CollectorId)
    requires n <= |actions| && n <= |caps| && AllDisable(actions) && CapsActivate(caps) && id in from.collectors
    ensures var b := BackwardUnder(from, actions, caps, now, n, trouble).0;
      && CapsActivate(b.caps) && b.db.rules == from.rules
      && (b.db.collectors[id].status.Active?
          <==> from.collectors[id].status.Active? || UndoneSomewhere(actions, trouble, n, id))
      && (!Named(actions, n, id) ==> b.db.collectors[id] == from.collectors[id])
    decreases n
  {
    if n > 0 {
      var (db', cap, ok) := UndoUnder(from, actions[n - 1], caps[n - 1], now, trouble(n - 1));
      NamedStep(actions, n, id);
      UndoneStep(actions, trouble, n, id);
      PassActivatesIff(db', actions, caps[n - 1 := cap], now, n - 1, trouble, id);
    }
  }

  /** What a failed batch makes of a collector when its compensations meet trouble. One of the completed
      prefix is active exactly when the compensation of one of its steps landed, whatever the pass reported;
      the one whose status was written by the failing step is left disabled; every other one is untouched. */
  ghost predicate TroubledLeft(actions: seq<Action>, faults: nat -> Fault, trouble: nat -> Trouble, n: nat,
                               id: CollectorId, before: Collector, after: Collector)
    requires n <= |actions|
  {
    if Named(actions, n, id) then
      (after.status.Active? <==> UndoneSomewhere(actions, trouble, n, id)) && !Stranded(actions, faults, n, id)
    else if Stranded(actions, faults, n, id) then before.status.Active? && after.status.Disabled?
    else after == before
  }

  /** A failed batch makes exactly that of every collector. */
  lemma FailedDisableLeaves(db: Tables, actions: seq<Action>, faults: nat -> Fault, trouble: nat -> Trouble, now: int,
                            id: CollectorId)
    requires AllDisable(actions) && id in db.collectors && FirstFailure(db, actions, faults, 0) < |actions|
    ensures var n, out := FirstFailure(db, actions, faults, 0), OutcomeUnder(db, actions, faults, trouble, now).0;
      && out.db.rules == db.rules && id in out.db.collectors
      && TroubledLeft(actions, faults, trouble, n, id, db.collectors[id], out.db.collectors[id])
  {
    var n := FirstFailure(db, actions, faults, 0);
    var b := Forward(db, actions, now, n);
    StoppedDisables(db, actions, faults, now, id);
    if Stranded(actions, faults, n, id) {
      StrandedStart(db, actions, faults, id);
    }
    PassActivatesIff(Stopped(b, actions, faults, now, n), actions, b.caps, now, n, trouble, id);
  }

  /** For each collector of the completed prefix, some compensation lands if it was active and none does if
      it was not. */
  ghost predicate UndoneWhereActive(db: Tables, actions: seq<Action>, trouble: nat -> Trouble, n: nat)
    requires n <= |actions| && AllDisable(actions)
    requires forall i: nat :: i < n ==> actions[i].collector in db.collectors
  {
    forall i: nat :: i < n ==>
      (db.collectors[actions[i].collector].status.Active?
       <==> UndoneSomewhere(actions, trouble, n, actions[i].collector))
  }

  lemma TroubledRestoredWhen(db: Tables, after: Tables, actions: seq<Action>, faults: nat -> Fault,
                             trouble: nat -> Trouble, n: nat)
    requires n < |actions| && AllDisable(actions)
    requires forall i: nat :: i < n ==> actions[i].collector in db.collectors && Named(actions, n, actions[i].collector)
    requires forall id :: id in db.collectors ==>
      id in after.collectors && TroubledLeft(actions, faults, trouble, n, id, db.collectors[id], after.collectors[id])
    ensures SameStatuses(db, after, db) <==>
      UndoneWhereActive(db, actions, trouble, n) && !(faults(n).Late? && actions[n].collector in db.collectors)
  {
    if faults(n).Late? && actions[n].collector in db.collectors {
      assert Stranded(actions, faults, n, actions[n].collector);
    }
  }

  /** The statuses a failed batch found are restored exactly when the failing step wrote nothing and, for
      each collector of the completed prefix, some compensation lands if it was active and none does if it
      was not. */
  lemma TroubledDisableRestoresIff(db: Tables, actions: seq<Action>, faults: nat -> Fault, trouble: nat -> Trouble,
                                   now: int)
    requires AllDisable(actions) && FirstFailure(db, actions, faults, 0) < |actions|
    ensures var n, out := FirstFailure(db, actions, faults, 0), OutcomeUnder(db, actions, faults, trouble, now).0;
      && (forall i: nat :: i < n ==> actions[i].collector in db.collectors)
      && (SameStatuses(db, out.db, db) <==>
          UndoneWhereActive(db, actions, trouble, n) && !(faults(n).Late? && actions[n].collector in db.collectors))
  {
    var n, after := FirstFailure(db, actions, faults, 0), OutcomeUnder(db, actions, faults, trouble, now).0.db;
    PrefixIsListed(db, actions, faults);
    forall id | id in db.collectors
      ensures id in after.collectors
      ensures TroubledLeft(actions, faults, trouble, n, id, db.collectors[id], after.collectors[id])
    {
      FailedDisableLeaves(db, actions, faults, trouble, now, id);
    }
    TroubledRestoredWhen(db, after, actions, faults, trouble, n);
  }

  /** For one: a compensation whose read fails counts as done, so a pass that reports no error leaves the
      collector disabled. */
  lemma SwallowedReadLeavesDisabled(c: Collector, on: CollectorId, missing: CollectorId, now: int)
    requires c.status.Active? && on != missing
    ensures var db := Tables(map[], map[on := c]);
      var (out, clean) := OutcomeUnder(db, [Disable(on), Disable(missing)], _ => Clear, _ => NoRead, now);
      clean && out.db.collectors[on].status.Disabled?
  {
    var db := Tables(map[], map[on := c]);
    var actions := [Disable(on), Disable(missing)];
    var n := FirstFailure(db, actions, _ => Clear, 0);
    assert Stops(db, actions, _ => Clear, 1) && !Stops(db, actions, _ => Clear, 0);
    assert n == 1;
    FailedDisableLeaves(db, actions, _ => Clear, _ => NoRead, now, on);
    assert actions[0] == Disable(on) && Named(actions, n, on);
  }

  // --- Rules ----------------------------------------------------------------------------------

  ghost predicate Undoes(actions: seq<Action>, trouble: nat -> Trouble, id: RuleId, i: nat)
    requires i < |actions|
  {
    actions[i].Tune? && actions[i].rule == id && Lands(trouble(i))
  }

  /** The compensations run backwards, so the last to touch a rule is that of the first of its steps whose
      compensation lands. */
  ghost function LastUndone(actions: seq<Action>, trouble: nat -> Trouble, id: RuleId, n: nat): (r: Option<nat>)
    requires n <= |actions|
    ensures r.Some? ==> r.value < n && Undoes(actions, trouble, id, r.value)
    ensures forall i: nat :: i < n && Undoes(actions, trouble, id, i) ==> r.Some? && r.value <= i
  {
    if n == 0 then None
    else
      var earlier := LastUndone(actions, trouble, id, n - 1);
      if earlier.None? && Undoes(actions, trouble, id, n - 1) then Some(n - 1) else earlier
  }

  ghost function TimesUndone(actions: seq<Action>, trouble: nat -> Trouble, id: RuleId, n: nat): nat
    requires n <= |actions|
  {
    if n == 0 then 0
    else TimesUndone(actions, trouble, id, n - 1) + if Undoes(actions, trouble, id, n - 1) then 1 else 0
  }

  /** The number of updates a rule still holds after the pass. */
  ghost function HeldAt(actions: seq<Action>, trouble: nat -> Trouble, id: RuleId, n: nat): (k: nat)
    requires n <= |actions|
    ensures k <= n
  {
    var last := LastUndone(actions, trouble, id, n);
    if last.Some? then last.value else n
  }

  /** From `from` to `to` by a pass over n tunes: as the forward pass had it before step `last`, or left
      alone. */
  ghost predicate SetBack(at: Option<Rule>, from: Rule, to: Rule, times: nat) {
    && to.version == from.version + times && to.createdAt == from.createdAt
    && if at.Some? then SameRule(to, at.value) else to == from
  }

  ghost function RuleBefore(db: Tables, actions: seq<Action>, now: int, id: RuleId, n: nat,
                            last: Option<nat>): Option<Rule>
    requires n <= |actions| && AllExist(db, actions[..n]) && id in db.rules && (last.Some? ==> last.value <= n)
  {
    if last.None? then None
    else
      assert actions[..last.value] == actions[..n][..last.value];
      Some(Forward(db, actions, now, last.value).db.rules[id])
  }

  lemma SetBackChain(at: Option<Rule>, mid: Rule, from: Rule, next: Rule, to: Rule, times: nat, undone: bool)
    requires SetBack(at, next, to, times)
    requires if undone then SameRule(next, mid) && next.version == from.version + 1 && next.createdAt == from.createdAt
             else next == from
    ensures SetBack(if at.Some? then at else if undone then Some(mid) else None, from, to,
                    times + if undone then 1 else 0)
  {
  }

  /** One compensation of a tune, with trouble or without. */
  lemma UndoTuneUnder(before: map<RuleId, Rule>, from: Tables, a: Action, cap: Captured, later: int, trouble: Trouble,
                      id: RuleId)
    requires a.Tune? && a.rule in before && from.rules.Keys == before.Keys && id in before
    requires cap.rule.Some? && SameRule(cap.rule.value, before[a.rule])
    requires from.rules[id].createdAt == before[id].createdAt
    ensures var (db', cap', ok) := UndoUnder(from, a, cap, later, trouble);
      && db'.rules.Keys == from.rules.Keys && db'.rules[id].createdAt == from.rules[id].createdAt
      && cap'.rule.Some? && SameRule(cap'.rule.value, cap.rule.value)
      && if id == a.rule && Lands(trouble)
         then SameRule(db'.rules[id], before[id]) && db'.rules[id].version == from.rules[id].version + 1
         else db'.rules[id] == from.rules[id]
  {
  }

  /** A pass over n compensations can start here: the captured rules are the forward pass's, and the tables
      hold the same rules. */
  ghost predicate PassFrom(db: Tables, actions: seq<Action>, now: int, n: nat, from: Tables, caps: seq<Captured>,
                           id: RuleId) {
    && n <= |actions| && n <= |caps| && AllExist(db, actions[..n])
    && SameCaps(caps, Forward(db, actions, now, n).caps, n)
    && from.rules.Keys == db.rules.Keys && id in db.rules && from.rules[id].createdAt == db.rules[id].createdAt
  }

  lemma PassStep(db: Tables, actions: seq<Action>, now: int, n: nat, from: Tables, caps: seq<Captured>,
                 later: int, trouble: Trouble, id: RuleId)
    requires 0 < n && AllTune(actions) && PassFrom(db, actions, now, n, from, caps, id)
    ensures var (db', cap, ok) := UndoUnder(from, actions[n - 1], caps[n - 1], later, trouble);
      var undone := actions[n - 1].rule == id && Lands(trouble);
      && PassFrom(db, actions, now, n - 1, db', caps[n - 1 := cap], id)
      && var mid := Forward(db, actions, now, n - 1).db.rules[id];
         if undone then SameRule(db'.rules[id], mid) && db'.rules[id].version == from.rules[id].version + 1
                        && db'.rules[id].createdAt == from.rules[id].createdAt
         else db'.rules[id] == from.rules[id]
  {
    LastStep(db, actions, now, n);
    var b := Forward(db, actions, now, n - 1);
    var (db', cap, ok) := UndoUnder(from, actions[n - 1], caps[n - 1], later, trouble);
    ForwardCounts(db, actions, now, n - 1, id);
    CapsBefore(caps, b.caps, Do(b.db, actions[n - 1], now).1, n, cap);
    UndoTuneUnder(b.db.rules, from, actions[n - 1], caps[n - 1], later, trouble, id);
  }

  lemma {:induction false} PassSetsBack(db: Tables, actions: seq<Action>, now: int, n: nat, from: Tables,
                                        caps: seq<Captured>, later: int, trouble: nat -> Trouble, id: RuleId)
    requires AllTune(actions) && PassFrom(db, actions, now, n, from, caps, id)
    ensures var b := BackwardUnder(from, actions, caps, later, n, trouble).0;
      SetBack(RuleBefore(db, actions, now, id, n, LastUndone(actions, trouble, id, n)), from.rules[id], b.db.rules[id],
              TimesUndone(actions, trouble, id, n))
    decreases n
  {
    if n > 0 {
      PassStep(db, actions, now, n, from, caps, later, trouble(n - 1), id);
      var (db', cap, ok) := UndoUnder(from, actions[n - 1], caps[n - 1], later, trouble(n - 1));
      PassSetsBack(db, actions, now, n - 1, db', caps[n - 1 := cap], later, trouble, id);
      SetBackChain(RuleBefore(db, actions, now, id, n - 1, LastUndone(actions, trouble, id, n - 1)),
                   Forward(db, actions, now, n - 1).db.rules[id], from.rules[id], db'.rules[id],
                   BackwardUnder(db', actions, caps[n - 1 := cap], later, n - 1, trouble).0.db.rules[id],
                   TimesUndone(actions, trouble, id, n - 1), Undoes(actions, trouble, id, n - 1));
    }
  }

  /** After a failed tune a rule holds exactly the updates before the first of its steps whose compensation
      landed, or all of the completed prefix when none did. */
  lemma FailedTuneLeaves(db: Tables, actions: seq<Action>, faults: nat -> Fault, trouble: nat -> Trouble, now: int,
                         id: RuleId)
    requires AllTune(actions) && id in db.rules && FirstFailure(db, actions, faults, 0) < |actions|
    ensures var n, out := FirstFailure(db, actions, faults, 0), OutcomeUnder(db, actions, faults, trouble, now).0;
      && SameRule(out.db.rules[id], Tuned(db.rules[id], actions, id, HeldAt(actions, trouble, id, n)))
      && out.db.rules[id].version
         == db.rules[id].version + Occurrences(actions, id, n) + TimesUndone(actions, trouble, id, n)
  {
    var n := FirstFailure(db, actions, faults, 0);
    var b := Forward(db, actions, now, n);
    ForwardCounts(db, actions, now, n, id);
    ForwardCaptures(db, actions, now, n);
    PassSetsBack(db, actions, now, n, Stopped(b, actions, faults, now, n), b.caps, now, trouble, id);
    HeldRule(db, actions, now, id, n, trouble);
  }

  lemma HeldRule(db: Tables, actions: seq<Action>, now: int, id: RuleId, n: nat, trouble: nat -> Trouble)
    requires n <= |actions| && AllExist(db, actions[..n]) && AllTune(actions) && id in db.rules
    ensures var last, k := LastUndone(actions, trouble, id, n), HeldAt(actions, trouble, id, n);
      var before := RuleBefore(db, actions, now, id, n, last);
      SameRule(if before.Some? then before.value else Forward(db, actions, now, n).db.rules[id],
               Tuned(db.rules[id], actions, id, k))
  {
    var k := HeldAt(actions, trouble, id, n);
    assert actions[..k] == actions[..n][..k];
    ForwardTunes(db, actions, now, k, id);
  }

  lemma {:induction false} NothingHeld(r: Rule, actions: seq<Action>, id: RuleId, k: nat)
    requires k <= |actions| && Occurrences(actions, id, k) == 0
    ensures Tuned(r, actions, id, k) == r
  {
    if k > 0 {
      NothingHeld(r, actions, id, k - 1);
    }
  }

  /** So it is restored when the compensation of its first step landed, whatever the others met. */
  lemma FirstUndoneRestores(db: Tables, actions: seq<Action>, faults: nat -> Fault, trouble: nat -> Trouble, now: int,
                            id: RuleId, first: nat)
    requires AllTune(actions) && id in db.rules && first < FirstFailure(db, actions, faults, 0) < |actions|
    requires Occurrences(actions, id, first) == 0 && Undoes(actions, trouble, id, first)
    ensures SameRule(OutcomeUnder(db, actions, faults, trouble, now).0.db.rules[id], db.rules[id])
  {
    var n := FirstFailure(db, actions, faults, 0);
    FailedTuneLeaves(db, actions, faults, trouble, now, id);
    NoneBefore(actions, id, HeldAt(actions, trouble, id, n), first);
    NothingHeld(db.rules[id], actions, id, HeldAt(actions, trouble, id, n));
  }

  lemma {:induction false} NoneBefore(actions: seq<Action>, id: RuleId, k: nat, n: nat)
    requires k <= n <= |actions| && Occurrences(actions, id, n) == 0
    ensures Occurrences(actions, id, k) == 0
    decreases n
  {
    if k < n {
      NoneBefore(actions, id, k, n - 1);
    }
  }

  // --- One more pass ----------------------------------------------------------------------------

  /** Whatever trouble a pass meets, it touches no collector and forgets nothing it restores to. */
  lemma {:induction false} TroubledPassKeeps(db: Tables, actions: seq<Action>, caps: seq<Captured>, now: int, n: nat,
                                             m: nat, trouble: nat -> Trouble, id: RuleId)
    requires n <= |actions| && n <= m <= |caps| && SameCaps(caps, caps, m) && AllTune(actions) && id in db.rules
    ensures var b := BackwardUnder(db, actions, caps, now, n, trouble).0;
      && SameCaps(b.caps, caps, m) && b.db.collectors == db.collectors
      && b.db.rules[id].createdAt == db.rules[id].createdAt
      && (Occurrences(actions, id, n) == 0 ==> b.db.rules[id] == db.rules[id])
    decreases n
  {
    if n > 0 {
      var (db', cap, ok) := UndoUnder(db, actions[n - 1], caps[n - 1], now, trouble(n - 1));
      var caps' := caps[n - 1 := cap];
      TroubledUndoKeeps(db, actions[n - 1], caps[n - 1], now, trouble(n - 1), id);
      assert SameCaps(caps', caps, m);
      TroubledPassKeeps(db', actions, caps', now, n - 1, m, trouble, id);
      SameCapsChain(BackwardUnder(db', actions, caps', now, n - 1, trouble).0.caps, caps', caps, m);
    }
  }

  lemma TroubledUndoKeeps(db: Tables, a: Action, cap: Captured, now: int, trouble: Trouble, id: RuleId)
    requires a.Tune? && cap.rule.Some? && id in db.rules
    ensures var (db', cap', ok) := UndoUnder(db, a, cap, now, trouble);
      && cap'.rule.Some? && SameRule(cap'.rule.value, cap.rule.value)
      && db'.collectors == db.collectors && db'.rules.Keys == db.rules.Keys
      && db'.rules[id].createdAt == db.rules[id].createdAt && (id != a.rule ==> db'.rules[id] == db.rules[id])
  {
  }

  lemma SameCapsChain(a: seq<Captured>, b: seq<Captured>, c: seq<Captured>, n: nat)
    requires n <= |a| && n <= |b| && n <= |c| && SameCaps(a, b, n) && SameCaps(b, c, n)
    ensures SameCaps(a, c, n)
  {
  }

  /** A compensation pass that met any trouble can be repeated safely: one more pass without trouble
      brings every rule back to its value from before the batch. */
  lemma RepeatedPassRestoresRules(db: Tables, actions: seq<Action>, faults: nat -> Fault, trouble: nat -> Trouble,
                                  now: int, later: int, id: RuleId)
    requires AllTune(actions) && id in db.rules
    requires FirstFailure(db, actions, faults, 0) < |actions|
    ensures var n, out := FirstFailure(db, actions, faults, 0), OutcomeUnder(db, actions, faults, trouble, now).0;
      var again := Backward(out.db, actions, out.caps, later, n);
      && again.db.collectors == db.collectors
      && SameRule(again.db.rules[id], db.rules[id])
      && again.db.rules[id].version == out.db.rules[id].version + Occurrences(actions, id, n)
  {
    var n := FirstFailure(db, actions, faults, 0);
    var b := Forward(db, actions, now, n);
    ForwardCounts(db, actions, now, n, id);
    ForwardCaptures(db, actions, now, n);
    TroubledPassKeeps(Stopped(b, actions, faults, now, n), actions, b.caps, now, n, n, trouble, id);
    var out := OutcomeUnder(db, actions, faults, trouble, now).0;
    BackwardRestores(db, actions, now, n, out.db, out.caps, later, id);
  }

  /** The same for disabling: after one more pass without trouble the completed prefix is active, the
      collector written by the failing step is still disabled and every other one is untouched. */
  lemma RepeatedPassActivates(db: Tables, actions: seq<Action>, faults: nat -> Fault, trouble: nat -> Trouble,
                              now: int, later: int, id: CollectorId)
    requires AllDisable(actions) && id in db.collectors
    requires FirstFailure(db, actions, faults, 0) < |actions|
    ensures var n, out := FirstFailure(db, actions, faults, 0), OutcomeUnder(db, actions, faults, trouble, now).0;
      var again := Backward(out.db, actions, out.caps, later, n);
      && again.db.rules == db.rules && id in again.db.collectors
      && CollectorLeft(actions, faults, n, id, db.collectors[id], again.db.collectors[id])
  {
    var n, out := FirstFailure(db, actions, faults, 0), OutcomeUnder(db, actions, faults, trouble, now).0;
    var b := Forward(db, actions, now, n);
    StoppedDisables(db, actions, faults, now, id);
    if Stranded(actions, faults, n, id) {
      StrandedStart(db, actions, faults, id);
    }
    PassActivatesIff(Stopped(b, actions, faults, now, n), actions, b.caps, now, n, trouble, id);
    BackwardActivates(out.db, actions, out.caps, later, n, id);
  }
}
