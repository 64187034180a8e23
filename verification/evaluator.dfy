/** One sweep of the evaluator over every listed collector, and what it leaves behind. */
module Evaluation {
  import opened Wrappers
  import opened AlertState
  import opened AlertStore
  import opened RecentReadings
  import opened Rules
  import AlertRuns

  datatype Pair = Pair(collector: Text, rule: RuleId)

  /** What the sweep reads: the page of active collectors, the rules, the index, and the answers of the
      two ordered queries, which need not be unique; and how a breach is put into words. */
  datatype View = View(
    collectors: seq<Text>, rules: map<RuleId, Rule>, index: Index,
    enabled: Text -> seq<RuleId>, recent: Text -> seq<ReadingSummary>, wording: Breach -> Text)

  const PAGE := 200

  ghost predicate Distinct(s: seq<Text>) {
    forall i, j :: 0 <= i < j < |s| ==> s[i] != s[j]
  }

  /** WHERE enabled = 1 AND (collector_id IS NULL OR collector_id = ?) ORDER BY created_at ASC */
  ghost predicate EnabledFor(rules: map<RuleId, Rule>, collector: Text, ids: seq<RuleId>) {
    && Distinct(ids)
    && (forall id :: id in ids <==> id in rules && rules[id].enabled && AppliesTo(rules[id], collector))
    && forall i, j :: 0 <= i < j < |ids| ==> rules[ids[i]].createdAt <= rules[ids[j]].createdAt
  }

  ghost predicate Answered(v: View) {
    && Distinct(v.collectors)
    && (forall c :: EnabledFor(v.rules, c, v.enabled(c)))
    && forall c :: NewestFirst(v.index, c, PageSize(PAGE), v.recent(c))
  }

  // --- What breaches ----------------------------------------------------------------------------

  function Latest(v: View, p: Pair, now: int): Option<ReadingSummary>
    requires p.rule in v.rules
  {
    FirstSince(v.recent(p.collector), Threshold(now, v.rules[p.rule].windowSeconds))
  }

  predicate Breaches(v: View, p: Pair, now: int) {
    p.rule in v.rules && Latest(v, p, now).Some? && Evaluate(v.rules[p.rule], Latest(v, p, now).value.row).Some?
  }

  ghost function Breaching(v: View, now: int): set<Pair> {
    set c, r | c in v.collectors && r in v.enabled(c) && Breaches(v, Pair(c, r), now) :: Pair(c, r)
  }

  /** In terms of rules and the whole index: an enabled rule that governs a listed collector breaches when
      a newest reading of the collector is in the window and not as the rule has it. */
  lemma BreachingIff(v: View, p: Pair, now: int)
    requires Answered(v)
    ensures p in Breaching(v, now) <==>
      && p.collector in v.collectors && p.rule in v.rules
      && v.rules[p.rule].enabled
      && (v.rules[p.rule].collector.None? || v.rules[p.rule].collector == Some(p.collector))
      && Latest(v, p, now).Some? && !Agreed(v.rules[p.rule], Latest(v, p, now).value.row)
    ensures p in Breaching(v, now) ==>
      NewestSince(v.index, p.collector, Threshold(now, v.rules[p.rule].windowSeconds), Latest(v, p, now).value)
  {
    assert EnabledFor(v.rules, p.collector, v.enabled(p.collector));
    if p.rule in v.rules {
      FirstSinceIsNewest(v.index, p.collector, PAGE, v.recent(p.collector),
                         Threshold(now, v.rules[p.rule].windowSeconds));
      if Latest(v, p, now).Some? {
        BreachIffNotAgreed(v.rules[p.rule], Latest(v, p, now).value.row);
      }
    }
  }

  // --- What a sweep does ------------------------------------------------------------------------

  function PairOf(a: Alert): Pair {
    Pair(a.collector, a.rule)
  }

  function ActivePairs(alerts: map<AlertId, Alert>): (r: set<Pair>) {
    set id | id in alerts && Active(alerts[id].state) :: PairOf(alerts[id])
  }

  /** An alert the sweep found: left alone, or seen again now. */
  ghost predicate Refreshed(before: Alert, after: Alert, now: int) {
    && AlertRuns.OnlyTouched(before, after)
    && (after == before || (Active(before.state) && after.lastSeen == now && after.version == before.version + 1))
  }

  /** An alert the sweep raised, from the newest reading in the rule's window. */
  ghost predicate Raised(v: View, a: Alert, now: int) {
    && Breaches(v, PairOf(a), now)
    && a.message == v.wording(Evaluate(v.rules[a.rule], Latest(v, PairOf(a), now).value.row).value)
    && a.reading == Latest(v, PairOf(a), now).value.id && a.severity == v.rules[a.rule].severity
    && a.state.Open? && a.assignee == NOBODY && a.version == 1
    && a.firstSeen == a.lastSeen == a.createdAt == a.updatedAt == now
  }

  ghost predicate OldAlertsKept(before: map<AlertId, Alert>, after: map<AlertId, Alert>, done: set<Pair>, now: int) {
    forall id :: id in before ==>
      && id in after && Refreshed(before[id], after[id], now)
      && (PairOf(before[id]) !in done ==> after[id] == before[id])
  }

  ghost predicate NewAlertsRaised(v: View, before: map<AlertId, Alert>, after: map<AlertId, Alert>, done: set<Pair>,
                                  now: int) {
    && (forall id :: id in after && id !in before ==>
          Raised(v, after[id], now) && PairOf(after[id]) in done - ActivePairs(before))
    && forall i, j ::
         i in after && j in after && i !in before && j !in before && PairOf(after[i]) == PairOf(after[j]) ==> i == j
  }

  ghost predicate SeenNow(alerts: map<AlertId, Alert>, p: Pair, now: int) {
    exists id :: id in alerts && PairOf(alerts[id]) == p && Active(alerts[id].state) && alerts[id].lastSeen == now
  }

  ghost predicate AllSeen(alerts: map<AlertId, Alert>, done: set<Pair>, now: int) {
    forall p :: p in done ==> SeenNow(alerts, p, now)
  }

  ghost predicate PairsAre(before: map<AlertId, Alert>, after: map<AlertId, Alert>, done: set<Pair>) {
    ActivePairs(after) == ActivePairs(before) + done
  }

  /** The sweep has dealt with the breaching pairs `done`: each has an active alert seen now, those that
      had none before got exactly one, and nothing else about the alerts has changed. */
  ghost predicate Dealt(v: View, before: map<AlertId, Alert>, after: map<AlertId, Alert>, done: set<Pair>, now: int,
                        created: nat) {
    && PairsAre(before, after, done)
    && created == |done - ActivePairs(before)|
    && OldAlertsKept(before, after, done, now)
    && NewAlertsRaised(v, before, after, done, now)
    && AllSeen(after, done, now)
  }

  /** And it has counted as suppressed those of them that had an active alert. */
  ghost predicate Swept(v: View, before: map<AlertId, Alert>, after: map<AlertId, Alert>, done: set<Pair>, now: int,
                        created: nat, suppressed: nat) {
    Dealt(v, before, after, done, now, created) && suppressed == |done * ActivePairs(before)|
  }

  // --- The method -------------------------------------------------------------------------------

  datatype EvalSummary = EvalSummary(collectors: nat, evaluated: nat, created: nat, suppressed: nat)

  /** What a sweep may meet: a context that ends before collector number `ends`; rules or readings of a collector
      that cannot be loaded; a pair whose active alert cannot be looked for, or whose update or new alert
      cannot be written. */
  datatype Trouble = Trouble(ends: nat, loads: Text -> bool, finds: Pair -> bool, writes: Pair -> bool)

  /** The enabled rules that govern one of the first n collectors, each with that collector, where they
      could be loaded. */
  ghost function Governing(v: View, t: Trouble, n: nat): set<Pair>
    requires n <= |v.collectors|
  {
    set c, r | c in v.collectors[..n] && t.loads(c) && r in v.enabled(c) :: Pair(c, r)
  }

  /** The pairs that could be looked up and written. */
  ghost function Handled(t: Trouble, pairs: set<Pair>): set<Pair> {
    set p | p in pairs && t.loads(p.collector) && t.finds(p) && t.writes(p)
  }

  /** The pairs found to have an active alert already. */
  ghost function Met(t: Trouble, pairs: set<Pair>, active: set<Pair>): set<Pair> {
    set p | p in pairs && t.loads(p.collector) && t.finds(p) && p in active
  }

  /** The sweep has come to the breaching pairs `pairs` and dealt with those it could; it counts as
      suppressed every pair it found active, whether or not it could write down that it saw it. */
  ghost predicate SweptUnder(v: View, t: Trouble, before: map<AlertId, Alert>, after: map<AlertId, Alert>,
                             pairs: set<Pair>, now: int, created: nat, suppressed: nat) {
    && Dealt(v, before, after, Handled(t, pairs), now, created)
    && suppressed == |Met(t, pairs, ActivePairs(before))|
  }

  /** The sweep comes to the first n collectors: all of them, or those before the end of its context. */
  ghost predicate EndsAt(v: View, t: Trouble, n: nat) {
    n == if t.ends < |v.collectors| then t.ends else |v.collectors|
  }

  ghost predicate FreshIds(ids: nat -> AlertId, used: nat, alerts: map<AlertId, Alert>) {
    && (forall k :: used <= k ==> ids(k) !in alerts)
    && forall j, k :: used <= j < k ==> ids(j) != ids(k)
  }

  ghost function BreachingFirst(v: View, n: nat, now: int): set<Pair>
    requires n <= |v.collectors|
  {
    set c, r | c in v.collectors[..n] && r in v.enabled(c) && Breaches(v, Pair(c, r), now) :: Pair(c, r)
  }

  /** The breaching pairs of the first n collectors and of the first j rules of the next. */
  ghost function BreachingUpTo(v: View, n: nat, j: nat, now: int): set<Pair>
    requires n < |v.collectors| && j <= |v.enabled(v.collectors[n])|
  {
    var c := v.collectors[n];
    BreachingFirst(v, n, now) + set r | r in v.enabled(c)[..j] && Breaches(v, Pair(c, r), now) :: Pair(c, r)
  }

  function Draft(v: View, p: Pair, s: ReadingSummary, message: Text, now: int): Alert
    requires p.rule in v.rules
  {
    Alert(p.collector, p.rule, s.id, v.rules[p.rule].severity, Open, message, NOBODY, now, now, 0, 0, now, now)
  }

  class AlertService {
    const repo: AlertStore.Repo

    constructor (repo: AlertStore.Repo)
      ensures this.repo == repo
    {
      this.repo := repo;
    }

    /** A sweep at time `now`; `clock` is what the store stamps writes with and `ids` the identifiers it
        generates. It reports an error when its context ends before the last collector. */
    method Evaluate(v: View, t: Trouble, now: int, clock: int, ids: nat -> AlertId)
      returns (summary: EvalSummary, ok: bool, ghost n: nat)
      requires Answered(v) && now != 0 && FreshIds(ids, 0, repo.alerts)
      modifies repo`alerts
      ensures EndsAt(v, t, n) && (ok <==> n == |v.collectors|)
      ensures SoFar(v, t, old(repo.alerts), repo.alerts, n, now, summary, ids)
    {
      NothingYet(v, t, repo.alerts, now, EvalSummary(|v.collectors|, 0, 0, 0), ids);
      var reached;
      summary, reached := CheckCollectors(v, t, now, clock, ids, EvalSummary(|v.collectors|, 0, 0, 0), repo.alerts);
      ok, n := reached == |v.collectors|, reached;
    }

    /** The outer loop. */
    method CheckCollectors(v: View, t: Trouble, now: int, clock: int, ids: nat -> AlertId, summary: EvalSummary,
                           ghost before: map<AlertId, Alert>)
      returns (after: EvalSummary, n: nat)
      requires Answered(v) && now != 0 && SoFar(v, t, before, repo.alerts, 0, now, summary, ids)
      modifies repo`alerts
      ensures EndsAt(v, t, n) && SoFar(v, t, before, repo.alerts, n, now, after, ids)
    {
      after := summary;
      for i := 0 to |v.collectors|
        invariant i <= t.ends && SoFar(v, t, before, repo.alerts, i, now, after, ids)
      {
        if i == t.ends {
          return after, i;
        }
        after := CheckCollector(v, t, i, now, clock, ids, after, before);
      }
      n := |v.collectors|;
    }

    /** One collector: every rule enabled for it, if its rules and readings can be loaded. */
    method CheckCollector(v: View, t: Trouble, i: nat, now: int, clock: int, ids: nat -> AlertId, summary: EvalSummary,
                          ghost before: map<AlertId, Alert>)
      returns (after: EvalSummary)
      requires Answered(v) && now != 0 && i < |v.collectors|
      requires SoFar(v, t, before, repo.alerts, i, now, summary, ids)
      modifies repo`alerts
      ensures SoFar(v, t, before, repo.alerts, i + 1, now, after, ids)
    {
      after := summary;
      GoverningNext(v, t, i);
      if t.loads(v.collectors[i]) {
        CollectorStarts(v, i, now);
        after := CheckRules(v, t, i, now, clock, ids, summary, before);
        CollectorEnds(v, i, now);
      } else {
        NotLoaded(v, t, before, repo.alerts, i, now, summary.created, summary.suppressed);
      }
      OneCollectorMore(v, t, before, repo.alerts, i, now, summary, after, ids);
    }

    /** The inner loop. */
    method CheckRules(v: View, t: Trouble, i: nat, now: int, clock: int, ids: nat -> AlertId, summary: EvalSummary,
                      ghost before: map<AlertId, Alert>)
      returns (after: EvalSummary)
      requires Answered(v) && now != 0 && i < |v.collectors| && t.loads(v.collectors[i])
      requires FreshIds(ids, summary.created, repo.alerts)
      requires SweptUnder(v, t, before, repo.alerts, BreachingUpTo(v, i, 0, now), now, summary.created,
                          summary.suppressed)
      modifies repo`alerts
      ensures FreshIds(ids, after.created, repo.alerts)
      ensures SweptUnder(v, t, before, repo.alerts, BreachingUpTo(v, i, |v.enabled(v.collectors[i])|, now), now,
                         after.created, after.suppressed)
      ensures after.collectors == summary.collectors
      ensures after.evaluated == summary.evaluated + |v.enabled(v.collectors[i])|
    {
      var c := v.collectors[i];
      var rules := v.enabled(c);
      after := summary;
      for j := 0 to |rules|
        invariant SweptUnder(v, t, before, repo.alerts, BreachingUpTo(v, i, j, now), now, after.created,
                             after.suppressed)
        invariant FreshIds(ids, after.created, repo.alerts)
        invariant after.collectors == summary.collectors && after.evaluated == summary.evaluated + j
      {
        RuleNext(v, i, j, now);
        after := CheckRule(v, t, Pair(c, rules[j]), now, clock, ids, after, before, BreachingUpTo(v, i, j, now));
      }
    }

    /** One rule against the collector's readings. */
    method CheckRule(v: View, t: Trouble, p: Pair, now: int, clock: int, ids: nat -> AlertId, summary: EvalSummary,
                     ghost before: map<AlertId, Alert>, ghost pairs: set<Pair>)
      returns (after: EvalSummary)
      requires p.rule in v.rules && now != 0 && t.loads(p.collector) && p !in pairs
      requires FreshIds(ids, summary.created, repo.alerts)
      requires SweptUnder(v, t, before, repo.alerts, pairs, now, summary.created, summary.suppressed)
      modifies repo`alerts
      ensures FreshIds(ids, after.created, repo.alerts)
      ensures SweptUnder(v, t, before, repo.alerts, if Breaches(v, p, now) then pairs + {p} else pairs, now,
                         after.created, after.suppressed)
      ensures after.collectors == summary.collectors && after.evaluated == summary.evaluated + 1
    {
      after := summary.(evaluated := summary.evaluated + 1);
      var ru := v.rules[p.rule];
      var latest := LatestWithin(v.recent(p.collector), now, ru.windowSeconds);
      if latest.None? {
        return;
      }
      var breach := Rules.Evaluate(ru, latest.value.row);
      if breach.None? {
        return;
      }
      after := SuppressOrRaise(v, t, p, latest.value, v.wording(breach.value), now, clock, ids, after, before, pairs);
    }

    /** Refresh the pair's active alert, or raise one, as far as the database lets it. */
    method SuppressOrRaise(v: View, t: Trouble, p: Pair, latest: ReadingSummary, message: Text, now: int, clock: int,
                           ids: nat -> AlertId, summary: EvalSummary, ghost before: map<AlertId, Alert>,
                           ghost pairs: set<Pair>)
      returns (after: EvalSummary)
      requires Breaches(v, p, now) && Latest(v, p, now) == Some(latest) && now != 0 && t.loads(p.collector)
      requires p !in pairs
      requires message == v.wording(Rules.Evaluate(v.rules[p.rule], latest.row).value)
      requires FreshIds(ids, summary.created, repo.alerts)
      requires SweptUnder(v, t, before, repo.alerts, pairs, now, summary.created, summary.suppressed)
      modifies repo`alerts
      ensures FreshIds(ids, after.created, repo.alerts)
      ensures SweptUnder(v, t, before, repo.alerts, pairs + {p}, now, after.created, after.suppressed)
      ensures after == summary.(created := after.created, suppressed := after.suppressed)
    {
      if !t.finds(p) {
        UnderSkip(v, t, before, repo.alerts, pairs, now, summary.created, summary.suppressed, p);
        return summary;
      }
      var found := repo.FindActive(p.collector, p.rule);
      if found.Some? {
        Suppress(v, t, p, found.value, now, clock, ids, summary, before, pairs);
        return summary.(suppressed := summary.suppressed + 1);
      }
      if !t.writes(p) {
        UnderNoAlert(v, t, before, repo.alerts, pairs, now, summary.created, summary.suppressed, p);
        return summary;
      }
      Raise(v, t, p, latest, message, now, clock, ids, summary, before, pairs);
      return summary.(created := summary.created + 1);
    }

    /** The pair's alert is seen again, if that can be written. */
    method Suppress(v: View, t: Trouble, p: Pair, id: AlertId, now: int, clock: int, ids: nat -> AlertId,
                    summary: EvalSummary, ghost before: map<AlertId, Alert>, ghost pairs: set<Pair>)
      requires t.loads(p.collector) && t.finds(p) && p !in pairs && FreshIds(ids, summary.created, repo.alerts)
      requires id in repo.alerts && ActiveFor(repo.alerts[id], p.collector, p.rule)
      requires SweptUnder(v, t, before, repo.alerts, pairs, now, summary.created, summary.suppressed)
      modifies repo`alerts
      ensures FreshIds(ids, summary.created, repo.alerts)
      ensures SweptUnder(v, t, before, repo.alerts, pairs + {p}, now, summary.created, summary.suppressed + 1)
    {
      ghost var mid := repo.alerts;
      if t.writes(p) {
        var existing := repo.alerts[id].(lastSeen := now);
        var _ := repo.Update(id, existing, clock);
        UnderRefresh(v, t, before, mid, pairs, now, summary.created, summary.suppressed, p, id, clock);
      } else {
        UnderUnwritten(v, t, before, mid, pairs, now, summary.created, summary.suppressed, p, id);
      }
    }

    /** A new alert for a pair that has none. */
    method Raise(v: View, t: Trouble, p: Pair, latest: ReadingSummary, message: Text, now: int, clock: int,
                 ids: nat -> AlertId, summary: EvalSummary, ghost before: map<AlertId, Alert>, ghost pairs: set<Pair>)
      requires Breaches(v, p, now) && Latest(v, p, now) == Some(latest) && now != 0
      requires t.loads(p.collector) && t.finds(p) && t.writes(p) && p !in pairs
      requires message == v.wording(Rules.Evaluate(v.rules[p.rule], latest.row).value)
      requires FreshIds(ids, summary.created, repo.alerts)
      requires forall id :: id in repo.alerts ==> !ActiveFor(repo.alerts[id], p.collector, p.rule)
      requires SweptUnder(v, t, before, repo.alerts, pairs, now, summary.created, summary.suppressed)
      modifies repo`alerts
      ensures FreshIds(ids, summary.created + 1, repo.alerts)
      ensures SweptUnder(v, t, before, repo.alerts, pairs + {p}, now, summary.created + 1, summary.suppressed)
    {
      ghost var mid := repo.alerts;
      var newId := ids(summary.created);
      DraftIsRaised(v, p, latest, message, now, clock);
      var _ := repo.Create(newId, Draft(v, p, latest, message, now), clock);
      UnderRaise(v, t, before, mid, pairs, now, summary.created, summary.suppressed, p, newId,
                 Filled(Draft(v, p, latest, message, now), clock));
    }
  }

  // --- Collectors the sweep has come to -------------------------------------------------------------

  /** The sweep has come to i collectors, and its counters are in step. */
  ghost predicate SoFar(v: View, t: Trouble, before: map<AlertId, Alert>, alerts: map<AlertId, Alert>, i: nat, now: int,
                        summary: EvalSummary, ids: nat -> AlertId)
    requires i <= |v.collectors|
  {
    match summary
    case EvalSummary(collectors, evaluated, created, suppressed) =>
      && collectors == |v.collectors| && evaluated == |Governing(v, t, i)|
      && SweptUnder(v, t, before, alerts, BreachingFirst(v, i, now), now, created, suppressed)
      && FreshIds(ids, created, alerts)
  }

  lemma NothingYet(v: View, t: Trouble, alerts: map<AlertId, Alert>, now: int, summary: EvalSummary,
                   ids: nat -> AlertId)
    requires summary == EvalSummary(|v.collectors|, 0, 0, 0) && FreshIds(ids, 0, alerts)
    ensures SoFar(v, t, alerts, alerts, 0, now, summary, ids)
  {
    SweptNothing(v, t, alerts, now);
    assert Governing(v, t, 0) == {};
  }

  lemma OneCollectorMore(v: View, t: Trouble, before: map<AlertId, Alert>, alerts: map<AlertId, Alert>, i: nat,
                         now: int, summary: EvalSummary, after: EvalSummary, ids: nat -> AlertId)
    requires i < |v.collectors| && FreshIds(ids, after.created, alerts)
    requires SweptUnder(v, t, before, alerts, BreachingFirst(v, i + 1, now), now, after.created, after.suppressed)
    requires summary.collectors == |v.collectors| && summary.evaluated == |Governing(v, t, i)|
    requires after.collectors == summary.collectors
    requires after.evaluated - |Governing(v, t, i + 1)| == summary.evaluated - |Governing(v, t, i)|
    ensures SoFar(v, t, before, alerts, i + 1, now, after, ids)
  {
  }

  // --- Pairs the sweep comes to -------------------------------------------------------------------

  /** One pair more, and what becomes of the pairs handled and met. */
  lemma PairNext(t: Trouble, pairs: set<Pair>, p: Pair, active: set<Pair>)
    requires p !in pairs && t.loads(p.collector)
    ensures p !in Handled(t, pairs)
    ensures t.finds(p) && t.writes(p) ==> Handled(t, pairs + {p}) == Handled(t, pairs) + {p}
    ensures !(t.finds(p) && t.writes(p)) ==> Handled(t, pairs + {p}) == Handled(t, pairs)
    ensures |Met(t, pairs + {p}, active)| == |Met(t, pairs, active)| + if t.finds(p) && p in active then 1 else 0
  {
    if t.finds(p) && p in active {
      assert Met(t, pairs + {p}, active) == Met(t, pairs, active) + {p};
    } else {
      assert Met(t, pairs + {p}, active) == Met(t, pairs, active);
    }
  }

  /** An active alert found for a pair not dealt with yet was there before the sweep. */
  lemma WasFound(v: View, before: map<AlertId, Alert>, mid: map<AlertId, Alert>, done: set<Pair>, now: int, p: Pair,
                 id: AlertId)
    requires OldAlertsKept(before, mid, done, now) && NewAlertsRaised(v, before, mid, done, now)
    requires id in mid && ActiveFor(mid[id], p.collector, p.rule) && p !in done
    ensures p in ActivePairs(before)
  {
    NotDoneIsOld(v, before, mid, done, now, id);
    ActivePairIff(before, p);
  }

  lemma WasNotFound(before: map<AlertId, Alert>, mid: map<AlertId, Alert>, done: set<Pair>, p: Pair)
    requires PairsAre(before, mid, done) && forall id :: id in mid ==> !ActiveFor(mid[id], p.collector, p.rule)
    ensures p !in ActivePairs(before)
  {
    ActivePairIff(mid, p);
  }

  /** More pairs, none of which could be handled. */
  lemma UnderSame(v: View, t: Trouble, before: map<AlertId, Alert>, mid: map<AlertId, Alert>, pairs: set<Pair>,
                  wider: set<Pair>, now: int, created: nat, suppressed: nat, counted: nat)
    requires SweptUnder(v, t, before, mid, pairs, now, created, suppressed)
    requires Handled(t, wider) == Handled(t, pairs) && counted == |Met(t, wider, ActivePairs(before))|
    ensures SweptUnder(v, t, before, mid, wider, now, created, counted)
  {
  }

  lemma UnderIs(v: View, t: Trouble, before: map<AlertId, Alert>, after: map<AlertId, Alert>, pairs: set<Pair>,
                done: set<Pair>, now: int, created: nat, suppressed: nat)
    requires Dealt(v, before, after, done, now, created) && done == Handled(t, pairs)
    requires suppressed == |Met(t, pairs, ActivePairs(before))|
    ensures SweptUnder(v, t, before, after, pairs, now, created, suppressed)
  {
  }

  lemma UnderSkip(v: View, t: Trouble, before: map<AlertId, Alert>, mid: map<AlertId, Alert>, pairs: set<Pair>,
                  now: int, created: nat, suppressed: nat, p: Pair)
    requires SweptUnder(v, t, before, mid, pairs, now, created, suppressed)
    requires p !in pairs && t.loads(p.collector) && !t.finds(p)
    ensures SweptUnder(v, t, before, mid, pairs + {p}, now, created, suppressed)
  {
    PairNext(t, pairs, p, ActivePairs(before));
    UnderSame(v, t, before, mid, pairs, pairs + {p}, now, created, suppressed, suppressed);
  }

  /** The pair has an active alert, whose row cannot be written. */
  lemma UnderUnwritten(v: View, t: Trouble, before: map<AlertId, Alert>, mid: map<AlertId, Alert>, pairs: set<Pair>,
                       now: int, created: nat, suppressed: nat, p: Pair, id: AlertId)
    requires SweptUnder(v, t, before, mid, pairs, now, created, suppressed) && p !in pairs
    requires t.loads(p.collector) && t.finds(p) && !t.writes(p) && id in mid && ActiveFor(mid[id], p.collector, p.rule)
    ensures SweptUnder(v, t, before, mid, pairs + {p}, now, created, suppressed + 1)
  {
    PairNext(t, pairs, p, ActivePairs(before));
    WasFound(v, before, mid, Handled(t, pairs), now, p, id);
    UnderSame(v, t, before, mid, pairs, pairs + {p}, now, created, suppressed, suppressed + 1);
  }

  /** The pair has an active alert, whose row is written. */
  lemma UnderRefresh(v: View, t: Trouble, before: map<AlertId, Alert>, mid: map<AlertId, Alert>, pairs: set<Pair>,
                     now: int, created: nat, suppressed: nat, p: Pair, id: AlertId, clock: int)
    requires SweptUnder(v, t, before, mid, pairs, now, created, suppressed) && p !in pairs
    requires t.loads(p.collector) && t.finds(p) && t.writes(p) && id in mid && ActiveFor(mid[id], p.collector, p.rule)
    ensures SweptUnder(v, t, before, mid[id := Overwritten(mid[id], mid[id].(lastSeen := now), clock)], pairs + {p},
                       now, created, suppressed + 1)
  {
    var done := Handled(t, pairs);
    PairNext(t, pairs, p, ActivePairs(before));
    WasFound(v, before, mid, done, now, p, id);
    DealtRefresh(v, before, mid, done, now, created, p, id, clock);
    UnderIs(v, t, before, mid[id := Overwritten(mid[id], mid[id].(lastSeen := now), clock)], pairs + {p}, done + {p},
            now, created, suppressed + 1);
  }

  /** The pair has none, and none can be written. */
  lemma UnderNoAlert(v: View, t: Trouble, before: map<AlertId, Alert>, mid: map<AlertId, Alert>, pairs: set<Pair>,
                     now: int, created: nat, suppressed: nat, p: Pair)
    requires SweptUnder(v, t, before, mid, pairs, now, created, suppressed)
    requires p !in pairs && t.loads(p.collector) && !t.writes(p)
    requires forall id :: id in mid ==> !ActiveFor(mid[id], p.collector, p.rule)
    ensures SweptUnder(v, t, before, mid, pairs + {p}, now, created, suppressed)
  {
    PairNext(t, pairs, p, ActivePairs(before));
    WasNotFound(before, mid, Handled(t, pairs), p);
    UnderSame(v, t, before, mid, pairs, pairs + {p}, now, created, suppressed, suppressed);
  }

  /** The pair has none, and gets one. */
  lemma UnderRaise(v: View, t: Trouble, before: map<AlertId, Alert>, mid: map<AlertId, Alert>, pairs: set<Pair>,
                   now: int, created: nat, suppressed: nat, p: Pair, id: AlertId, a: Alert)
    requires SweptUnder(v, t, before, mid, pairs, now, created, suppressed)
    requires p !in pairs && t.loads(p.collector) && t.finds(p) && t.writes(p)
    requires id !in mid && PairOf(a) == p && Raised(v, a, now) && a.lastSeen == now
    requires forall other :: other in mid ==> !ActiveFor(mid[other], p.collector, p.rule)
    ensures SweptUnder(v, t, before, mid[id := a], pairs + {p}, now, created + 1, suppressed)
  {
    var done := Handled(t, pairs);
    PairNext(t, pairs, p, ActivePairs(before));
    WasNotFound(before, mid, done, p);
    DealtRaise(v, before, mid, done, now, created, p, id, a);
    UnderIs(v, t, before, mid[id := a], pairs + {p}, done + {p}, now, created + 1, suppressed);
  }

  /** A collector that could not be loaded adds pairs but none that are handled or met. */
  lemma NotLoaded(v: View, t: Trouble, before: map<AlertId, Alert>, mid: map<AlertId, Alert>, i: nat, now: int,
                  created: nat, suppressed: nat)
    requires Answered(v) && i < |v.collectors| && !t.loads(v.collectors[i])
    requires SweptUnder(v, t, before, mid, BreachingFirst(v, i, now), now, created, suppressed)
    ensures SweptUnder(v, t, before, mid, BreachingFirst(v, i + 1, now), now, created, suppressed)
  {
    var pairs, wider := BreachingFirst(v, i, now), BreachingFirst(v, i + 1, now);
    NotLoadedPairs(v, t, i, now, ActivePairs(before));
    UnderSame(v, t, before, mid, pairs, wider, now, created, suppressed, suppressed);
  }

  lemma NotLoadedPairs(v: View, t: Trouble, i: nat, now: int, active: set<Pair>)
    requires i < |v.collectors| && !t.loads(v.collectors[i])
    ensures Handled(t, BreachingFirst(v, i + 1, now)) == Handled(t, BreachingFirst(v, i, now))
    ensures Met(t, BreachingFirst(v, i + 1, now), active) == Met(t, BreachingFirst(v, i, now), active)
  {
    assert v.collectors[..i + 1] == v.collectors[..i] + [v.collectors[i]];
  }

  ghost predicate NoTrouble(t: Trouble) {
    && (forall c :: t.loads(c)) && (forall p :: t.finds(p)) && forall p :: t.writes(p)
  }

  lemma CalmPairs(t: Trouble, pairs: set<Pair>, active: set<Pair>)
    requires NoTrouble(t)
    ensures Handled(t, pairs) == pairs && Met(t, pairs, active) == pairs * active
  {
  }

  /** Without trouble the sweep deals with every pair that breaches. */
  lemma CalmSweep(v: View, t: Trouble, before: map<AlertId, Alert>, after: map<AlertId, Alert>, n: nat, now: int,
                  created: nat, suppressed: nat)
    requires n == |v.collectors| && NoTrouble(t)
    requires SweptUnder(v, t, before, after, BreachingFirst(v, n, now), now, created, suppressed)
    ensures Swept(v, before, after, Breaching(v, now), now, created, suppressed)
  {
    FirstIsAll(v, now);
    CalmPairs(t, Breaching(v, now), ActivePairs(before));
  }

  // --- One pair ---------------------------------------------------------------------------------

  lemma SweptNothing(v: View, t: Trouble, alerts: map<AlertId, Alert>, now: int)
    ensures SweptUnder(v, t, alerts, alerts, BreachingFirst(v, 0, now), now, 0, 0)
  {
    assert BreachingFirst(v, 0, now) == {};
    assert Handled(t, {}) == {} && Met(t, {}, ActivePairs(alerts)) == {};
  }

  lemma ActivePairIff(alerts: map<AlertId, Alert>, p: Pair)
    ensures p in ActivePairs(alerts) <==> exists id :: id in alerts && ActiveFor(alerts[id], p.collector, p.rule)
  {
    if p in ActivePairs(alerts) {
      var id :| id in alerts && Active(alerts[id].state) && PairOf(alerts[id]) == p;
      assert ActiveFor(alerts[id], p.collector, p.rule);
    }
    if id :| id in alerts && ActiveFor(alerts[id], p.collector, p.rule) {
      assert PairOf(alerts[id]) == p;
    }
  }

  lemma StillSeen(mid: map<AlertId, Alert>, done: set<Pair>, now: int, p: Pair, id: AlertId, row: Alert)
    requires AllSeen(mid, done, now)
    requires id !in mid || PairOf(mid[id]) !in done
    requires PairOf(row) == p && Active(row.state) && row.lastSeen == now
    ensures AllSeen(mid[id := row], done + {p}, now)
  {
    var after := mid[id := row];
    assert PairOf(after[id]) == p;
    forall q | q in done
      ensures SeenNow(after, q, now)
    {
      assert SeenNow(mid, q, now);
      var other :| other in mid && PairOf(mid[other]) == q && Active(mid[other].state) && mid[other].lastSeen == now;
      assert after[other] == mid[other];
    }
  }

  /** An active alert of a pair not dealt with yet is one from before the sweep, as it was. */
  lemma NotDoneIsOld(v: View, before: map<AlertId, Alert>, mid: map<AlertId, Alert>, done: set<Pair>, now: int,
                     id: AlertId)
    requires OldAlertsKept(before, mid, done, now) && NewAlertsRaised(v, before, mid, done, now)
    requires id in mid && PairOf(mid[id]) !in done
    ensures id in before && mid[id] == before[id]
  {
  }

  lemma RefreshPairs(before: map<AlertId, Alert>, mid: map<AlertId, Alert>, done: set<Pair>, p: Pair, id: AlertId,
                     row: Alert)
    requires PairsAre(before, mid, done) && p in ActivePairs(before)
    requires id in mid && PairOf(row) == PairOf(mid[id]) && row.state == mid[id].state
    ensures PairsAre(before, mid[id := row], done + {p})
  {
    SamePairs(mid, id, row);
    assert ActivePairs(before) + (done + {p}) == ActivePairs(before) + done;
  }

  lemma SamePairs(mid: map<AlertId, Alert>, id: AlertId, row: Alert)
    requires id in mid && PairOf(row) == PairOf(mid[id]) && row.state == mid[id].state
    ensures ActivePairs(mid[id := row]) == ActivePairs(mid)
  {
    var after := mid[id := row];
    assert after.Keys == mid.Keys;
    assert forall k :: k in mid ==> after[k].state == mid[k].state && PairOf(after[k]) == PairOf(mid[k]);
  }

  lemma StillNew(active: set<Pair>, done: set<Pair>, p: Pair)
    requires p !in done
    ensures |(done + {p}) - active| == |done - active| + if p in active then 0 else 1
  {
    if p in active {
      assert (done + {p}) - active == done - active;
    } else {
      assert (done + {p}) - active == (done - active) + {p};
    }
  }

  lemma DealtRefresh(v: View, before: map<AlertId, Alert>, mid: map<AlertId, Alert>, done: set<Pair>, now: int,
                     created: nat, p: Pair, id: AlertId, clock: int)
    requires Dealt(v, before, mid, done, now, created) && p !in done
    requires id in mid && ActiveFor(mid[id], p.collector, p.rule)
    ensures Dealt(v, before, mid[id := Overwritten(mid[id], mid[id].(lastSeen := now), clock)], done + {p}, now,
                  created)
  {
    var row := Overwritten(mid[id], mid[id].(lastSeen := now), clock);
    NotDoneIsOld(v, before, mid, done, now, id);
    ActivePairIff(before, p);
    assert PairOf(row) == p;
    RefreshPairs(before, mid, done, p, id, row);
    StillNew(ActivePairs(before), done, p);
    StillSeen(mid, done, now, p, id, row);
    OldKeptRefresh(before, mid, done, now, p, id, row);
    NewRaisedRefresh(v, before, mid, done, now, p, id, row);
  }

  lemma OldKeptRefresh(before: map<AlertId, Alert>, mid: map<AlertId, Alert>, done: set<Pair>, now: int, p: Pair,
                       id: AlertId, row: Alert)
    requires OldAlertsKept(before, mid, done, now) && id in before && id in mid
    requires PairOf(before[id]) == p && Refreshed(before[id], row, now)
    ensures OldAlertsKept(before, mid[id := row], done + {p}, now)
  {
  }

  lemma NewRaisedRefresh(v: View, before: map<AlertId, Alert>, mid: map<AlertId, Alert>, done: set<Pair>, now: int,
                         p: Pair, id: AlertId, row: Alert)
    requires NewAlertsRaised(v, before, mid, done, now) && id in before && id in mid
    ensures NewAlertsRaised(v, before, mid[id := row], done + {p}, now)
  {
  }

  lemma DraftIsRaised(v: View, p: Pair, latest: ReadingSummary, message: Text, now: int, clock: int)
    requires Breaches(v, p, now) && Latest(v, p, now) == Some(latest) && now != 0
    requires message == v.wording(Rules.Evaluate(v.rules[p.rule], latest.row).value)
    ensures var a := Filled(Draft(v, p, latest, message, now), clock);
      Raised(v, a, now) && PairOf(a) == p && a.lastSeen == now
  {
  }

  lemma DealtRaise(v: View, before: map<AlertId, Alert>, mid: map<AlertId, Alert>, done: set<Pair>, now: int,
                   created: nat, p: Pair, id: AlertId, a: Alert)
    requires Dealt(v, before, mid, done, now, created) && p !in done
    requires id !in mid && PairOf(a) == p && Raised(v, a, now) && a.lastSeen == now
    requires forall other :: other in mid ==> !ActiveFor(mid[other], p.collector, p.rule)
    ensures Dealt(v, before, mid[id := a], done + {p}, now, created + 1)
  {
    RaisePairs(before, mid, done, p, id, a);
    StillNew(ActivePairs(before), done, p);
    StillSeen(mid, done, now, p, id, a);
    OldKeptRaise(before, mid, done, now, p, id, a);
    NewRaisedRaise(v, before, mid, done, now, p, id, a);
  }

  lemma RaisePairs(before: map<AlertId, Alert>, mid: map<AlertId, Alert>, done: set<Pair>, p: Pair, id: AlertId,
                   a: Alert)
    requires PairsAre(before, mid, done) && id !in mid && PairOf(a) == p && Active(a.state)
    requires forall other :: other in mid ==> !ActiveFor(mid[other], p.collector, p.rule)
    ensures p !in ActivePairs(before) && PairsAre(before, mid[id := a], done + {p})
  {
    ActivePairIff(mid, p);
    OnePairMore(mid, id, a);
    assert ActivePairs(before) + (done + {p}) == (ActivePairs(before) + done) + {p};
  }

  lemma OnePairMore(mid: map<AlertId, Alert>, id: AlertId, a: Alert)
    requires id !in mid && Active(a.state)
    ensures ActivePairs(mid[id := a]) == ActivePairs(mid) + {PairOf(a)}
  {
    var after := mid[id := a];
    assert after[id] == a;
    forall p | p in ActivePairs(mid)
      ensures p in ActivePairs(after)
    {
      var k :| k in mid && Active(mid[k].state) && PairOf(mid[k]) == p;
      assert after[k] == mid[k];
    }
  }

  lemma OldKeptRaise(before: map<AlertId, Alert>, mid: map<AlertId, Alert>, done: set<Pair>, now: int, p: Pair,
                     id: AlertId, a: Alert)
    requires OldAlertsKept(before, mid, done, now) && id !in mid
    ensures OldAlertsKept(before, mid[id := a], done + {p}, now)
  {
  }

  lemma NewRaisedRaise(v: View, before: map<AlertId, Alert>, mid: map<AlertId, Alert>, done: set<Pair>, now: int,
                       p: Pair, id: AlertId, a: Alert)
    requires NewAlertsRaised(v, before, mid, done, now) && id !in mid && id !in before
    requires PairOf(a) == p && p !in done && p !in ActivePairs(before) && Raised(v, a, now)
    ensures NewAlertsRaised(v, before, mid[id := a], done + {p}, now)
  {
  }

  lemma CollectorStarts(v: View, i: nat, now: int)
    requires i < |v.collectors|
    ensures BreachingUpTo(v, i, 0, now) == BreachingFirst(v, i, now)
  {
  }

  lemma RuleNext(v: View, i: nat, j: nat, now: int)
    requires Answered(v) && i < |v.collectors| && j < |v.enabled(v.collectors[i])|
    ensures var p, done := Pair(v.collectors[i], v.enabled(v.collectors[i])[j]), BreachingUpTo(v, i, j, now);
      && p.rule in v.rules && p !in done
      && BreachingUpTo(v, i, j + 1, now) == if Breaches(v, p, now) then done + {p} else done
  {
    var ids := v.enabled(v.collectors[i]);
    assert EnabledFor(v.rules, v.collectors[i], ids);
    assert ids[..j + 1] == ids[..j] + [ids[j]];
    assert v.collectors[i] !in v.collectors[..i];
    assert ids[j] !in ids[..j];
  }

  lemma CollectorEnds(v: View, i: nat, now: int)
    requires i < |v.collectors|
    ensures BreachingFirst(v, i + 1, now) == BreachingUpTo(v, i, |v.enabled(v.collectors[i])|, now)
  {
    var ids := v.enabled(v.collectors[i]);
    assert ids[..|ids|] == ids;
    assert v.collectors[..i + 1] == v.collectors[..i] + [v.collectors[i]];
  }

  lemma GoverningNext(v: View, t: Trouble, i: nat)
    requires Answered(v) && i < |v.collectors|
    ensures |Governing(v, t, i + 1)|
         == |Governing(v, t, i)| + if t.loads(v.collectors[i]) then |v.enabled(v.collectors[i])| else 0
  {
    var c := v.collectors[i];
    assert EnabledFor(v.rules, c, v.enabled(c));
    assert v.collectors[..i + 1] == v.collectors[..i] + [c];
    assert c !in v.collectors[..i];
    if t.loads(c) {
      var own := PairsOf(c, v.enabled(c));
      assert Governing(v, t, i + 1) == Governing(v, t, i) + own;
    } else {
      assert Governing(v, t, i + 1) == Governing(v, t, i);
    }
  }

  lemma {:induction false} PairsOf(c: Text, ids: seq<RuleId>) returns (own: set<Pair>)
    requires Distinct(ids)
    ensures own == (set r | r in ids :: Pair(c, r)) && |own| == |ids|
  {
    own := {};
    if ids != [] {
      var n := |ids| - 1;
      var fewer := PairsOf(c, ids[..n]);
      assert ids == ids[..n] + [ids[n]];
      own := fewer + {Pair(c, ids[n])};
    }
  }

  lemma FirstIsAll(v: View, now: int)
    ensures BreachingFirst(v, |v.collectors|, now) == Breaching(v, now)
  {
    assert v.collectors[..|v.collectors|] == v.collectors;
  }
}
