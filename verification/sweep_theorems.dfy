/** What follows for whole sweeps: one alert per newly breaching pair, and repeating changes next to nothing. */
module SweepTheorems {
  import opened Wrappers
  import opened AlertState
  import opened AlertStore
  import opened RecentReadings
  import opened Rules
  import opened Evaluation
  import AlertRuns

  /** On the same rules and readings at the same time, a second sweep raises nothing, suppresses whatever
      the first one raised or suppressed, and of every alert it changes at most last_seen, updated_at
      and version. */
  lemma RepeatedSweepOnlyTouches(v: View, before: map<AlertId, Alert>, mid: map<AlertId, Alert>,
                                 after: map<AlertId, Alert>, now: int, created: nat, suppressed: nat, created': nat,
                                 suppressed': nat)
    requires Swept(v, before, mid, Breaching(v, now), now, created, suppressed)
    requires Swept(v, mid, after, Breaching(v, now), now, created', suppressed')
    ensures created' == 0 && suppressed' == created + suppressed
    ensures after.Keys == mid.Keys && ActivePairs(after) == ActivePairs(mid)
    ensures forall id :: id in mid ==> AlertRuns.OnlyTouched(mid[id], after[id])
  {
    var done := Breaching(v, now);
    CountsAgain(ActivePairs(before), ActivePairs(mid), ActivePairs(after), done, created, suppressed, created',
                suppressed');
    NothingRaised(v, mid, after, done, now);
    OnlyRefreshed(mid, after, done, now);
  }

  lemma CountsAgain(before: set<Pair>, mid: set<Pair>, after: set<Pair>, done: set<Pair>, created: nat, suppressed: nat,
                    created': nat, suppressed': nat)
    requires mid == before + done && after == mid + done
    requires created == |done - before| && suppressed == |done * before|
    requires created' == |done - mid| && suppressed' == |done * mid|
    ensures created' == 0 && suppressed' == created + suppressed && done <= mid && after == mid
  {
    assert done - mid == {};
    assert done * mid == (done - before) + (done * before);
  }

  lemma NothingRaised(v: View, before: map<AlertId, Alert>, after: map<AlertId, Alert>, done: set<Pair>, now: int)
    requires OldAlertsKept(before, after, done, now) && NewAlertsRaised(v, before, after, done, now)
    requires done <= ActivePairs(before)
    ensures after.Keys == before.Keys
  {
    assert done - ActivePairs(before) == {};
  }

  lemma OnlyRefreshed(before: map<AlertId, Alert>, after: map<AlertId, Alert>, done: set<Pair>, now: int)
    requires OldAlertsKept(before, after, done, now) && after.Keys == before.Keys
    ensures forall id :: id in before ==> AlertRuns.OnlyTouched(before[id], after[id])
  {
    forall id | id in before
      ensures AlertRuns.OnlyTouched(before[id], after[id])
    {
      assert Refreshed(before[id], after[id], now);
    }
  }

  /** An alert the sweep raised is about the newest indexed reading in its rule's window, and its message puts
      into words how that reading passes the rule's limits. */
  lemma RaisedTells(v: View, a: Alert, now: int, b: Breach)
    requires Answered(v) && Raised(v, a, now)
    requires Tells(v.rules[a.rule], Latest(v, PairOf(a), now).value.row, b)
    ensures a.message == v.wording(b) && a.severity == v.rules[a.rule].severity
    ensures a.reading in v.index && Tells(v.rules[a.rule], v.index[a.reading], b)
    ensures NewestSince(v.index, a.collector, Threshold(now, v.rules[a.rule].windowSeconds),
                        Latest(v, PairOf(a), now).value)
  {
    var latest := Latest(v, PairOf(a), now).value;
    BreachIff(v.rules[a.rule], latest.row, b);
    FirstSinceIsNewest(v.index, a.collector, PAGE, v.recent(a.collector),
                       Threshold(now, v.rules[a.rule].windowSeconds));
    assert NewestSince(v.index, a.collector, Threshold(now, v.rules[a.rule].windowSeconds), latest);
  }

  function NewPairs(before: map<AlertId, Alert>, after: map<AlertId, Alert>): set<Pair> {
    set id | id in after && id !in before :: PairOf(after[id])
  }

  /** Every pair that breaches without an active alert gets a new one, and no other pair does. */
  lemma NewPairsAre(v: View, before: map<AlertId, Alert>, after: map<AlertId, Alert>, done: set<Pair>, now: int)
    requires OldAlertsKept(before, after, done, now) && NewAlertsRaised(v, before, after, done, now)
    requires AllSeen(after, done, now)
    ensures NewPairs(before, after) == done - ActivePairs(before)
  {
    forall p | p in done && p !in ActivePairs(before)
      ensures p in NewPairs(before, after)
    {
      assert SeenNow(after, p, now);
      var id :| id in after && PairOf(after[id]) == p && Active(after[id].state) && after[id].lastSeen == now;
      WasActive(before, after, done, now, id);
    }
  }

  lemma WasActive(before: map<AlertId, Alert>, after: map<AlertId, Alert>, done: set<Pair>, now: int, id: AlertId)
    requires OldAlertsKept(before, after, done, now) && id in after && Active(after[id].state)
    ensures id in before ==> PairOf(after[id]) in ActivePairs(before)
  {
    if id in before {
      assert Refreshed(before[id], after[id], now);
      assert PairOf(before[id]) in ActivePairs(before);
    }
  }

  /** The number of alerts created is the number of rows added, one for each newly breaching pair. */
  lemma CreatedCountsRows(v: View, before: map<AlertId, Alert>, after: map<AlertId, Alert>, done: set<Pair>, now: int,
                          created: nat)
    requires Dealt(v, before, after, done, now, created)
    ensures |after.Keys - before.Keys| == created
  {
    NewPairsAre(v, before, after, done, now);
    NewPairsCount(v, before, after, done, now);
  }

  lemma NewPairsCount(v: View, before: map<AlertId, Alert>, after: map<AlertId, Alert>, done: set<Pair>, now: int)
    requires NewAlertsRaised(v, before, after, done, now)
    ensures |NewPairs(before, after)| == |after.Keys - before.Keys|
  {
    var ids := after.Keys - before.Keys;
    assert OnePerPair(after, ids);
    CountPairs(after, ids);
    SamePairSet(before, after);
  }

  lemma SamePairSet(before: map<AlertId, Alert>, after: map<AlertId, Alert>)
    ensures NewPairs(before, after) == PairsOfIds(after, after.Keys - before.Keys)
  {
  }

  function PairsOfIds(alerts: map<AlertId, Alert>, ids: set<AlertId>): set<Pair>
    requires ids <= alerts.Keys
  {
    set id | id in ids :: PairOf(alerts[id])
  }

  ghost predicate OnePerPair(alerts: map<AlertId, Alert>, ids: set<AlertId>)
    requires ids <= alerts.Keys
  {
    forall i, j :: i in ids && j in ids && PairOf(alerts[i]) == PairOf(alerts[j]) ==> i == j
  }

  lemma {:induction false} CountPairs(alerts: map<AlertId, Alert>, ids: set<AlertId>)
    requires ids <= alerts.Keys && OnePerPair(alerts, ids)
    ensures |PairsOfIds(alerts, ids)| == |ids|
  {
    if ids == {} {
      assert PairsOfIds(alerts, ids) == {};
    } else {
      var id :| id in ids;
      CountPairs(alerts, ids - {id});
      assert PairsOfIds(alerts, ids) == PairsOfIds(alerts, ids - {id}) + {PairOf(alerts[id])};
    }
  }

  /** A sweep that meets any trouble, or ends early, still takes no pair off the active ones and adds only
      breaching ones; it has created as many alerts as there are rows more; and it counts as suppressed at
      most the breaching pairs that were active. */
  lemma TroubledSweep(v: View, t: Trouble, before: map<AlertId, Alert>, after: map<AlertId, Alert>, n: nat, now: int,
                      created: nat, suppressed: nat)
    requires EndsAt(v, t, n) && SweptUnder(v, t, before, after, BreachingFirst(v, n, now), now, created, suppressed)
    ensures ActivePairs(before) <= ActivePairs(after) <= ActivePairs(before) + Breaching(v, now)
    ensures |after.Keys - before.Keys| == created
    ensures suppressed <= |Breaching(v, now) * ActivePairs(before)|
  {
    var pairs := BreachingFirst(v, n, now);
    assert pairs <= Breaching(v, now);
    CreatedCountsRows(v, before, after, Handled(t, pairs), now, created);
    SubsetCount(Met(t, pairs, ActivePairs(before)), Breaching(v, now) * ActivePairs(before));
  }

  lemma {:induction false} SubsetCount(a: set<Pair>, b: set<Pair>)
    requires a <= b
    ensures |a| <= |b|
  {
    assert b == a + (b - a);
  }

  /** A sweep on its own never makes a second active alert for a pair, whatever trouble it meets. */
  lemma SweepKeepsOneActive(v: View, before: Db, after: Db, done: set<Pair>, now: int, created: nat)
    requires Dealt(v, before.alerts, after.alerts, done, now, created)
    requires AlertRuns.OneActive(before)
    ensures AlertRuns.OneActive(after)
  {
    forall i, j, c, r | AlertRuns.IsActiveFor(after, i, c, r) && AlertRuns.IsActiveFor(after, j, c, r)
      ensures i == j
    {
      OldOrNew(v, before, after, done, now, created, i, c, r);
      OldOrNew(v, before, after, done, now, created, j, c, r);
    }
  }

  lemma OldOrNew(v: View, before: Db, after: Db, done: set<Pair>, now: int, created: nat, id: AlertId, c: Text,
                 r: RuleId)
    requires Dealt(v, before.alerts, after.alerts, done, now, created)
    requires AlertRuns.IsActiveFor(after, id, c, r)
    ensures if Pair(c, r) in ActivePairs(before.alerts) then AlertRuns.IsActiveFor(before, id, c, r)
            else id !in before.alerts
  {
    if id in before.alerts {
      assert Refreshed(before.alerts[id], after.alerts[id], now);
      assert PairOf(before.alerts[id]) in ActivePairs(before.alerts);
    } else {
      assert PairOf(after.alerts[id]) in done - ActivePairs(before.alerts);
    }
  }
}
