/** From a submitted reading to a raised alert: what a sweep judges is what was submitted. */
module SweepReadings {
  import opened Wrappers
  import opened ReadingState
  import opened ReadingHeld
  import opened ReadingRuns
  import opened ReadingColumns
  import opened RecentReadings
  import opened Rules
  import opened Evaluation

  /** The rule asks for something else than these values. */
  predicate Objects(r: Rule, queueCount: int, durationMs: int, faultCode: Text) {
    match r.metric
    case QueueCount => Beyond(r, queueCount)
    case DurationMs => Beyond(r, durationMs)
    case FaultCode => r.faultTrigger != Text("") && faultCode == r.faultTrigger
    case OtherMetric(_) => false
  }

  predicate Beyond(r: Rule, value: int) {
    (r.maxValue.Some? && value as real > r.maxValue.value) || (r.minValue.Some? && (value as real) < r.minValue.value)
  }

  /** On the index of any state of any run, when the newest reading that a rule sees of a collector was
      appended by step i, the rule breaches exactly when it is enabled and objects to the values submitted
      there; and no indexed reading of the collector is newer. */
  lemma SweepJudgesSubmitted(w: World, states: seq<State>, ops: seq<Op>, i: nat, j: nat, v: View, rule: RuleId,
                             now: int)
    requires Sound(w) && Run(w, states, ops) && i < j < |states|
    requires ops[i].AppendOp? && LandsWhole(w, states[i], ops[i].rd, ops[i].env)
    requires AppendSucceeds(w, states[i], ops[i].rd, ops[i].env)
    requires Spared(w, states, ops, i + 1, j, Placed(w, states[i], ops[i].rd, ops[i].env).shardId)
    requires Answered(v) && v.index == states[j].index && ops[i].rd.collector in v.collectors && rule in v.rules
    requires v.rules[rule].collector.None? || v.rules[rule].collector.value == ops[i].rd.collector
    requires var latest := Latest(v, Pair(ops[i].rd.collector, rule), now);
      latest.Some? && latest.value.id == Placed(w, states[i], ops[i].rd, ops[i].env).id
    ensures var rd, r := ops[i].rd, v.rules[rule];
      && (Pair(rd.collector, rule) in Breaching(v, now)
          <==> r.enabled && Objects(r, rd.queueCount, rd.durationMs, rd.faultCode))
      && forall id :: id in v.index && v.index[id].collector == rd.collector ==>
           v.index[id].ts <= Placed(w, states[i], rd, ops[i].env).ts
  {
    var p := Pair(ops[i].rd.collector, rule);
    var s := Latest(v, p, now).value;
    SubmittedIsShown(w, states, ops, i, j);
    BreachingIff(v, p, now);
    FirstSinceIsNewest(v.index, p.collector, PAGE, v.recent(p.collector), Threshold(now, v.rules[rule].windowSeconds));
    assert RowOfCollector(v.index, p.collector, s.id) && s.row == v.index[s.id];
    forall id | id in v.index && v.index[id].collector == p.collector
      ensures v.index[id].ts <= s.row.ts
    {
      assert RowOfCollector(v.index, p.collector, id);
    }
  }
}
