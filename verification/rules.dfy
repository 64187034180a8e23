/** Rules and what it takes for a reading to breach one. Floating-point values are reals here. */
module Rules {
  import opened Wrappers
  import opened ReadingState

  type RuleId = Text

  datatype Metric = QueueCount | DurationMs | FaultCode | OtherMetric(name: Text)

  datatype Rule = Rule(
    collector: Option<Text>, metric: Metric, windowSeconds: int, minValue: Option<real>, maxValue: Option<real>,
    faultTrigger: Text, severity: Text, enabled: bool, version: int, createdAt: int, updatedAt: int)

  /** What is put into words in the alert's message. */
  datatype Breach = Above(metric: Metric, value: int, limit: real) | Below(metric: Metric, value: int, limit: real)
    | Fault(code: Text)

  /** A rule without a collector is global. */
  predicate AppliesTo(r: Rule, collector: Text) {
    r.collector.None? || r.collector.value == collector
  }

  function OutOfRange(r: Rule, value: int): Option<Breach> {
    if r.maxValue.Some? && value as real > r.maxValue.value then Some(Above(r.metric, value, r.maxValue.value))
    else if r.minValue.Some? && (value as real) < r.minValue.value then Some(Below(r.metric, value, r.minValue.value))
    else None
  }

  function Evaluate(r: Rule, row: IndexRow): Option<Breach> {
    if !r.enabled then None
    else
      match r.metric
      case QueueCount => OutOfRange(r, row.queueCount)
      case DurationMs => OutOfRange(r, row.durationMs)
      case FaultCode =>
        if r.faultTrigger != NO_TEXT && row.faultCode == r.faultTrigger then Some(Fault(row.faultCode)) else None
      case OtherMetric(_) => None
  }

  /** The agreed range of a rule: between its limits, where it has any. */
  predicate Within(r: Rule, value: int) {
    (r.minValue.Some? ==> r.minValue.value <= value as real) && (r.maxValue.Some? ==> value as real <= r.maxValue.value)
  }

  /** The reading is as agreed: its guarded value is within the range, or its fault is another one. */
  predicate Agreed(r: Rule, row: IndexRow) {
    match r.metric
    case QueueCount => Within(r, row.queueCount)
    case DurationMs => Within(r, row.durationMs)
    case FaultCode => r.faultTrigger == NO_TEXT || row.faultCode != r.faultTrigger
    case OtherMetric(_) => true
  }

  lemma BreachIffNotAgreed(r: Rule, row: IndexRow)
    ensures Evaluate(r, row).Some? <==> r.enabled && !Agreed(r, row)
  {
    if r.enabled && !r.metric.FaultCode? && !r.metric.OtherMetric? {
      var value := if r.metric.QueueCount? then row.queueCount else row.durationMs;
      assert Within(r, value) <==> OutOfRange(r, value).None?;
    }
  }

  /** The value a rule of this metric guards. */
  predicate Guards(metric: Metric, row: IndexRow, value: int) {
    (metric.QueueCount? && value == row.queueCount) || (metric.DurationMs? && value == row.durationMs)
  }

  /** What a breach says of the row and the rule: the maximum comes first where both limits are passed. */
  predicate Tells(r: Rule, row: IndexRow, b: Breach) {
    && r.enabled
    && match b
       case Above(metric, value, limit) =>
         metric == r.metric && Guards(metric, row, value) && r.maxValue == Some(limit) && limit < value as real
       case Below(metric, value, limit) =>
         && metric == r.metric && Guards(metric, row, value) && r.minValue == Some(limit) && value as real < limit
         && (r.maxValue.Some? ==> value as real <= r.maxValue.value)
       case Fault(code) => r.metric.FaultCode? && code == row.faultCode == r.faultTrigger && code != NO_TEXT
  }

  lemma BreachIff(r: Rule, row: IndexRow, b: Breach)
    ensures Evaluate(r, row) == Some(b) <==> Tells(r, row, b)
  {
    if r.enabled && (r.metric.QueueCount? || r.metric.DurationMs?) {
      var value := if r.metric.QueueCount? then row.queueCount else row.durationMs;
      OutOfRangeTells(r, row, value, b);
    }
  }

  lemma OutOfRangeTells(r: Rule, row: IndexRow, value: int, b: Breach)
    requires r.enabled && Guards(r.metric, row, value) && (r.metric.QueueCount? || r.metric.DurationMs?)
    ensures OutOfRange(r, value) == Some(b) <==> Tells(r, row, b)
  {
  }
}
