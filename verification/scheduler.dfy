/** A background task's failure counter, its backoff window and its dead letters. */
module Scheduler {
  import opened Wrappers
  import opened Retry
  import IngestQueue

  type Failures = map<IngestQueue.FailureId, IngestQueue.Failure>

  /** How one tick ended. An error under a cancelled context counts for nothing. */
  datatype Outcome = Succeeded(count: int) | Failed(reason: Text) | Cancelled

  /** A tick, with the times before and after it, the jitter drawn, the id a dead letter would get and
      whether it can be written. */
  datatype Tick = Tick(
    outcome: Outcome, begun: int, now: int, draw: Option<real>, failureId: IngestQueue.FailureId, recordOk: bool)

  /** The fields of a task that its ticks change. */
  datatype Fields = Fields(
    failures: nat, deadLettered: nat, lastError: Text, lastAttempt: int, lastRun: int, lastRunCount: int,
    nextAttempt: int)

  const NEW := Fields(0, 0, NO_TEXT, 0, 0, 0, 0)

  function Delay(p: RetryPolicy, attempt: int, draw: Option<real>): int {
    Jittered(Unjittered(p.baseDelay, p.maxDelay, attempt), draw)
  }

  function AfterTick(f: Fields, p: RetryPolicy, interval: int, t: Tick): Fields {
    var g := f.(lastAttempt := t.begun);
    match t.outcome
    case Cancelled => g
    case Succeeded(count) => Fields(0, f.deadLettered, NO_TEXT, t.begun, t.now, count, t.now + interval)
    case Failed(reason) =>
      if f.failures + 1 >= p.maxAttempts then
        g.(failures := 0, deadLettered := f.deadLettered + 1, lastError := reason, lastRun := t.now)
      else
        g.(failures := f.failures + 1, lastError := reason, lastRun := t.now,
           nextAttempt := t.now + Delay(p, f.failures + 1, t.draw))
  }

  class Task {
    const taskType: Text
    const interval: int
    const policy: RetryPolicy
    var failures: nat
    var deadLettered: nat
    var lastError: Text
    var lastAttempt: int
    var lastRun: int
    var lastRunCount: int
    var nextAttempt: int

    ghost function Now(): Fields
      reads this
    {
      Fields(failures, deadLettered, lastError, lastAttempt, lastRun, lastRunCount, nextAttempt)
    }

    constructor (taskType: Text, interval: int, policy: RetryPolicy)
      ensures this.taskType == taskType && this.interval == interval && this.policy == policy && Now() == NEW
    {
      this.taskType, this.interval, this.policy := taskType, interval, policy;
      failures, deadLettered, lastError := 0, 0, NO_TEXT;
      lastAttempt, lastRun, lastRunCount, nextAttempt := 0, 0, 0, 0;
    }

    method InBackoff(now: int) returns (skip: bool)
      ensures skip <==> failures > 0 && now < nextAttempt
    {
      return failures > 0 && now < nextAttempt;
    }

    method RunOnce(t: Tick, repo: IngestQueue.Repo)
      modifies this, repo`failures
      ensures Now() == AfterTick(old(Now()), policy, interval, t)
      ensures repo.failures == AfterRecord(old(repo.failures), old(Now()), policy, taskType, t)
    {
      lastAttempt := t.begun;
      match t.outcome {
        case Cancelled =>
        case Failed(reason) =>
          failures := failures + 1;
          lastError := reason;
          lastRun := t.now;
          if failures >= policy.maxAttempts {
            RecordDeadLetter(t, reason, repo);
            failures := 0;
            deadLettered := deadLettered + 1;
          } else {
            var delay := NextBackoff(policy, failures, t.draw);
            nextAttempt := t.now + delay;
          }
        case Succeeded(count) =>
          failures := 0;
          lastError := NO_TEXT;
          lastRun := t.now;
          lastRunCount := count;
          nextAttempt := lastRun + interval;
      }
    }

    /** Best effort: whether the record could be written changes nothing else. */
    method RecordDeadLetter(t: Tick, reason: Text, repo: IngestQueue.Repo)
      modifies repo`failures
      ensures repo.failures == Recorded(old(repo.failures), t, DeadLetter(policy, taskType, reason, t.now))
    {
      var _ := repo.Record(t.failureId, DeadLetter(policy, taskType, reason, t.now), t.recordOk);
    }
  }

  function DeadLetter(p: RetryPolicy, taskType: Text, reason: Text, now: int): IngestQueue.Failure {
    IngestQueue.Failure(taskType, None, [], reason, p.maxAttempts, now, false)
  }

  function Recorded(rows: Failures, t: Tick, row: IngestQueue.Failure): Failures {
    if !t.recordOk || t.failureId in rows then rows else rows[t.failureId := row]
  }

  function AfterRecord(rows: Failures, before: Fields, p: RetryPolicy, taskType: Text, t: Tick): Failures {
    if t.outcome.Failed? && before.failures + 1 >= p.maxAttempts
    then Recorded(rows, t, DeadLetter(p, taskType, t.outcome.reason, t.now))
    else rows
  }

  // --- Runs -------------------------------------------------------------------------------------

  function AfterAll(f: Fields, p: RetryPolicy, interval: int, ticks: seq<Tick>): Fields {
    if ticks == [] then f
    else AfterTick(AfterAll(f, p, interval, ticks[..|ticks| - 1]), p, interval, ticks[|ticks| - 1])
  }

  /** A policy without attempts to spare dead-letters every failure. */
  function Limit(p: RetryPolicy): (m: int)
    ensures m >= 1
  {
    if p.maxAttempts < 1 then 1 else p.maxAttempts
  }

  /** The failures since the last success, cancelled ticks left out. */
  function Streak(ticks: seq<Tick>): nat {
    if ticks == [] then 0
    else NextStreak(Streak(ticks[..|ticks| - 1]), ticks[|ticks| - 1].outcome)
  }

  function NextStreak(streak: nat, outcome: Outcome): nat {
    match outcome
    case Succeeded(_) => 0
    case Failed(_) => streak + 1
    case Cancelled => streak
  }

  /** The last tick dead-letters: it fails, and brings the streak to a multiple of the limit. */
  predicate DeadLetters(p: RetryPolicy, ticks: seq<Tick>)
    requires ticks != []
  {
    ticks[|ticks| - 1].outcome.Failed? && Streak(ticks) % Limit(p) == 0
  }

  /** The dead letters due. */
  function Due(p: RetryPolicy, ticks: seq<Tick>): nat {
    if ticks == [] then 0
    else Due(p, ticks[..|ticks| - 1]) + if DeadLetters(p, ticks) then 1 else 0
  }

  /** The ticks whose dead letter is due and can be written, by its identifier. */
  function Written(p: RetryPolicy, ticks: seq<Tick>): seq<IngestQueue.FailureId> {
    if ticks == [] then []
    else
      var last := ticks[|ticks| - 1];
      Written(p, ticks[..|ticks| - 1]) + if DeadLetters(p, ticks) && last.recordOk then [last.failureId] else []
  }

  lemma ModStep(n: nat, m: int)
    requires m >= 1
    ensures (n + 1) % m == if n % m + 1 == m then 0 else n % m + 1
    ensures (n + 1) / m == n / m + if (n + 1) % m == 0 then 1 else 0
  {
    var q, r := n / m, n % m;
    assert n == m * q + r;
    if r + 1 == m {
      assert n + 1 == m * (q + 1);
      DivModIs(n + 1, m, q + 1, 0);
    } else {
      DivModIs(n + 1, m, q, r + 1);
    }
  }

  lemma DivModIs(x: int, m: int, q: int, r: int)
    requires 0 <= r < m && x == m * q + r
    ensures x / m == q && x % m == r
  {
    var k := x / m - q;
    assert m * k == r - x % m;
    if k != 0 {
      MultipleIsFar(m, k);
    }
  }

  lemma MultipleIsFar(m: int, k: int)
    requires m >= 1 && k != 0
    ensures m * k >= m || m * k <= -m
  {
    if k >= 1 {
      ProductAtLeast(m, k);
    } else {
      ProductAtLeast(m, -k);
      assert m * -k == -(m * k);
    }
  }

  lemma {:induction false} ProductAtLeast(m: int, k: int)
    requires m >= 1 && k >= 1
    ensures m * k >= m
    decreases k
  {
    if k > 1 {
      ProductAtLeast(m, k - 1);
      assert m * k == m * (k - 1) + m;
    }
  }

  /** One tick, for a counter below the limit. */
  lemma TickCounts(f: Fields, p: RetryPolicy, interval: int, t: Tick)
    requires f.failures < Limit(p)
    ensures var f', last := AfterTick(f, p, interval, t), f.failures + 1 == Limit(p);
      && f'.failures == (match t.outcome case Succeeded(_) => 0 case Cancelled => f.failures
                                         case Failed(_) => if last then 0 else f.failures + 1)
      && f'.deadLettered == f.deadLettered + (if t.outcome.Failed? && last then 1 else 0)
      && f'.lastAttempt == t.begun
      && (!t.outcome.Succeeded? ==> f'.lastRunCount == f.lastRunCount)
      && (t.outcome.Failed? && last ==> f'.nextAttempt == f.nextAttempt)
  {
  }

  lemma StreakStep(streak: nat, outcome: Outcome, m: int)
    requires m >= 1
    ensures 0 <= streak % m < m
    ensures var r := streak % m;
      NextStreak(streak, outcome) % m == match outcome case Succeeded(_) => 0 case Cancelled => r
                                                       case Failed(_) => if r + 1 == m then 0 else r + 1
  {
    ModStep(streak, m);
  }

  lemma TickFollowsStreak(f: Fields, p: RetryPolicy, interval: int, t: Tick, streak: nat)
    requires f.failures == streak % Limit(p)
    ensures var f', streak' := AfterTick(f, p, interval, t), NextStreak(streak, t.outcome);
      && f'.failures == streak' % Limit(p)
      && f'.deadLettered == f.deadLettered + if t.outcome.Failed? && streak' % Limit(p) == 0 then 1 else 0
  {
    TickCounts(f, p, interval, t);
    StreakStep(streak, t.outcome, Limit(p));
  }

  /** After any ticks of a new task the counter is the streak modulo the limit, and every due dead
      letter, and no other, has been attempted. */
  lemma {:induction false} CounterFollowsStreak(p: RetryPolicy, interval: int, ticks: seq<Tick>)
    ensures var f := AfterAll(NEW, p, interval, ticks);
      f.failures == Streak(ticks) % Limit(p) && f.deadLettered == Due(p, ticks)
  {
    if ticks != [] {
      var earlier := ticks[..|ticks| - 1];
      CounterFollowsStreak(p, interval, earlier);
      TickFollowsStreak(AfterAll(NEW, p, interval, earlier), p, interval, ticks[|ticks| - 1], Streak(earlier));
    }
  }

  function RowsAfter(rows: Failures, p: RetryPolicy, interval: int, taskType: Text, ticks: seq<Tick>): Failures {
    if ticks == [] then rows
    else
      var earlier := ticks[..|ticks| - 1];
      AfterRecord(RowsAfter(rows, p, interval, taskType, earlier), AfterAll(NEW, p, interval, earlier), p, taskType,
                  ticks[|ticks| - 1])
  }

  ghost predicate FreshIds(rows: Failures, ticks: seq<Tick>) {
    && (forall i :: 0 <= i < |ticks| ==> ticks[i].failureId !in rows)
    && forall i, j :: 0 <= i < j < |ticks| ==> ticks[i].failureId != ticks[j].failureId
  }

  /** The record of a failed tick: what failed and why, after how many attempts and when, for nobody's item and
      with nothing to replay, and not yet dealt with. */
  ghost predicate TellsOf(row: IngestQueue.Failure, p: RetryPolicy, taskType: Text, t: Tick) {
    && t.outcome.Failed? && row.taskType == taskType && row.lastError == t.outcome.reason
    && row.attempts == p.maxAttempts && row.failedAt == t.now && row.target.None? && row.payload == []
    && !row.resolved
  }

  /** Tick i brought a dead letter due, and this row is it. */
  ghost predicate LetterOf(p: RetryPolicy, taskType: Text, ticks: seq<Tick>, i: int, id: IngestQueue.FailureId,
                           row: IngestQueue.Failure) {
    && 0 <= i < |ticks| && ticks[i].failureId == id && ticks[i].recordOk && DeadLetters(p, ticks[..i + 1])
    && TellsOf(row, p, taskType, ticks[i])
  }

  ghost predicate HasLetter(p: RetryPolicy, taskType: Text, ticks: seq<Tick>, id: IngestQueue.FailureId,
                            row: IngestQueue.Failure) {
    exists i :: LetterOf(p, taskType, ticks, i, id, row)
  }

  /** With identifiers not in use, the rows added to the dead-letter table are exactly the dead letters due
      that could be written, each telling of the failed tick that brought it due. */
  lemma {:induction false} DeadLettersAreRows(rows: Failures, p: RetryPolicy, interval: int, taskType: Text,
                                              ticks: seq<Tick>)
    requires FreshIds(rows, ticks)
    ensures var after, written := RowsAfter(rows, p, interval, taskType, ticks), Written(p, ticks);
      && (forall id :: id in after <==> id in rows || id in written) && |after| == |rows| + |written|
      && (forall id :: id in rows ==> id in after && after[id] == rows[id])
      && (forall id :: id in written ==> id in after && HasLetter(p, taskType, ticks, id, after[id]))
  {
    if ticks != [] {
      var n := |ticks| - 1;
      var earlier, last := ticks[..n], ticks[n];
      DeadLettersAreRows(rows, p, interval, taskType, earlier);
      CounterFollowsStreak(p, interval, earlier);
      TickFollowsStreak(AfterAll(NEW, p, interval, earlier), p, interval, last, Streak(earlier));
      var before := RowsAfter(rows, p, interval, taskType, earlier);
      var after := RowsAfter(rows, p, interval, taskType, ticks);
      LastIsNew(rows, p, taskType, ticks, before);
      forall id | id in Written(p, ticks)
        ensures id in after && HasLetter(p, taskType, ticks, id, after[id])
      {
        if id in Written(p, earlier) {
          LettersStay(p, taskType, ticks, id, before[id]);
        } else {
          assert ticks[..n + 1] == ticks;
          assert LetterOf(p, taskType, ticks, n, id, after[id]);
        }
      }
    }
  }

  lemma LettersStay(p: RetryPolicy, taskType: Text, ticks: seq<Tick>, id: IngestQueue.FailureId,
                    row: IngestQueue.Failure)
    requires ticks != [] && HasLetter(p, taskType, ticks[..|ticks| - 1], id, row)
    ensures HasLetter(p, taskType, ticks, id, row)
  {
    var earlier := ticks[..|ticks| - 1];
    var i :| LetterOf(p, taskType, earlier, i, id, row);
    assert earlier[..i + 1] == ticks[..i + 1];
    assert LetterOf(p, taskType, ticks, i, id, row);
  }

  lemma LastIsNew(rows: Failures, p: RetryPolicy, taskType: Text, ticks: seq<Tick>, before: Failures)
    requires ticks != [] && FreshIds(rows, ticks)
    requires var earlier := ticks[..|ticks| - 1];
      && (forall id :: id in before ==> id in rows || id in Written(p, earlier))
      && (forall id :: id in Written(p, earlier) ==> id in before && HasLetter(p, taskType, earlier, id, before[id]))
    ensures ticks[|ticks| - 1].failureId !in before
  {
    var earlier := ticks[..|ticks| - 1];
    forall id | id in Written(p, earlier)
      ensures id != ticks[|ticks| - 1].failureId
    {
      var i :| LetterOf(p, taskType, earlier, i, id, before[id]);
      assert ticks[i].failureId == id;
    }
  }

  ghost predicate FailsThroughout(ticks: seq<Tick>) {
    forall i :: 0 <= i < |ticks| ==> ticks[i].outcome.Failed?
  }

  lemma {:induction false} FailuresOnly(p: RetryPolicy, ticks: seq<Tick>)
    requires FailsThroughout(ticks)
    ensures Streak(ticks) == |ticks| && Due(p, ticks) == |ticks| / Limit(p)
  {
    if ticks != [] {
      FailuresOnly(p, ticks[..|ticks| - 1]);
      ModStep(|ticks| - 1, Limit(p));
    }
  }

  /** k failures in a row leave k mod MaxAttempts on the counter and k div MaxAttempts dead letters. */
  lemma FailuresInARow(p: RetryPolicy, interval: int, ticks: seq<Tick>)
    requires FailsThroughout(ticks)
    ensures var f := AfterAll(NEW, p, interval, ticks);
      f.failures == |ticks| % Limit(p) && f.deadLettered == |ticks| / Limit(p)
  {
    CounterFollowsStreak(p, interval, ticks);
    FailuresOnly(p, ticks);
  }

  function Counted(ticks: seq<Tick>): seq<Tick> {
    if ticks == [] then []
    else
      var earlier, last := Counted(ticks[..|ticks| - 1]), ticks[|ticks| - 1];
      if last.outcome.Cancelled? then earlier else earlier + [last]
  }

  /** The fields but for when the last attempt began. */
  function Lasting(f: Fields): Fields {
    f.(lastAttempt := 0)
  }

  lemma TickLasts(f: Fields, g: Fields, p: RetryPolicy, interval: int, t: Tick)
    requires Lasting(f) == Lasting(g)
    ensures Lasting(AfterTick(f, p, interval, t)) == Lasting(AfterTick(g, p, interval, t))
    ensures t.outcome.Cancelled? ==> Lasting(AfterTick(f, p, interval, t)) == Lasting(g)
    ensures AfterTick(f, p, interval, t).lastAttempt == t.begun
  {
  }

  /** Cancelled ticks change nothing but when the last attempt began, and can otherwise be left out of any
      run. */
  lemma {:induction false} CancelledTicksDoNothing(f: Fields, p: RetryPolicy, interval: int, ticks: seq<Tick>)
    ensures Lasting(AfterAll(f, p, interval, Counted(ticks))) == Lasting(AfterAll(f, p, interval, ticks))
    ensures AfterAll(f, p, interval, ticks).lastAttempt
         == if ticks == [] then f.lastAttempt else ticks[|ticks| - 1].begun
  {
    if ticks != [] {
      var earlier, last := ticks[..|ticks| - 1], ticks[|ticks| - 1];
      CancelledTicksDoNothing(f, p, interval, earlier);
      TickLasts(AfterAll(f, p, interval, earlier), AfterAll(f, p, interval, Counted(earlier)), p, interval, last);
      if !last.outcome.Cancelled? {
        assert (Counted(earlier) + [last])[..|Counted(earlier)|] == Counted(earlier);
      }
    }
  }

  /** After any ticks of a new task its fields show the last tick that was not cancelled: when it ended, and
      either the count it returned, no error and the regular interval to the next, or its error. */
  lemma {:induction false} FieldsShowLastTick(p: RetryPolicy, interval: int, ticks: seq<Tick>)
    ensures var f, counted := AfterAll(NEW, p, interval, ticks), Counted(ticks);
      if counted == [] then f.failures == f.lastRun == f.lastRunCount == f.nextAttempt == 0 && f.lastError == Text("")
      else
        var last := counted[|counted| - 1];
        && f.lastRun == last.now
        && match last.outcome
           case Succeeded(count) =>
             && f.failures == 0 && f.lastError == Text("") && f.lastRunCount == count
             && f.nextAttempt == last.now + interval
           case Failed(reason) => f.lastError == reason
           case Cancelled => false
  {
    if ticks != [] {
      FieldsShowLastTick(p, interval, ticks[..|ticks| - 1]);
    }
  }

  // --- The window -------------------------------------------------------------------------------

  /** The last tick that failed. */
  function LastFailed(ticks: seq<Tick>): Option<Tick> {
    if ticks == [] then None
    else if ticks[|ticks| - 1].outcome.Failed? then Some(ticks[|ticks| - 1])
    else LastFailed(ticks[..|ticks| - 1])
  }

  /** The task is between retries, its next attempt as far from this failure as its counter asks. */
  ghost predicate Waits(f: Fields, p: RetryPolicy, failed: Tick) {
    && f.lastRun == failed.now
    && f.nextAttempt == failed.now + Jittered(Unjittered(p.baseDelay, p.maxDelay, f.failures), failed.draw)
  }

  /** Whenever a tick can be skipped, the wait is the one its failure count asks for, from the last failure
      and with the jitter drawn there: a dead letter or a success opens the gate at once. */
  lemma {:induction false} BackoffFitsCounter(p: RetryPolicy, interval: int, ticks: seq<Tick>)
    ensures var f := AfterAll(NEW, p, interval, ticks);
      && f.failures < Limit(p)
      && (f.failures > 0 ==> LastFailed(ticks).Some? && Waits(f, p, LastFailed(ticks).value))
  {
    if ticks != [] {
      BackoffFitsCounter(p, interval, ticks[..|ticks| - 1]);
    }
  }
}
