/** The batch runner over live tables: steps are objects whose two operations share captured state,
    and a failing batch calls the completed steps' compensations in reverse. */
module SagaRunner {
  import opened Wrappers
  import opened Rules
  import opened Saga

  /** The rules and collectors repositories, as far as batches use them. */
  class Database {
    var rules: map<RuleId, Rule>
    var collectors: map<CollectorId, Collector>

    ghost function State(): Tables
      reads this
    {
      Tables(rules, collectors)
    }

    constructor (rules: map<RuleId, Rule>, collectors: map<CollectorId, Collector>)
      ensures this.rules == rules && this.collectors == collectors
    {
      this.rules, this.collectors := rules, collectors;
    }

    /** UPDATE rules SET ... WHERE id = ? AND version = ?; the caller's copy moves on with the row. */
    method UpdateRule(id: RuleId, r: Rule, now: int, fault: bool) returns (ok: bool, moved: Rule)
      modifies this`rules
      ensures ok <==> !fault && id in old(rules) && old(rules)[id].version == r.version
      ensures rules == if ok then old(rules)[id := RuleRow(old(rules)[id], r, now)] else old(rules)
      ensures ok ==> rules[id].(version := r.version, createdAt := r.createdAt, updatedAt := r.updatedAt) == r
      ensures ok ==> rules[id].version == r.version + 1 && rules[id].updatedAt == now
      ensures ok ==> rules[id].createdAt == old(rules)[id].createdAt
      ensures moved == if ok then r.(version := r.version + 1, updatedAt := now) else r.(updatedAt := now)
    {
      moved := r.(updatedAt := now);
      if fault || id !in rules || rules[id].version != r.version {
        return false, moved;
      }
      rules := rules[id := RuleRow(rules[id], r, now)];
      return true, moved.(version := r.version + 1);
    }

    /** UPDATE collectors SET status = ? ... WHERE id = ? AND version = ?, and then the new row is read back:
        a late error is met there, after the write. */
    method SetStatus(id: CollectorId, status: Status, version: int, now: int, fault: Fault) returns (ok: bool)
      modifies this`collectors
      ensures var lands := !fault.Early? && id in old(collectors) && old(collectors)[id].version == version;
        && (ok <==> lands && fault.Clear?)
        && (!lands ==> collectors == old(collectors))
        && (lands ==> collectors == old(collectors)[id := old(collectors)[id].(status := status, version := version + 1,
                                                                               updatedAt := now)])
    {
      if fault.Early? || id !in collectors || collectors[id].version != version {
        return false;
      }
      collectors := collectors[id := StatusRow(collectors[id], status, now)];
      return fault.Clear?;
    }
  }

  class Step {
    const action: Action
    var status: Option<Status>
    var rule: Option<Rule>

    ghost function Cap(): Captured
      reads this
    {
      Captured(status, rule)
    }

    constructor (action: Action)
      ensures this.action == action && Cap() == NOTHING
    {
      this.action := action;
      status, rule := None, None;
    }

    /** The forward operation. */
    method Do(db: Database, fault: Fault, now: int) returns (ok: bool)
      requires Cap() == NOTHING
      modifies this, db
      ensures ok <==> !Fails(old(db.State()), action, fault)
      ensures ok ==> (db.State(), Cap()) == Saga.Do(old(db.State()), action, now)
      ensures !ok ==> db.State() == Failed(old(db.State()), action, fault, now)
    {
      match action {
        case Disable(id) =>
          if id !in db.collectors || fault.Early? {
            return false;
          }
          var c := db.collectors[id];
          if !c.status.Active? {
            return true;
          }
          status := Some(c.status);
          ok := db.SetStatus(id, Disabled, c.version, now, fault);
        case Tune(id, update) =>
          if id !in db.rules {
            return false;
          }
          var r := db.rules[id];
          rule := Some(r);
          if fault.Early? {
            return false;
          }
          var moved;
          ok, moved := db.UpdateRule(id, ApplyUpdate(r, update), now, false);
      }
    }

    /** The compensation. A vanished object is left alone. */
    method Compensate(db: Database, now: int, trouble: Trouble) returns (ok: bool)
      modifies this, db
      ensures (db.State(), Cap(), ok) == UndoUnder(old(db.State()), action, old(Cap()), now, trouble)
    {
      match action {
        case Disable(id) =>
          if trouble.NoRead? || id !in db.collectors || db.collectors[id].status.Active? {
            return true;
          }
          var target := if status.Some? then status.value else Active;
          var fault := if trouble.NoWrite? then Early else if trouble.Unconfirmed? then Late else Clear;
          ok := db.SetStatus(id, target, db.collectors[id].version, now, fault);
        case Tune(id, _) =>
          if rule.None? || trouble.NoRead? || id !in db.rules {
            return true;
          }
          var prev := rule.value.(version := db.rules[id].version);
          ok, prev := db.UpdateRule(id, prev, now, trouble.NoWrite?);
          rule := Some(prev);
      }
    }
  }

  // --- The runner -----------------------------------------------------------------------------

  ghost function Actions(steps: seq<Step>): (r: seq<Action>)
    ensures |r| == |steps| && forall i :: 0 <= i < |steps| ==> r[i] == steps[i].action
  {
    seq(|steps|, i requires 0 <= i < |steps| => steps[i].action)
  }

  ghost predicate Distinct(steps: seq<Step>) {
    forall i, j :: 0 <= i < j < |steps| ==> steps[i] != steps[j]
  }

  ghost predicate CapsAre(steps: seq<Step>, caps: seq<Captured>)
    requires |caps| <= |steps|
    reads steps
  {
    forall i :: 0 <= i < |caps| ==> steps[i].Cap() == caps[i]
  }

  ghost predicate NotRun(steps: seq<Step>, n: nat)
    reads steps
  {
    forall j :: n <= j < |steps| ==> steps[j].Cap() == NOTHING
  }

  /** b is what the first n steps make of the starting tables. */
  ghost predicate Got(start: Tables, actions: seq<Action>, now: int, n: nat, b: Ahead) {
    n <= |actions| && AllExist(start, actions[..n]) && b == Forward(start, actions, now, n)
  }

  /** The tables and the steps are as b says after n steps, and the remaining steps have not run. */
  ghost predicate At(db: Database, steps: seq<Step>, b: Ahead, n: nat)
    reads db, steps
  {
    db.State() == b.db && |b.caps| == n <= |steps| && CapsAre(steps, b.caps) && NotRun(steps, n)
  }

  /** The forward operation of step n, which leaves what the other steps hold as it was. */
  method DoNext(db: Database, steps: seq<Step>, n: nat, faults: nat -> Fault, now: int, ghost start: Tables,
                ghost b: Ahead)
    returns (ok: bool, ghost next: Ahead)
    requires Distinct(steps) && n < |steps| && Got(start, Actions(steps), now, n, b) && At(db, steps, b, n)
    modifies db, steps[n]
    ensures ok <==> !Stops(start, Actions(steps), faults, n)
    ensures ok ==> Got(start, Actions(steps), now, n + 1, next) && At(db, steps, next, n + 1)
    ensures !ok ==> db.State() == Stopped(b, Actions(steps), faults, now, n) && CapsAre(steps, b.caps)
  {
    StopsWhenReached(start, Actions(steps), faults, now, n);
    ok := steps[n].Do(db, faults(n), now);
    forall j | 0 <= j < |steps| && j != n
      ensures steps[j].Cap() == old(steps[j].Cap())
    {
      assert steps[j] != steps[n];
    }
    next := b;
    if ok {
      next := ForwardNext(start, Actions(steps), now, n, b);
    }
  }

  lemma OutcomeIs(start: Tables, actions: seq<Action>, faults: nat -> Fault, trouble: nat -> Trouble, now: int, n: nat,
                  b: Ahead)
    requires Got(start, actions, now, n, b) && n == FirstFailure(start, actions, faults, 0)
    ensures |b.caps| == n
    ensures OutcomeUnder(start, actions, faults, trouble, now)
         == if n == |actions| then (b, true)
            else BackwardUnder(Stopped(b, actions, faults, now, n), actions, b.caps, now, n, trouble)
  {
  }

  /** The way back from the step at which the batch stopped. */
  method TakeBack(db: Database, steps: seq<Step>, n: nat, faults: nat -> Fault, trouble: nat -> Trouble, now: int,
                  ghost start: Tables, ghost b: Ahead)
    returns (clean: bool)
    requires Distinct(steps) && n < |steps| && Got(start, Actions(steps), now, n, b)
    requires n == FirstFailure(start, Actions(steps), faults, 0)
    requires db.State() == Stopped(b, Actions(steps), faults, now, n) && CapsAre(steps, b.caps)
    modifies db, steps
    ensures var (r, tidy) := OutcomeUnder(start, Actions(steps), faults, trouble, now);
      db.State() == r.db && |r.caps| == n && CapsAre(steps, r.caps) && clean == tidy
  {
    OutcomeIs(start, Actions(steps), faults, trouble, now, n, b);
    clean := Compensate(db, steps, n, now, b.caps, trouble);
  }

  /** Runs the steps in order up to the first failure. */
  method RunForward(db: Database, steps: seq<Step>, faults: nat -> Fault, now: int)
    returns (completed: nat, ghost b: Ahead)
    requires Distinct(steps) && NotRun(steps, 0)
    modifies db, steps
    ensures completed == FirstFailure(old(db.State()), Actions(steps), faults, 0)
    ensures Got(old(db.State()), Actions(steps), now, completed, b) && |b.caps| == completed && CapsAre(steps, b.caps)
    ensures db.State() == if completed == |steps| then b.db else Stopped(b, Actions(steps), faults, now, completed)
  {
    ghost var start, actions := db.State(), Actions(steps);
    b := Ahead(start, []);
    completed := 0;
    while completed < |steps|
      invariant completed <= FirstFailure(start, actions, faults, 0)
      invariant Got(start, actions, now, completed, b) && At(db, steps, b, completed)
    {
      var done;
      ghost var next;
      done, next := DoNext(db, steps, completed, faults, now, start, b);
      if !done {
        return;
      }
      b := next;
      completed := completed + 1;
    }
  }

  /** At the first failure the completed steps are compensated in reverse. */
  method RunBatch(db: Database, steps: seq<Step>, faults: nat -> Fault, trouble: nat -> Trouble, now: int)
    returns (completed: nat, ok: bool, clean: bool)
    requires Distinct(steps) && NotRun(steps, 0)
    modifies db, steps
    ensures completed == FirstFailure(old(db.State()), Actions(steps), faults, 0)
    ensures ok <==> completed == |steps|
    ensures var (r, tidy) := OutcomeUnder(old(db.State()), Actions(steps), faults, trouble, now);
      db.State() == r.db && |r.caps| == completed && CapsAre(steps, r.caps) && clean == tidy
  {
    ghost var start := db.State();
    ghost var b;
    completed, b := RunForward(db, steps, faults, now);
    if completed < |steps| {
      clean := TakeBack(db, steps, completed, faults, trouble, now, start, b);
      return completed, false, clean;
    }
    OutcomeIs(start, Actions(steps), faults, trouble, now, completed, b);
    return completed, true, true;
  }

  lemma ForwardNext(start: Tables, actions: seq<Action>, now: int, i: nat, b: Ahead) returns (next: Ahead)
    requires Got(start, actions, now, i, b) && i < |actions| && Exists(start, actions[i])
    ensures Got(start, actions, now, i + 1, next)
    ensures Exists(b.db, actions[i])
    ensures var (db', cap) := Saga.Do(b.db, actions[i], now); next == Ahead(db', b.caps + [cap])
  {
    assert forall j :: 0 <= j < i + 1 ==> actions[..i + 1][j] == if j < i then actions[..i][j] else actions[i];
    LastStep(start, actions, now, i + 1);
    next := Forward(start, actions, now, i + 1);
  }

  /** With n compensations to go and that verdict so far, the pass will end as r and `tidy` say. */
  ghost predicate ToGo(t: Tables, actions: seq<Action>, caps: seq<Captured>, now: int, n: nat, trouble: nat -> Trouble,
                       clean: bool, r: Ahead, tidy: bool)
  {
    && n <= |actions| && n <= |caps|
    && var (last, rest) := BackwardUnder(t, actions, caps, now, n, trouble);
       last == r && tidy == (clean && rest)
  }

  /** The compensation of step n, which leaves what the other steps hold as it was. */
  method UndoNext(db: Database, steps: seq<Step>, n: nat, ghost caps: seq<Captured>, now: int, trouble: nat -> Trouble,
                  clean: bool, ghost r: Ahead, ghost tidy: bool)
    returns (still: bool, ghost rest: seq<Captured>)
    requires Distinct(steps) && n < |caps| <= |steps| && CapsAre(steps, caps)
    requires ToGo(db.State(), Actions(steps), caps, now, n + 1, trouble, clean, r, tidy)
    modifies db, steps[n]
    ensures |rest| == |caps| && CapsAre(steps, rest)
    ensures ToGo(db.State(), Actions(steps), rest, now, n, trouble, still, r, tidy)
  {
    rest := caps[n := UndoUnder(db.State(), steps[n].action, caps[n], now, trouble(n)).1];
    var ok := steps[n].Compensate(db, now, trouble(n));
    still := clean && ok;
    forall j | 0 <= j < |steps| && j != n
      ensures steps[j].Cap() == old(steps[j].Cap())
    {
      assert steps[j] != steps[n];
    }
  }

  /** The compensations of the first n steps, the completed ones, last one first. All of them run, and
      `clean` tells whether none reported an error. */
  method Compensate(db: Database, steps: seq<Step>, n: nat, now: int, ghost done: seq<Captured>,
                    trouble: nat -> Trouble)
    returns (clean: bool)
    requires Distinct(steps) && |done| == n <= |steps| && CapsAre(steps, done)
    modifies db, steps
    ensures var (r, tidy) := BackwardUnder(old(db.State()), Actions(steps), done, now, n, trouble);
      db.State() == r.db && CapsAre(steps, r.caps) && clean == tidy
  {
    ghost var caps := done;
    ghost var (r, tidy) := BackwardUnder(db.State(), Actions(steps), caps, now, n, trouble);
    var i := n;
    clean := true;
    while i > 0
      invariant 0 <= i <= n == |caps| && CapsAre(steps, caps)
      invariant ToGo(db.State(), Actions(steps), caps, now, i, trouble, clean, r, tidy)
    {
      i := i - 1;
      clean, caps := UndoNext(db, steps, i, caps, now, trouble, clean, r, tidy);
    }
  }
}
