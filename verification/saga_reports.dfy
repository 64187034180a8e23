/** What a failed batch says about its compensations: exactly when it reports that one of them failed. */
module SagaReports {
  import opened Wrappers
  import opened Rules
  import opened Saga
  import opened SagaTheorems
  import opened SagaTrouble

  /** The compensation of step i reports an error to a pass that starts on these tables after n steps: its write,
      or the read after it, fails, and its collector is still disabled, for no later step on it was undone. */
  ghost predicate Complains(from: Tables, actions: seq<Action>, trouble: nat -> Trouble, n: nat, i: nat)
    requires i < n <= |actions| && actions[i].Disable?
  {
    && (trouble(i).NoWrite? || trouble(i).Unconfirmed?)
    && actions[i].collector in from.collectors && from.collectors[actions[i].collector].status.Disabled?
    && forall j: nat :: i < j < n && actions[j] == actions[i] ==> trouble(j).NoRead? || trouble(j).NoWrite?
  }

  lemma ComplainsStep(from: Tables, actions: seq<Action>, caps: seq<Captured>, now: int, n: nat,
                      trouble: nat -> Trouble, i: nat)
    requires i + 1 < n <= |actions| && n <= |caps| && AllDisable(actions) && CapsActivate(caps)
    ensures var db' := UndoUnder(from, actions[n - 1], caps[n - 1], now, trouble(n - 1)).0;
      Complains(from, actions, trouble, n, i) <==> Complains(db', actions, trouble, n - 1, i)
  {
  }

  lemma {:induction false} DisablePassReports(from: Tables, actions: seq<Action>, caps: seq<Captured>, now: int, n: nat,
                                              trouble: nat -> Trouble)
    requires n <= |actions| && n <= |caps| && AllDisable(actions) && CapsActivate(caps)
    ensures BackwardUnder(from, actions, caps, now, n, trouble).1
       <==> forall i: nat :: i < n ==> !Complains(from, actions, trouble, n, i)
    decreases n
  {
    if n > 0 {
      var m := n - 1;
      var (db', cap, ok) := UndoUnder(from, actions[m], caps[m], now, trouble(m));
      DisablePassReports(db', actions, caps[m := cap], now, m, trouble);
      assert ok <==> !Complains(from, actions, trouble, n, m);
      forall i: nat | i < m
        ensures Complains(from, actions, trouble, n, i) <==> Complains(db', actions, trouble, m, i)
      {
        ComplainsStep(from, actions, caps, now, n, trouble, i);
      }
    }
  }

  /** The write of step i's compensation, or the read after it, fails, and no later step on the same collector has
      been undone by then. */
  ghost predicate Loud(actions: seq<Action>, trouble: nat -> Trouble, n: nat, i: nat)
    requires i < n <= |actions|
  {
    && (trouble(i).NoWrite? || trouble(i).Unconfirmed?)
    && forall j: nat :: i < j < n && actions[j] == actions[i] ==> trouble(j).NoRead? || trouble(j).NoWrite?
  }

  /** A failed batch of disables reports a failed compensation exactly when there is such a step. */
  lemma FailedDisableReports(db: Tables, actions: seq<Action>, faults: nat -> Fault, trouble: nat -> Trouble, now: int)
    requires AllDisable(actions) && FirstFailure(db, actions, faults, 0) < |actions|
    ensures var n := FirstFailure(db, actions, faults, 0);
      OutcomeUnder(db, actions, faults, trouble, now).1
      <==> forall i: nat :: i < n ==> !Loud(actions, trouble, n, i)
  {
    var n := FirstFailure(db, actions, faults, 0);
    var b := Forward(db, actions, now, n);
    var from := Stopped(b, actions, faults, now, n);
    forall i: nat | i < n
      ensures Complains(from, actions, trouble, n, i) <==> Loud(actions, trouble, n, i)
    {
      StoppedDisables(db, actions, faults, now, actions[i].collector);
      assert Named(actions, n, actions[i].collector);
    }
    FailedCapsActivate(db, actions, faults, now);
    DisablePassReports(from, actions, b.caps, now, n, trouble);
  }

  lemma FailedCapsActivate(db: Tables, actions: seq<Action>, faults: nat -> Fault, now: int)
    requires AllDisable(actions) && FirstFailure(db, actions, faults, 0) < |actions|
    ensures CapsActivate(Forward(db, actions, now, FirstFailure(db, actions, faults, 0)).caps)
  {
    if FirstFailure(db, actions, faults, 0) > 0 {
      StoppedDisables(db, actions, faults, now, actions[0].collector);
    }
  }

  ghost predicate AllCaught(caps: seq<Captured>, n: nat)
    requires n <= |caps|
  {
    forall i :: 0 <= i < n ==> caps[i].rule.Some?
  }

  lemma {:induction false} TunePassReports(from: Tables, actions: seq<Action>, caps: seq<Captured>, now: int, n: nat,
                                           trouble: nat -> Trouble)
    requires n <= |actions| && n <= |caps| && AllTune(actions) && AllCaught(caps, n)
    requires forall i :: 0 <= i < n ==> actions[i].rule in from.rules
    ensures BackwardUnder(from, actions, caps, now, n, trouble).1 <==> forall i: nat :: i < n ==> !trouble(i).NoWrite?
    decreases n
  {
    if n > 0 {
      var m := n - 1;
      var (db', cap, ok) := UndoUnder(from, actions[m], caps[m], now, trouble(m));
      assert db'.rules.Keys == from.rules.Keys;
      TunePassReports(db', actions, caps[m := cap], now, m, trouble);
    }
  }

  /** A failed batch of rule updates reports a failed compensation exactly when the write of one failed. */
  lemma FailedTuneReports(db: Tables, actions: seq<Action>, faults: nat -> Fault, trouble: nat -> Trouble, now: int)
    requires AllTune(actions) && FirstFailure(db, actions, faults, 0) < |actions|
    ensures OutcomeUnder(db, actions, faults, trouble, now).1
       <==> forall i: nat :: i < FirstFailure(db, actions, faults, 0) ==> !trouble(i).NoWrite?
  {
    var n := FirstFailure(db, actions, faults, 0);
    var b := Forward(db, actions, now, n);
    ForwardCaptures(db, actions, now, n);
    assert AllCaught(b.caps, n);
    TunePassReports(Stopped(b, actions, faults, now, n), actions, b.caps, now, n, trouble);
  }
}
