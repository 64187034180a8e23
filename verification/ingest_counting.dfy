/** Where every indexed reading comes from, as long as nothing is left behind unindexed. */
module IngestCounting {
  import opened ReadingState
  import opened ReadingAgreement
  import opened ReadingTheorems
  import opened ReadingRuns
  import opened IngestProtocol
  import opened IngestSafety

  /** Nothing unindexed is left behind, and no shard with lines is skipped. */
  ghost predicate CleanAction(o: Outside, s: System, a: Action) {
    match a
    case AppendA(g, env) =>
      AtWork(s, g) && (ReadingFor(o, s, g).Some? ==> CleanAppend(o.w, s.store, ReadingFor(o, s, g).value, env))
    case DieA(g, _, _) => AtWork(s, g) && !LeavesLine(o, s, a, g)
    case StoreA(op, _) => Clean(o.w, s.store, op)
    case _ => true
  }

  ghost predicate CleanRun(o: Outside, states: seq<System>, actions: seq<Action>) {
    IngestSafety.Run(o, states, actions) && forall i :: 0 <= i < |actions| ==> CleanAction(o, states[i], actions[i])
  }

  /** An append to the store by someone other than a worker, and successful. */
  ghost predicate OtherAppend(o: Outside, s: System, a: Action) {
    a.StoreA? && a.op.AppendOp? && AppendSucceeds(o.w, s.store, a.op.rd, a.op.env)
  }

  ghost predicate AnyLine(o: Outside, s: System, a: Action) {
    (a.AppendA? || a.DieA?) && LeavesLine(o, s, a, a.grant)
  }

  lemma CleanStepAgrees(o: Outside, s: System, a: Action)
    requires Sound(o.w) && Agree(o.w, s.store) && Enabled(o, s, a) && CleanAction(o, s, a)
    ensures Agree(o.w, Next(o, s, a).store)
  {
    match a {
      case AppendA(g, env) =>
        if ReadingFor(o, s, g).Some? {
          AppendKeepsAgreementIff(o.w, s.store, ReadingFor(o, s, g).value, env);
        }
      case DieA(g, env, n) =>
        if ReadingFor(o, s, g).Some? {
          CrashKeepsAgreementIff(o.w, s.store, ReadingFor(o, s, g).value, env, n);
        } else {
          SameLinesAgree(o.w, s.store, s.store.(counts := map[]));
        }
      case StoreA(op, after) => StepKeepsAgreementIff(o.w, s.store, op, after);
      case _ =>
    }
  }

  lemma {:induction false} CleanRunsAgree(o: Outside, states: seq<System>, actions: seq<Action>, i: nat)
    requires Sound(o.w) && CleanRun(o, states, actions) && i < |states|
    ensures Agree(o.w, states[i].store)
  {
    if i == 0 {
      EmptyAgrees(o.w);
    } else {
      CleanRunsAgree(o, states, actions, i - 1);
      CleanRunStepAgrees(o, states, actions, i - 1);
    }
  }

  lemma CleanRunStepAgrees(o: Outside, states: seq<System>, actions: seq<Action>, i: nat)
    requires Sound(o.w) && CleanRun(o, states, actions) && i < |actions| && Agree(o.w, states[i].store)
    ensures Agree(o.w, states[i + 1].store)
  {
    var s, a := states[i], actions[i];
    assert Enabled(o, s, a) && CleanAction(o, s, a) && states[i + 1] == Next(o, s, a);
    CleanStepAgrees(o, s, a);
  }

  // --- One step -------------------------------------------------------------------------------

  lemma WorkerStepIndex(o: Outside, s: System, a: Action)
    requires Enabled(o, s, a) && CleanAction(o, s, a) && (a.AppendA? || a.DieA?)
    ensures |Next(o, s, a).store.index| == |s.store.index| + if AnyLine(o, s, a) then 1 else 0
  {
  }

  lemma StoreStepIndex(o: Outside, s: System, a: Action)
    requires Sound(o.w) && Agree(o.w, s.store) && Enabled(o, s, a) && CleanAction(o, s, a) && a.StoreA?
    ensures |Next(o, s, a).store.index| == |s.store.index| + if OtherAppend(o, s, a) then 1 else 0
  {
    CleanStepIndex(o.w, s.store, a.op, a.after);
  }

  lemma StepIndex(o: Outside, s: System, a: Action)
    requires Sound(o.w) && Agree(o.w, s.store) && Enabled(o, s, a) && CleanAction(o, s, a)
    ensures |Next(o, s, a).store.index|
         == |s.store.index| + (if AnyLine(o, s, a) then 1 else 0) + if OtherAppend(o, s, a) then 1 else 0
  {
    match a {
      case AppendA(_, _) => WorkerStepIndex(o, s, a);
      case DieA(_, _, _) => WorkerStepIndex(o, s, a);
      case StoreA(_, _) => StoreStepIndex(o, s, a);
      case _ =>
    }
  }

  // --- Runs -----------------------------------------------------------------------------------

  ghost function OtherAppends(o: Outside, states: seq<System>, actions: seq<Action>, i: nat): nat
    requires i <= |actions| && |states| == |actions| + 1
  {
    if i == 0 then 0
    else OtherAppends(o, states, actions, i - 1) + if OtherAppend(o, states[i - 1], actions[i - 1]) then 1 else 0
  }

  /** The lines left on behalf of items below n, item by item. */
  ghost function SumOfLines(o: Outside, states: seq<System>, actions: seq<Action>, i: nat, n: nat): nat
    requires i <= |actions| && |states| == |actions| + 1
  {
    if n == 0 then 0 else SumOfLines(o, states, actions, i, n - 1) + LinesFor(o, states, actions, i, n - 1)
  }

  lemma {:induction false} SumStep(o: Outside, states: seq<System>, actions: seq<Action>, i: nat, n: nat)
    requires 0 < i <= |actions| && |states| == |actions| + 1
    ensures var s, a := states[i - 1], actions[i - 1];
      SumOfLines(o, states, actions, i, n)
      == SumOfLines(o, states, actions, i - 1, n) + if AnyLine(o, s, a) && a.grant.0 < n then 1 else 0
  {
    if n > 0 {
      SumStep(o, states, actions, i, n - 1);
    }
  }

  lemma {:induction false} SumStart(o: Outside, states: seq<System>, actions: seq<Action>, n: nat)
    requires |states| == |actions| + 1
    ensures SumOfLines(o, states, actions, 0, n) == 0
  {
    if n > 0 {
      SumStart(o, states, actions, n - 1);
    }
  }

  lemma ItemsStay(o: Outside, s: System, a: Action)
    requires Enabled(o, s, a)
    ensures s.queue.Keys <= Next(o, s, a).queue.Keys
  {
  }

  lemma RunItemsStay(o: Outside, states: seq<System>, actions: seq<Action>, i: nat)
    requires IngestSafety.Run(o, states, actions) && i < |actions|
    ensures states[i].queue.Keys <= states[i + 1].queue.Keys
  {
    assert Enabled(o, states[i], actions[i]) && states[i + 1] == Next(o, states[i], actions[i]);
    ItemsStay(o, states[i], actions[i]);
  }

  /** In a clean run every indexed reading is accounted for: it was stored on behalf of one of the items,
      or by a successful append from elsewhere. */
  lemma {:induction false} RowsAreAccountedFor(o: Outside, states: seq<System>, actions: seq<Action>, i: nat, n: nat)
    requires Sound(o.w) && CleanRun(o, states, actions) && i < |states|
    requires forall id :: id in states[i].queue ==> id < n
    ensures |states[i].store.index| == SumOfLines(o, states, actions, i, n) + OtherAppends(o, states, actions, i)
  {
    if i == 0 {
      SumStart(o, states, actions, n);
    } else {
      RunItemsStay(o, states, actions, i - 1);
      RowsAreAccountedFor(o, states, actions, i - 1, n);
      SumStep(o, states, actions, i, n);
      RunStepIndex(o, states, actions, i - 1, n);
    }
  }

  lemma RunStepIndex(o: Outside, states: seq<System>, actions: seq<Action>, i: nat, n: nat)
    requires Sound(o.w) && CleanRun(o, states, actions) && i < |actions|
    requires forall id :: id in states[i].queue ==> id < n
    ensures var s, a := states[i], actions[i];
      && |states[i + 1].store.index|
         == |s.store.index| + (if AnyLine(o, s, a) then 1 else 0) + (if OtherAppend(o, s, a) then 1 else 0)
      && (AnyLine(o, s, a) ==> a.grant.0 < n)
  {
    var s, a := states[i], actions[i];
    CleanRunsAgree(o, states, actions, i);
    assert Enabled(o, s, a) && CleanAction(o, s, a) && states[i + 1] == Next(o, s, a);
    StepIndex(o, s, a);
  }
}
