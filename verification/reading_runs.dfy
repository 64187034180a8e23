/** Whole runs of the reading store: appends that succeed or fail anywhere, deaths inside them, restarts
    that lose the cache, and rebuilds, in any order. */
module ReadingRuns {
  import opened Wrappers
  import opened ReadingState
  import opened ReadingAgreement
  import opened ReadingHeld
  import opened ReadingLegible
  import opened ReadingTheorems

  datatype Op =
    | AppendOp(rd: Reading, env: Env)
    | CrashOp(rd: Reading, env: Env, written: nat)
    | RestartOp
    | RebuildOp(unreadable: set<ShardId>, dbOk: bool)

  ghost predicate Step(w: World, s: State, op: Op, s': State) {
    match op
    case AppendOp(rd, env) => s' == AppendSpec(w, s, rd, env).0
    case CrashOp(rd, env, n) => s' == CrashSpec(w, s, rd, env, n)
    case RestartOp => s' == s.(counts := map[])
    case RebuildOp(unreadable, dbOk) => if dbOk then RebuildStep(w, s, unreadable, s') else s' == s
  }

  /** The operation leaves nothing behind that the tables do not know of, and skips no shard with lines. */
  ghost predicate Clean(w: World, s: State, op: Op) {
    match op
    case AppendOp(rd, env) => CleanAppend(w, s, rd, env)
    case CrashOp(rd, env, n) => !CrashWrites(w, s, rd, env, n)
    case RestartOp => true
    case RebuildOp(unreadable, dbOk) => dbOk ==> SkipsNoLines(s, unreadable)
  }

  /** Agreement survives a step exactly when the step is clean. */
  lemma StepKeepsAgreementIff(w: World, s: State, op: Op, s': State)
    requires Sound(w) && Agree(w, s) && Step(w, s, op, s')
    ensures Agree(w, s') <==> Clean(w, s, op)
  {
    match op {
      case AppendOp(rd, env) => AppendKeepsAgreementIff(w, s, rd, env);
      case CrashOp(rd, env, n) => CrashKeepsAgreementIff(w, s, rd, env, n);
      case RestartOp => SameLinesAgree(w, s, s');
      case RebuildOp(unreadable, dbOk) =>
        if dbOk {
          MatchedFilesDoNotClash(w, s.files, s.index);
          RebuildRestoresIff(w, s, unreadable, s');
        }
    }
  }

  /** The operation leaves nothing behind or a whole line, whoever knows of it, and skips no shard that
      has rows. */
  ghost predicate Whole(w: World, s: State, op: Op) {
    match op
    case AppendOp(rd, env) => WholeAppend(w, s, rd, env)
    case CrashOp(rd, env, n) => WholeCrash(w, s, rd, env, n)
    case RestartOp => true
    case RebuildOp(unreadable, dbOk) => dbOk ==> forall id :: id in s.index ==> s.index[id].shardId !in unreadable
  }

  /** A whole step leaves a legible store legible, and keeps every row and the lines it rests on. */
  lemma StepKeepsRows(w: World, s: State, op: Op, s': State)
    requires Sound(w) && Legible(w, s) && Step(w, s, op, s') && Whole(w, s, op)
    ensures Legible(w, s') && RowsKept(s, s')
  {
    match op {
      case AppendOp(rd, env) => AppendKeepsRows(w, s, rd, env);
      case CrashOp(rd, env, n) => CrashKeepsRows(w, s, rd, env, n);
      case RestartOp => RestartKeepsRows(w, s);
      case RebuildOp(unreadable, dbOk) => RebuildKeepsRows(w, s, unreadable, dbOk, s');
    }
  }

  lemma RebuildKeepsRows(w: World, s: State, unreadable: set<ShardId>, dbOk: bool, s': State)
    requires Legible(w, s) && Step(w, s, RebuildOp(unreadable, dbOk), s') && Whole(w, s, RebuildOp(unreadable, dbOk))
    ensures Legible(w, s') && RowsKept(s, s')
  {
    if dbOk {
      SparingRebuildKeepsRows(w, s, unreadable, s');
    }
  }

  // --- Runs -----------------------------------------------------------------------------------

  /** A run from the empty store: states[i] becomes states[i + 1] by ops[i]. */
  ghost predicate Run(w: World, states: seq<State>, ops: seq<Op>) {
    && |states| == |ops| + 1 && states[0] == EMPTY
    && forall i :: 0 <= i < |ops| ==> Step(w, states[i], ops[i], states[i + 1])
  }

  /** The runs whose failures and deaths leave nothing or whole lines behind. */
  ghost predicate WholeRun(w: World, states: seq<State>, ops: seq<Op>) {
    Run(w, states, ops) && forall i :: 0 <= i < |ops| ==> Whole(w, states[i], ops[i])
  }

  lemma {:induction false} RunsStayLegible(w: World, states: seq<State>, ops: seq<Op>, i: nat)
    requires Sound(w) && WholeRun(w, states, ops) && i < |states|
    ensures Legible(w, states[i])
  {
    if i == 0 {
      EmptyAgrees(w);
    } else {
      RunsStayLegible(w, states, ops, i - 1);
      assert Step(w, states[i - 1], ops[i - 1], states[i]);
      StepKeepsRows(w, states[i - 1], ops[i - 1], states[i]);
    }
  }

  /** The rebuild goes through and sees every line. */
  ghost predicate Restores(w: World, s: State, op: Op) {
    op.RebuildOp? && op.dbOk && !Clash(w, s.files) && SkipsNoLines(s, op.unreadable)
  }

  /** Every step so far was clean, or was since the last rebuild that went through. */
  ghost predicate Settled(w: World, states: seq<State>, ops: seq<Op>, i: nat)
    requires i <= |ops| && |states| == |ops| + 1
  {
    || i == 0 || Restores(w, states[i - 1], ops[i - 1])
    || (Settled(w, states, ops, i - 1) && Clean(w, states[i - 1], ops[i - 1]))
  }

  /** Files, cache, index and manifest agree in every settled state of every run. */
  lemma {:induction false} RunsAgree(w: World, states: seq<State>, ops: seq<Op>, i: nat)
    requires Sound(w) && WholeRun(w, states, ops) && i < |states| && Settled(w, states, ops, i)
    ensures Agree(w, states[i])
  {
    if i == 0 {
      EmptyAgrees(w);
    } else {
      if Restores(w, states[i - 1], ops[i - 1]) {
        RunRestores(w, states, ops, i - 1);
      } else {
        RunsAgree(w, states, ops, i - 1);
        RunStaysAgreed(w, states, ops, i - 1);
      }
    }
  }

  lemma RunRestores(w: World, states: seq<State>, ops: seq<Op>, i: nat)
    requires Sound(w) && WholeRun(w, states, ops) && i < |ops| && Restores(w, states[i], ops[i])
    ensures Agree(w, states[i + 1])
  {
    RunsStayLegible(w, states, ops, i);
    assert Step(w, states[i], ops[i], states[i + 1]);
    RebuildRestoresIff(w, states[i], ops[i].unreadable, states[i + 1]);
  }

  lemma RunStaysAgreed(w: World, states: seq<State>, ops: seq<Op>, i: nat)
    requires Sound(w) && WholeRun(w, states, ops) && i < |ops| && Agree(w, states[i]) && Clean(w, states[i], ops[i])
    ensures Agree(w, states[i + 1])
  {
    assert Step(w, states[i], ops[i], states[i + 1]);
    StepKeepsAgreementIff(w, states[i], ops[i], states[i + 1]);
  }

  /** Any state of any run can be brought back to agreement by a rebuild that reads every shard, unless
      two of its lines carry one id. */
  lemma RunsCanBeRebuilt(w: World, states: seq<State>, ops: seq<Op>, i: nat, s': State)
    requires Sound(w) && WholeRun(w, states, ops) && i < |states| && RebuildStep(w, states[i], {}, s')
    ensures Agree(w, s') <==> !Clash(w, states[i].files)
  {
    RunsStayLegible(w, states, ops, i);
    RebuildRestoresIff(w, states[i], {}, s');
  }

  // --- Any run at all ---------------------------------------------------------------------------

  /** Files only grow, and never by a blank line. */
  lemma StepGrows(w: World, s: State, op: Op, s': State)
    requires Sound(w) && NoBlankLines(s.files) && Step(w, s, op, s')
    ensures NoBlankLines(s'.files) && FilesGrow(s, s')
  {
    match op {
      case AppendOp(rd, env) => AppendGrows(w, s, rd, env);
      case CrashOp(rd, env, n) => CrashGrows(w, s, rd, env, n);
      case _ =>
    }
  }

  lemma {:induction false} RunsHaveNoBlankLines(w: World, states: seq<State>, ops: seq<Op>, i: nat)
    requires Sound(w) && Run(w, states, ops) && i < |states|
    ensures NoBlankLines(states[i].files)
  {
    if i > 0 {
      RunsHaveNoBlankLines(w, states, ops, i - 1);
      assert Step(w, states[i - 1], ops[i - 1], states[i]);
      StepGrows(w, states[i - 1], ops[i - 1], states[i]);
    }
  }

  /** A rebuild that goes through without reading this shard. */
  ghost predicate DropsShard(w: World, s: State, op: Op, sid: ShardId) {
    op.RebuildOp? && op.dbOk && Drops(w, s, op.unreadable, sid)
  }

  /** Whatever a step leaves behind, a held reading keeps its row exactly when the step does not drop its
      shard, and is then still held. */
  lemma StepKeepsHeldIff(w: World, s: State, op: Op, s': State, row: IndexRow, rd: Reading)
    requires Sound(w) && NoBlankLines(s.files) && Step(w, s, op, s') && Holds(w, s, row, rd)
    ensures RowStays(s, s', rd.id) <==> !DropsShard(w, s, op, row.shardId)
    ensures !DropsShard(w, s, op, row.shardId) ==> Holds(w, s', row, rd)
  {
    match op {
      case AppendOp(other, env) => IndexStays(w, s, other, env);
      case CrashOp(other, env, n) => CrashGrows(w, s, other, env, n);
      case RestartOp =>
      case RebuildOp(unreadable, dbOk) =>
        if dbOk {
          RebuildKeepsHeldIff(w, s, unreadable, s', row, rd);
        }
    }
    StepGrows(w, s, op, s');
    if !DropsShard(w, s, op, row.shardId) {
      HeldStays(w, s, s', row, rd);
    }
  }

  /** No rebuild from state i up to state j drops the shard. */
  ghost predicate Spared(w: World, states: seq<State>, ops: seq<Op>, i: nat, j: nat, sid: ShardId)
    requires i <= j <= |ops| && |states| == |ops| + 1
  {
    forall m :: i <= m < j ==> !DropsShard(w, states[m], ops[m], sid)
  }

  lemma RunKeepsHeld(w: World, states: seq<State>, ops: seq<Op>, i: nat, row: IndexRow, rd: Reading)
    requires Sound(w) && Run(w, states, ops) && i < |ops| && Holds(w, states[i], row, rd)
    requires !DropsShard(w, states[i], ops[i], row.shardId)
    ensures Holds(w, states[i + 1], row, rd)
  {
    RunsHaveNoBlankLines(w, states, ops, i);
    assert Step(w, states[i], ops[i], states[i + 1]);
    StepKeepsHeldIff(w, states[i], ops[i], states[i + 1], row, rd);
  }

  /** A reading held in any state of any run, through torn lines, glued lines and miscounts of whichever
      shard, keeps its row and reads the same in every later state, as long as no rebuild drops its shard. */
  lemma {:induction false} HeldReadingsStay(w: World, states: seq<State>, ops: seq<Op>, i: nat, j: nat,
                                            row: IndexRow, rd: Reading)
    requires Sound(w) && Run(w, states, ops) && i <= j < |states|
    requires Holds(w, states[i], row, rd) && Spared(w, states, ops, i, j, row.shardId)
    ensures Holds(w, states[j], row, rd) && GetSpec(w, states[j], rd.id) == Ok(rd)
    decreases j
  {
    if i < j {
      assert Spared(w, states, ops, i, j - 1, row.shardId) && !DropsShard(w, states[j - 1], ops[j - 1], row.shardId);
      HeldReadingsStay(w, states, ops, i, j - 1, row, rd);
      RunKeepsHeld(w, states, ops, j - 1, row, rd);
    }
    HeldReads(w, states[j], row, rd);
  }

  /** What an append returned is what Get returns ever after, whatever the other steps of the run are, if
      the append found its file whole and rightly counted and no rebuild drops its shard. */
  lemma GetReturnsWhatWasAppended(w: World, states: seq<State>, ops: seq<Op>, i: nat, j: nat)
    requires Sound(w) && Run(w, states, ops) && i < j < |states|
    requires ops[i].AppendOp? && LandsWhole(w, states[i], ops[i].rd, ops[i].env)
    requires Spared(w, states, ops, i + 1, j, Placed(w, states[i], ops[i].rd, ops[i].env).shardId)
    ensures var stored := AppendSpec(w, states[i], ops[i].rd, ops[i].env).1;
      stored.Some? ==> GetSpec(w, states[j], stored.value.id) == Ok(stored.value)
  {
    var stored := AppendSpec(w, states[i], ops[i].rd, ops[i].env).1;
    if stored.Some? {
      assert Step(w, states[i], ops[i], states[i + 1]);
      LandedHolds(w, states[i], ops[i].rd, ops[i].env);
      var placed := stored.value;
      HeldReadingsStay(w, states, ops, i + 1, j, RowOf(placed, placed.shardId, placed.lineNo), placed);
    }
  }

  /** And whatever a run has done to the files, after a rebuild that goes through every row there is reads
      back the line it describes. */
  lemma RebuiltRunsRead(w: World, states: seq<State>, ops: seq<Op>, i: nat, unreadable: set<ShardId>, s': State,
                        id: ReadingId)
    requires Sound(w) && Run(w, states, ops) && i < |states|
    requires RebuildStep(w, states[i], unreadable, s') && !Clash(w, states[i].files - unreadable) && id in s'.index
    ensures var row, got := s'.index[id], GetSpec(w, s', id);
      got.Ok? && got.value.id == id && row == RowOf(got.value, row.shardId, row.lineNo)
  {
    RunsHaveNoBlankLines(w, states, ops, i);
    RebuiltRowsRead(w, states[i], unreadable, s', id);
  }

  // --- Counting -------------------------------------------------------------------------------

  /** Step i is an append that succeeds. */
  ghost predicate SucceedsAt(w: World, states: seq<State>, ops: seq<Op>, i: nat)
    requires i < |ops| < |states|
  {
    ops[i].AppendOp? && AppendSucceeds(w, states[i], ops[i].rd, ops[i].env)
  }

  ghost function Stored(w: World, states: seq<State>, ops: seq<Op>, i: nat): nat
    requires i <= |ops| && |states| == |ops| + 1
  {
    if i == 0 then 0
    else
      Stored(w, states, ops, i - 1) + if SucceedsAt(w, states, ops, i - 1) then 1 else 0
  }

  ghost predicate CleanRun(w: World, states: seq<State>, ops: seq<Op>) {
    Run(w, states, ops) && forall i :: 0 <= i < |ops| ==> Clean(w, states[i], ops[i])
  }

  lemma {:induction false} CleanRunsAgree(w: World, states: seq<State>, ops: seq<Op>, i: nat)
    requires Sound(w) && CleanRun(w, states, ops) && i < |states|
    ensures Agree(w, states[i])
  {
    if i == 0 {
      EmptyAgrees(w);
    } else {
      CleanRunsAgree(w, states, ops, i - 1);
      assert Step(w, states[i - 1], ops[i - 1], states[i]) && Clean(w, states[i - 1], ops[i - 1]);
      StepKeepsAgreementIff(w, states[i - 1], ops[i - 1], states[i]);
    }
  }

  /** A clean step other than a successful append leaves the index as it was. */
  lemma CleanStepIndex(w: World, s: State, op: Op, s': State)
    requires Sound(w) && Agree(w, s) && Step(w, s, op, s') && Clean(w, s, op)
    ensures if op.AppendOp? && AppendSucceeds(w, s, op.rd, op.env)
      then |s'.index| == |s.index| + 1 else s'.index == s.index
  {
    if op.RebuildOp? && op.dbOk {
      FullRebuildKeepsIndex(w, s, op.unreadable, s');
    }
  }

  lemma CleanRunStepIndex(w: World, states: seq<State>, ops: seq<Op>, i: nat)
    requires Sound(w) && CleanRun(w, states, ops) && i < |ops|
    ensures |states[i + 1].index| == |states[i].index| + if SucceedsAt(w, states, ops, i) then 1 else 0
  {
    CleanRunsAgree(w, states, ops, i);
    assert Step(w, states[i], ops[i], states[i + 1]) && Clean(w, states[i], ops[i]);
    CleanStepIndex(w, states[i], ops[i], states[i + 1]);
  }

  /** Nothing is lost and nothing is invented: in a clean run the index holds as many rows as appends
      succeeded. */
  lemma {:induction false} IndexCountsAppends(w: World, states: seq<State>, ops: seq<Op>, i: nat)
    requires Sound(w) && CleanRun(w, states, ops) && i < |states|
    ensures |states[i].index| == Stored(w, states, ops, i)
    decreases i, 0
  {
    if i > 0 {
      NextIndexCounts(w, states, ops, i - 1);
    }
  }

  lemma {:induction false} NextIndexCounts(w: World, states: seq<State>, ops: seq<Op>, i: nat)
    requires Sound(w) && CleanRun(w, states, ops) && i < |ops|
    ensures |states[i + 1].index| == Stored(w, states, ops, i + 1)
    decreases i, 1
  {
    IndexCountsAppends(w, states, ops, i);
    CleanRunStepIndex(w, states, ops, i);
  }
}
