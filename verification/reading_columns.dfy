/** What the columns of an index row show: the values of a reading that was submitted, or of a line that a
    rebuild decoded, each in its own column. */
module ReadingColumns {
  import opened Wrappers
  import opened Lines
  import opened ReadingState
  import opened ReadingHeld
  import opened ReadingLegible
  import opened ReadingRuns

  /** A successful append stores what was submitted, under the day of its time, and its row shows that. */
  lemma AppendShows(w: World, s: State, rd: Reading, env: Env)
    requires AppendSucceeds(w, s, rd, env)
    ensures var (s', stored) := AppendSpec(w, s, rd, env);
      && stored.Some? && Keeps(stored.value, rd, env)
      && stored.value.shardId == ShardId("readings", w.day(stored.value.ts))
      && stored.value.id in s'.index && Shows(s'.index[stored.value.id], stored.value)
      && s'.index[stored.value.id].shardId == stored.value.shardId
      && s'.index[stored.value.id].lineNo == stored.value.lineNo
  {
  }

  lemma HeldShows(w: World, s: State, row: IndexRow, rd: Reading)
    requires Holds(w, s, row, rd)
    ensures Shows(row, rd) && GetSpec(w, s, rd.id) == Ok(rd)
  {
    HeldReads(w, s, row, rd);
  }

  /** Over any run, an append that found its file whole and rightly counted is what Get returns, and what its
      row shows, value by value as it was submitted, until a rebuild drops its shard. */
  lemma SubmittedIsShown(w: World, states: seq<State>, ops: seq<Op>, i: nat, j: nat)
    requires Sound(w) && Run(w, states, ops) && i < j < |states|
    requires ops[i].AppendOp? && LandsWhole(w, states[i], ops[i].rd, ops[i].env)
    requires AppendSucceeds(w, states[i], ops[i].rd, ops[i].env)
    requires Spared(w, states, ops, i + 1, j, Placed(w, states[i], ops[i].rd, ops[i].env).shardId)
    ensures var stored := Placed(w, states[i], ops[i].rd, ops[i].env);
      && Keeps(stored, ops[i].rd, ops[i].env) && stored.id in states[j].index
      && Shows(states[j].index[stored.id], stored) && GetSpec(w, states[j], stored.id) == Ok(stored)
  {
    var stored := Placed(w, states[i], ops[i].rd, ops[i].env);
    var row := RowOf(stored, stored.shardId, stored.lineNo);
    assert Step(w, states[i], ops[i], states[i + 1]);
    AppendShows(w, states[i], ops[i].rd, ops[i].env);
    LandedHolds(w, states[i], ops[i].rd, ops[i].env);
    HeldReadingsStay(w, states, ops, i + 1, j, row, stored);
    HeldShows(w, states[j], row, stored);
  }

  /** In a legible store every row shows what Get returns for its id. */
  lemma LegibleShows(w: World, s: State, id: ReadingId)
    requires Legible(w, s) && id in s.index
    ensures GetSpec(w, s, id).Ok? && GetSpec(w, s, id).value.id == id && Shows(s.index[id], GetSpec(w, s, id).value)
  {
    GetDecodesIndexedLine(w, s, id);
    assert RowFits(w, s.files, id, s.index[id]);
  }

  /** From any state of any run, after a rebuild that goes through every row shows what Get returns. */
  lemma RebuiltRunsShow(w: World, states: seq<State>, ops: seq<Op>, i: nat, unreadable: set<ShardId>, s': State,
                        id: ReadingId)
    requires Sound(w) && Run(w, states, ops) && i < |states|
    requires RebuildStep(w, states[i], unreadable, s') && !Clash(w, states[i].files - unreadable) && id in s'.index
    ensures GetSpec(w, s', id).Ok? && GetSpec(w, s', id).value.id == id && Shows(s'.index[id], GetSpec(w, s', id).value)
  {
    RebuiltRunsRead(w, states, ops, i, unreadable, s', id);
  }

  // --- Where every row comes from -----------------------------------------------------------------

  /** Step i appended a reading with this id that the row shows. */
  ghost predicate FromAppend(w: World, states: seq<State>, ops: seq<Op>, i: nat, id: ReadingId, row: IndexRow)
    requires i < |ops| < |states|
  {
    && SucceedsAt(w, states, ops, i)
    && var stored := Placed(w, states[i], ops[i].rd, ops[i].env);
       stored.id == id && Shows(row, stored) && Keeps(stored, ops[i].rd, ops[i].env)
  }

  /** Step i rebuilt the tables and decoded, at the place the row names, a reading with this id that the row
      shows. */
  ghost predicate FromRebuild(w: World, states: seq<State>, ops: seq<Op>, i: nat, id: ReadingId, row: IndexRow)
    requires i < |ops| < |states|
  {
    && ops[i].RebuildOp? && Names(w, states[i].files, id, row.shardId, row.lineNo)
    && Shows(row, w.unmarshal(LinesOf(states[i].files, row.shardId)[row.lineNo]).value)
  }

  ghost predicate Comes(w: World, states: seq<State>, ops: seq<Op>, j: nat, id: ReadingId, row: IndexRow)
    requires j <= |ops| < |states|
  {
    exists i: nat :: i < j && (FromAppend(w, states, ops, i, id, row) || FromRebuild(w, states, ops, i, id, row))
  }

  lemma StepOrigin(w: World, states: seq<State>, ops: seq<Op>, i: nat, id: ReadingId)
    requires Run(w, states, ops) && i < |ops| && id in states[i + 1].index
    ensures var row := states[i + 1].index[id];
      || (id in states[i].index && states[i].index[id] == row)
      || FromAppend(w, states, ops, i, id, row) || FromRebuild(w, states, ops, i, id, row)
  {
    assert Step(w, states[i], ops[i], states[i + 1]);
    match ops[i] {
      case AppendOp(rd, env) =>
        if AppendSucceeds(w, states[i], rd, env) {
          AppendShows(w, states[i], rd, env);
        }
      case RebuildOp(unreadable, dbOk) =>
        if dbOk && !Clash(w, states[i].files - unreadable) {
          var row := states[i + 1].index[id];
          assert RowFits(w, states[i].files - unreadable, id, row);
          ReadableLines(w, states[i], unreadable, id, row.shardId, row.lineNo);
        }
      case _ =>
    }
  }

  /** Every row of every state of every run shows a reading: one that was appended, as it was submitted, or
      one that a rebuild decoded from the line the row names. */
  lemma {:induction false} RowsComeFromReadings(w: World, states: seq<State>, ops: seq<Op>, j: nat, id: ReadingId)
    requires Run(w, states, ops) && j < |states| && id in states[j].index
    ensures Comes(w, states, ops, j, id, states[j].index[id])
  {
    if j > 0 {
      StepOrigin(w, states, ops, j - 1, id);
      var row := states[j].index[id];
      if id in states[j - 1].index && states[j - 1].index[id] == row {
        RowsComeFromReadings(w, states, ops, j - 1, id);
      }
    }
  }

  /** A death leaves a prefix of the line and byte 10 in the file, if the append had got that far; the tables and
      the other files stay, and the cache is gone. */
  lemma CrashShows(w: World, s: State, rd: Reading, env: Env, n: nat)
    ensures var s', placed := CrashSpec(w, s, rd, env, n), Placed(w, s, rd, env);
      && s'.index == s.index && s'.manifest == s.manifest && s'.counts == map[]
      && if env.beginOk && w.marshal(placed).Some?
         then
           var before, whole := FileContent(s.files, placed.shardId), w.marshal(placed).value + [10];
           s'.files == s.files[placed.shardId := before + if n < |whole| then whole[..n] else whole]
         else s'.files == s.files
  {
  }
}
