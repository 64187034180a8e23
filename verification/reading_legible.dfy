/** The weaker invariant that whole lines unknown to the tables cannot break: what keeps the store
    legible, and so every indexed reading readable. */
module ReadingLegible {
  import opened Wrappers
  import opened Lines
  import opened ReadingState
  import opened ReadingAgreement

  /** In a legible store, Get decodes the very line the index row points at. */
  lemma GetDecodesIndexedLine(w: World, s: State, id: ReadingId)
    requires Legible(w, s) && id in s.index
    ensures var row := s.index[id];
      && Names(w, s.files, id, row.shardId, row.lineNo)
      && GetSpec(w, s, id) == Ok(w.unmarshal(LinesOf(s.files, row.shardId)[row.lineNo]).value)
  {
    var row := s.index[id];
    assert RowFits(w, s.files, id, row);
    assert FileOk(w, s.files, row.shardId);
    RenderRoundTrip(LinesOf(s.files, row.shardId));
  }

  // --- Rows that stay -------------------------------------------------------------------------

  /** A row and the lines under it survive from one state to the next. */
  ghost predicate RowKept(s: State, s': State, id: ReadingId) {
    && id in s.index && id in s'.index && s'.index[id] == s.index[id]
    && LinesOf(s.files, s.index[id].shardId) <= LinesOf(s'.files, s.index[id].shardId)
  }

  ghost predicate RowsKept(s: State, s': State) {
    forall id :: id in s.index ==> RowKept(s, s', id)
  }

  ghost predicate LinesStay(s: State, s': State) {
    forall sid :: LinesOf(s.files, sid) <= LinesOf(s'.files, sid)
  }

  lemma RowsStayFit(w: World, s: State, s': State)
    requires RowsFit(w, s.files, s.index) && LinesStay(s, s')
    ensures RowsFit(w, s'.files, s.index)
  {
    forall id | id in s.index
      ensures RowFits(w, s'.files, id, s.index[id])
    {
      var sid := s.index[id].shardId;
      assert RowFits(w, s.files, id, s.index[id]);
      assert LinesOf(s.files, sid) <= LinesOf(s'.files, sid);
    }
  }

  // --- One more line ----------------------------------------------------------------------------

  /** The file with one whole line more, whatever the cache and the tables know of it. */
  ghost predicate GrownBy(s: State, s': State, sid: ShardId, line: Bytes) {
    s'.files == s.files[sid := FileContent(s.files, sid) + (line + [NL])]
  }

  lemma GrownLinesStay(w: World, s: State, s': State, sid: ShardId, line: Bytes)
    requires AllFilesOk(w, s.files) && WellFormedLine(line) && GrownBy(s, s', sid, line)
    ensures LinesStay(s, s') && LinesOf(s'.files, sid) == LinesOf(s.files, sid) + [line]
    ensures forall other :: other != sid ==> LinesOf(s'.files, other) == LinesOf(s.files, other)
  {
    assert sid in s.files ==> FileOk(w, s.files, sid);
    GrowFile(w, s.files, sid, line);
  }

  /** A whole line at the end keeps the file good exactly when the reading in it knows that place. */
  lemma GrownFilesOkIff(w: World, s: State, s': State, rd: Reading, line: Bytes)
    requires AllFilesOk(w, s.files) && Encodes(w, line, rd) && GrownBy(s, s', rd.shardId, line)
    ensures AllFilesOk(w, s'.files) <==> rd.lineNo == |LinesOf(s.files, rd.shardId)|
  {
    var sid, n := rd.shardId, |LinesOf(s.files, rd.shardId)|;
    GrownLinesStay(w, s, s', sid, line);
    assert sid in s'.files && LinesOf(s'.files, sid)[n] == line;
    assert sid in s.files ==> FileOk(w, s.files, sid);
    if rd.lineNo == n {
      GrownFileOk(w, s.files, sid, line);
      forall other | other in s'.files
        ensures FileOk(w, s'.files, other)
      {
        assert other != sid ==> FileOk(w, s.files, other);
      }
    } else {
      assert !SelfDescribing(w, line, sid, n);
      assert !FileOk(w, s'.files, sid);
    }
  }

  lemma GrownCounts(w: World, s: State, s': State, sid: ShardId, line: Bytes, count: int)
    requires FilesOk(w, s) && s'.counts == s.counts[sid := count]
    requires WellFormedLine(line) && GrownBy(s, s', sid, line)
    ensures CountsOk(s') <==> count == |LinesOf(s.files, sid)| + 1
  {
    GrownLinesStay(w, s, s', sid, line);
    assert sid in s'.counts && s'.counts[sid] == count;
    if count == |LinesOf(s.files, sid)| + 1 {
      forall other | other in s'.counts
        ensures s'.counts[other] == |LinesOf(s'.files, other)|
      {
        assert other != sid ==> LinesOf(s'.files, other) == LinesOf(s.files, other);
      }
    }
  }

  /** The row of the new line, if there is one, fits it, and the others fit as before. */
  lemma GrownRowsFit(w: World, s: State, s': State, rd: Reading, line: Bytes)
    requires Legible(w, s) && Encodes(w, line, rd) && GrownBy(s, s', rd.shardId, line)
    requires s'.index == s.index || s'.index == s.index[rd.id := RowOf(rd, rd.shardId, rd.lineNo)]
    requires rd.lineNo == |LinesOf(s.files, rd.shardId)|
    ensures RowsFit(w, s'.files, s'.index)
  {
    GrownLinesStay(w, s, s', rd.shardId, line);
    RowsStayFit(w, s, s');
    NewRowFits(w, s'.files, rd, line);
  }

  lemma NewRowFits(w: World, files: map<ShardId, Bytes>, rd: Reading, line: Bytes)
    requires Encodes(w, line, rd) && 0 <= rd.lineNo < |LinesOf(files, rd.shardId)|
    requires LinesOf(files, rd.shardId)[rd.lineNo] == line
    ensures RowFits(w, files, rd.id, RowOf(rd, rd.shardId, rd.lineNo))
  {
  }

  /** One more line, whose row may or may not be in the index, and a new count. */
  ghost predicate Grown(s: State, s': State, rd: Reading, line: Bytes, count: int) {
    && GrownBy(s, s', rd.shardId, line) && s'.counts == s.counts[rd.shardId := count]
    && (s'.index == s.index || s'.index == s.index[rd.id := RowOf(rd, rd.shardId, rd.lineNo)])
  }

  lemma GrownLegibleIff(w: World, s: State, s': State, rd: Reading, line: Bytes, count: int)
    requires Legible(w, s) && Encodes(w, line, rd) && Grown(s, s', rd, line, count)
    ensures Legible(w, s') <==> rd.lineNo == |LinesOf(s.files, rd.shardId)| && count == rd.lineNo + 1
    ensures LinesStay(s, s')
  {
    GrownFilesOkIff(w, s, s', rd, line);
    GrownCounts(w, s, s', rd.shardId, line, count);
    GrownLinesStay(w, s, s', rd.shardId, line);
    if rd.lineNo == |LinesOf(s.files, rd.shardId)| {
      GrownRowsFit(w, s, s', rd, line);
    }
  }

  // --- Append ---------------------------------------------------------------------------------

  lemma SuccessGrows(w: World, s: State, rd: Reading, env: Env)
    requires AppendSucceeds(w, s, rd, env)
    ensures var s', placed := AppendSpec(w, s, rd, env).0, Placed(w, s, rd, env);
      w.marshal(placed).Some? && Grown(s, s', placed, w.marshal(placed).value, placed.lineNo + 1)
  {
  }

  lemma SuccessLegibleIff(w: World, s: State, rd: Reading, env: Env)
    requires Sound(w) && Legible(w, s) && AppendSucceeds(w, s, rd, env)
    ensures var s' := AppendSpec(w, s, rd, env).0;
      LinesStay(s, s') && (Legible(w, s') <==> !Misplaces(w, s, rd, env))
  {
    var s', placed := AppendSpec(w, s, rd, env).0, Placed(w, s, rd, env);
    SuccessGrows(w, s, rd, env);
    MarshalEncodes(w, placed);
    PlacedAtEnd(w, s, rd, env);
    GrownLegibleIff(w, s, s', placed, w.marshal(placed).value, placed.lineNo + 1);
  }

  lemma AbandonedLegibleIff(w: World, s: State, rd: Reading, env: Env)
    requires Legible(w, s) && env.beginOk && !AppendSucceeds(w, s, rd, env) && !LeavesResidue(w, s, rd, env)
    ensures var s' := Abandoned(w, s, rd, env);
      LinesStay(s, s') && (Legible(w, s') <==> CacheRight(w, s, rd, env))
  {
    AbandonedCounts(w, s, rd, env);
    AbandonedState(w, s, rd, env);
    RowsStayFit(w, s, Abandoned(w, s, rd, env));
  }

  ghost predicate AtEnd(s: State, rd: Reading) {
    rd.lineNo == |LinesOf(s.files, rd.shardId)|
  }

  /** The whole line of this reading was left in its file, and nothing but the cache knows. */
  ghost predicate LineLeft(w: World, s: State, s': State, placed: Reading) {
    && w.marshal(placed).Some? && GrownBy(s, s', placed.shardId, w.marshal(placed).value)
    && s'.index == s.index && s'.counts == s.counts[placed.shardId := placed.lineNo + 1]
  }

  lemma LineLeftLegibleIff(w: World, s: State, s': State, placed: Reading)
    requires Sound(w) && Legible(w, s) && LineLeft(w, s, s', placed)
    ensures LinesStay(s, s') && (Legible(w, s') <==> AtEnd(s, placed))
  {
    MarshalEncodes(w, placed);
    GrownLegibleIff(w, s, s', placed, w.marshal(placed).value, placed.lineNo + 1);
  }

  lemma WholeResidueState(w: World, s: State, rd: Reading, env: Env)
    requires LeavesResidue(w, s, rd, env) && Completes(w, s, rd, env)
    ensures LineLeft(w, s, Abandoned(w, s, rd, env), Placed(w, s, rd, env))
  {
  }

  lemma TornResidueState(w: World, s: State, rd: Reading, env: Env)
    requires LeavesResidue(w, s, rd, env) && !Completes(w, s, rd, env)
    ensures var s', placed := Abandoned(w, s, rd, env), Placed(w, s, rd, env);
      && w.marshal(placed).Some? && env.write.Torn? && env.write.bytes > 0
      && s'.index == s.index && s'.counts == s.counts[placed.shardId := placed.lineNo]
      && s'.files == s.files[placed.shardId := FileContent(s.files, placed.shardId)
                                               + Prefix(w.marshal(placed).value + [NL], env.write.bytes)]
  {
  }

  /** The whole line, written but not indexed, with nobody left to take it back. */
  lemma WholeResidueLegibleIff(w: World, s: State, rd: Reading, env: Env)
    requires Sound(w) && Legible(w, s) && LeavesResidue(w, s, rd, env) && Completes(w, s, rd, env)
    ensures var s' := Abandoned(w, s, rd, env);
      LinesStay(s, s') && (Legible(w, s') <==> AtEnd(s, Placed(w, s, rd, env)))
  {
    WholeResidueState(w, s, rd, env);
    LineLeftLegibleIff(w, s, Abandoned(w, s, rd, env), Placed(w, s, rd, env));
  }

  /** Bytes of a line that was never completed: a torn tail, or a line the cache does not count. */
  lemma TornResidueIllegible(w: World, s: State, rd: Reading, env: Env)
    requires Sound(w) && Legible(w, s) && LeavesResidue(w, s, rd, env) && !Completes(w, s, rd, env)
    ensures !Legible(w, Abandoned(w, s, rd, env))
  {
    var s', placed := Abandoned(w, s, rd, env), Placed(w, s, rd, env);
    TornResidueState(w, s, rd, env);
    MarshalEncodes(w, placed);
    var line, n := w.marshal(placed).value, env.write.bytes;
    if n <= |line| {
      PrefixIs(line, n);
      TornTailNotOk(w, s, placed.shardId, line, n);
    } else {
      PrefixIs(line, n);
      GrownLegibleIff(w, s, s', placed, line, placed.lineNo);
    }
  }

  lemma PrefixIs(line: Bytes, n: nat)
    ensures Prefix(line + [NL], n) == if n <= |line| then line[..n] else line + [NL]
  {
  }

  /** A file with an unterminated tail is not a file of complete lines. */
  lemma TornTailNotOk(w: World, s: State, sid: ShardId, line: Bytes, n: nat)
    requires AllFilesOk(w, s.files)
    requires WellFormedLine(line) && 0 < n <= |line|
    ensures !AllFilesOk(w, s.files[sid := FileContent(s.files, sid) + line[..n]])
  {
    var lines := LinesOf(s.files, sid);
    var files := s.files[sid := FileContent(s.files, sid) + line[..n]];
    assert sid in s.files ==> FileOk(w, s.files, sid);
    assert sid in files;
    assert FileContent(s.files, sid) == Render(lines);
    TornWrite(lines, line, n);
    assert (line + [NL])[..n] == line[..n];
    RenderSnoc(lines, line[..n]);
    assert !FileOk(w, files, sid);
  }

  /** An append leaves a legible store legible exactly when it is whole, and then takes no line away. */
  lemma AppendKeepsLegibleIff(w: World, s: State, rd: Reading, env: Env)
    requires Sound(w) && Legible(w, s)
    ensures var s' := AppendSpec(w, s, rd, env).0;
      && (Legible(w, s') <==> WholeAppend(w, s, rd, env)) && (WholeAppend(w, s, rd, env) ==> LinesStay(s, s'))
  {
    if AppendSucceeds(w, s, rd, env) {
      SuccessLegibleIff(w, s, rd, env);
    } else if LeavesResidue(w, s, rd, env) {
      if Completes(w, s, rd, env) {
        WholeResidueLegibleIff(w, s, rd, env);
        PlacedAtEnd(w, s, rd, env);
      } else {
        TornResidueIllegible(w, s, rd, env);
      }
    } else if env.beginOk {
      AbandonedLegibleIff(w, s, rd, env);
    }
  }

  /** Rows only come, and lines only come. */
  lemma KeptRows(s: State, s': State)
    requires LinesStay(s, s') && forall id :: id in s.index ==> id in s'.index && s'.index[id] == s.index[id]
    ensures RowsKept(s, s')
  {
    forall id | id in s.index
      ensures RowKept(s, s', id)
    {
      assert LinesOf(s.files, s.index[id].shardId) <= LinesOf(s'.files, s.index[id].shardId);
    }
  }

  lemma IndexStays(w: World, s: State, rd: Reading, env: Env)
    ensures var s' := AppendSpec(w, s, rd, env).0;
      forall id :: id in s.index ==> id in s'.index && s'.index[id] == s.index[id]
  {
    if AppendSucceeds(w, s, rd, env) {
      assert Placed(w, s, rd, env).id !in s.index;
    }
  }

  lemma AppendKeepsRows(w: World, s: State, rd: Reading, env: Env)
    requires Sound(w) && Legible(w, s) && WholeAppend(w, s, rd, env)
    ensures Legible(w, AppendSpec(w, s, rd, env).0) && RowsKept(s, AppendSpec(w, s, rd, env).0)
  {
    AppendKeepsLegibleIff(w, s, rd, env);
    IndexStays(w, s, rd, env);
    KeptRows(s, AppendSpec(w, s, rd, env).0);
  }

  /** What a whole append returned is what Get returns. */
  lemma GetAfterAppend(w: World, s: State, rd: Reading, env: Env)
    requires Sound(w) && Legible(w, s) && AppendSucceeds(w, s, rd, env) && WholeAppend(w, s, rd, env)
    ensures var (s', stored) := AppendSpec(w, s, rd, env);
      && stored.Some? && stored.value.id in s'.index && GetSpec(w, s', stored.value.id) == Ok(stored.value)
      && LinesOf(s'.files, stored.value.shardId)
         == LinesOf(s.files, stored.value.shardId) + [w.marshal(stored.value).value]
      && stored.value.lineNo == |LinesOf(s.files, stored.value.shardId)|
  {
    var (s', stored) := AppendSpec(w, s, rd, env);
    var placed := stored.value;
    var line := w.marshal(placed).value;
    MarshalEncodes(w, placed);
    AppendKeepsLegibleIff(w, s, rd, env);
    PlacedAtEnd(w, s, rd, env);
    GrownLinesStay(w, s, s', placed.shardId, line);
    GetDecodesIndexedLine(w, s', placed.id);
  }

  // --- Death inside an append ---------------------------------------------------------------------

  /** The process dies inside AppendLine or before the transaction commits: the first n bytes of the
      line and its newline are on disk, the tables are untouched and the cache is gone. */
  function Crashed(s: State, sid: ShardId, line: Bytes, n: nat): State {
    s.(files := s.files[sid := FileContent(s.files, sid) + Prefix(line + [NL], n)], counts := map[])
  }

  /** An append cut short by the death of the process. */
  ghost function CrashSpec(w: World, s: State, rd: Reading, env: Env, n: nat): State {
    var placed := Placed(w, s, rd, env);
    if env.beginOk && w.marshal(placed).Some? then Crashed(s, placed.shardId, w.marshal(placed).value, n)
    else s.(counts := map[])
  }

  /** Bytes of the line were written before the process died. */
  ghost predicate CrashWrites(w: World, s: State, rd: Reading, env: Env, n: nat) {
    n > 0 && env.beginOk && w.marshal(Placed(w, s, rd, env)).Some?
  }

  /** Nothing is left behind, or a whole line that knows its place. */
  ghost predicate WholeCrash(w: World, s: State, rd: Reading, env: Env, n: nat) {
    CrashWrites(w, s, rd, env, n) ==> n > |w.marshal(Placed(w, s, rd, env)).value| && !Misplaces(w, s, rd, env)
  }

  lemma UntouchedFiles(w: World, s: State, rd: Reading, env: Env, n: nat)
    requires !CrashWrites(w, s, rd, env, n)
    ensures var c := CrashSpec(w, s, rd, env, n);
      && c.counts == map[] && c.index == s.index && c.manifest == s.manifest && s.files.Keys <= c.files.Keys
      && forall sid :: FileContent(c.files, sid) == FileContent(s.files, sid)
  {
    var sid := Placed(w, s, rd, env).shardId;
    assert FileContent(s.files, sid) + [] == FileContent(s.files, sid);
  }

  lemma WrittenCrashLegibleIff(w: World, s: State, rd: Reading, env: Env, n: nat)
    requires Sound(w) && Legible(w, s) && CrashWrites(w, s, rd, env, n)
    ensures var c := CrashSpec(w, s, rd, env, n);
      && (Legible(w, c) <==> WholeCrash(w, s, rd, env, n)) && (WholeCrash(w, s, rd, env, n) ==> LinesStay(s, c))
  {
    var c, placed := CrashSpec(w, s, rd, env, n), Placed(w, s, rd, env);
    var line := w.marshal(placed).value;
    MarshalEncodes(w, placed);
    PlacedAtEnd(w, s, rd, env);
    if n <= |line| {
      PrefixIs(line, n);
      TornTailNotOk(w, s, placed.shardId, line, n);
    } else {
      PrefixIs(line, n);
      GrownFilesOkIff(w, s, c, placed, line);
      GrownLinesStay(w, s, c, placed.shardId, line);
      RowsStayFit(w, s, c);
    }
  }

  /** A death leaves a legible store legible exactly when it leaves nothing or a whole line behind. */
  lemma CrashKeepsLegibleIff(w: World, s: State, rd: Reading, env: Env, n: nat)
    requires Sound(w) && Legible(w, s)
    ensures var c := CrashSpec(w, s, rd, env, n);
      && (Legible(w, c) <==> WholeCrash(w, s, rd, env, n))
      && (WholeCrash(w, s, rd, env, n) ==> LinesStay(s, c)) && c.index == s.index
  {
    if CrashWrites(w, s, rd, env, n) {
      WrittenCrashLegibleIff(w, s, rd, env, n);
    } else {
      UntouchedFiles(w, s, rd, env, n);
      SameFilesOk(w, s, CrashSpec(w, s, rd, env, n));
      RowsStayFit(w, s, CrashSpec(w, s, rd, env, n));
    }
  }

  lemma CrashKeepsRows(w: World, s: State, rd: Reading, env: Env, n: nat)
    requires Sound(w) && Legible(w, s) && WholeCrash(w, s, rd, env, n)
    ensures Legible(w, CrashSpec(w, s, rd, env, n)) && RowsKept(s, CrashSpec(w, s, rd, env, n))
  {
    CrashKeepsLegibleIff(w, s, rd, env, n);
    KeptRows(s, CrashSpec(w, s, rd, env, n));
  }

  lemma RestartKeepsRows(w: World, s: State)
    requires Legible(w, s)
    ensures Legible(w, s.(counts := map[])) && RowsKept(s, s.(counts := map[]))
  {
  }

  // --- Rebuild --------------------------------------------------------------------------------

  lemma ReadableLines(w: World, s: State, unreadable: set<ShardId>, id: ReadingId, sid: ShardId, k: int)
    ensures Names(w, s.files - unreadable, id, sid, k) <==> Names(w, s.files, id, sid, k) && sid !in unreadable
    ensures sid !in unreadable ==> LinesOf(s.files - unreadable, sid) == LinesOf(s.files, sid)
  {
  }

  /** A rebuild, which may meet a clash or skip shards, leaves a legible store legible, and keeps every
      row of a shard it reads. */
  lemma RebuildKeepsLegible(w: World, s: State, unreadable: set<ShardId>, s': State)
    requires Legible(w, s) && RebuildStep(w, s, unreadable, s')
    ensures Legible(w, s') && LinesStay(s, s')
    ensures forall id :: id in s.index && s.index[id].shardId !in unreadable ==> RowKept(s, s', id)
  {
    var files := s.files - unreadable;
    if !Clash(w, files) {
      forall id | id in s'.index
        ensures RowFits(w, s'.files, id, s'.index[id])
      {
        assert RowFits(w, files, id, s'.index[id]);
        ReadableLines(w, s, unreadable, id, s'.index[id].shardId, s'.index[id].lineNo);
      }
      forall id | id in s.index && s.index[id].shardId !in unreadable
        ensures RowKept(s, s', id)
      {
        assert RowFits(w, s.files, id, s.index[id]);
        ReadableLines(w, s, unreadable, id, s.index[id].shardId, s.index[id].lineNo);
        assert RowFits(w, files, id, s'.index[id]);
      }
    }
  }

  lemma SparingRebuildKeepsRows(w: World, s: State, unreadable: set<ShardId>, s': State)
    requires Legible(w, s) && RebuildStep(w, s, unreadable, s')
    requires forall id :: id in s.index ==> s.index[id].shardId !in unreadable
    ensures Legible(w, s') && RowsKept(s, s')
  {
    RebuildKeepsLegible(w, s, unreadable, s');
  }
}
