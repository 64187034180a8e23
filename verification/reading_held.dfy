/** What torn lines cannot touch: a row over an ended line is read for ever, in any file the store can
    come to, whole or not. */
module ReadingHeld {
  import opened Wrappers
  import opened Lines
  import opened ReadingState
  import opened ReadingAgreement
  import opened ReadingLegible
  import opened ReadingTorn

  /** No file has a blank line, though any may end in a torn one. */
  ghost predicate NoBlankLines(files: map<ShardId, Bytes>) {
    forall sid :: sid in files ==> NoBlankLine(files[sid])
  }

  ghost predicate FilesGrow(s: State, s': State) {
    forall sid :: sid in s.files ==> sid in s'.files && s.files[sid] <= s'.files[sid]
  }

  /** The reading's row is this one, which describes an ended line that decodes to the reading. */
  ghost predicate Holds(w: World, s: State, row: IndexRow, rd: Reading) {
    && rd.id in s.index && s.index[rd.id] == row && Shows(row, rd)
    && var line := EndedLine(FileContent(s.files, row.shardId), row.lineNo);
       line.Some? && w.unmarshal(line.value) == Some(rd)
  }

  lemma HeldReads(w: World, s: State, row: IndexRow, rd: Reading)
    requires Holds(w, s, row, rd)
    ensures GetSpec(w, s, rd.id) == Ok(rd)
  {
  }

  ghost predicate RowStays(s: State, s': State, id: ReadingId)
    requires id in s.index
  {
    id in s'.index && s'.index[id] == s.index[id]
  }

  lemma HeldStays(w: World, s: State, s': State, row: IndexRow, rd: Reading)
    requires Holds(w, s, row, rd) && FilesGrow(s, s') && RowStays(s, s', rd.id)
    ensures Holds(w, s', row, rd)
  {
    EndedLineStays(FileContent(s.files, row.shardId), FileContent(s'.files, row.shardId), row.lineNo);
  }

  // --- Writes ---------------------------------------------------------------------------------

  /** Some bytes of a line and its newline, after anything without a blank line, make none. */
  lemma PrefixAddsNoBlankLine(data: Bytes, line: Bytes, n: nat)
    requires NoBlankLine(data) && WellFormedLine(line)
    ensures NoBlankLine(data + Prefix(line + [NL], n))
  {
    var all := data + Prefix(line + [NL], n);
    PrefixIs(line, n);
    forall i | 0 <= i < |all| && all[i] == NL
      ensures i > 0 && all[i - 1] != NL
    {
      if i >= |data| {
        assert i - |data| == |line| && all[i - 1] == line[|line| - 1];
      }
    }
  }

  /** The file with the first bytes of a line and its newline added. */
  ghost predicate StartAdded(s: State, s': State, sid: ShardId, line: Bytes, n: nat) {
    s'.files == s.files[sid := FileContent(s.files, sid) + Prefix(line + [NL], n)]
  }

  lemma StartGrows(s: State, s': State, sid: ShardId, line: Bytes, n: nat)
    requires NoBlankLines(s.files) && WellFormedLine(line) && StartAdded(s, s', sid, line, n)
    ensures NoBlankLines(s'.files) && FilesGrow(s, s')
  {
    PrefixAddsNoBlankLine(FileContent(s.files, sid), line, n);
  }

  /** An append, whatever becomes of it, leaves its file alone or writes the start of a line to it. */
  lemma AppendWrites(w: World, s: State, rd: Reading, env: Env) returns (n: nat)
    ensures var s', placed := AppendSpec(w, s, rd, env).0, Placed(w, s, rd, env);
      s'.files == s.files ||
      (w.marshal(placed).Some? && StartAdded(s, s', placed.shardId, w.marshal(placed).value, n))
  {
    var line := w.marshal(Placed(w, s, rd, env));
    if AppendSucceeds(w, s, rd, env) || (env.undo.Skipped? && env.write.Written?) {
      n := if line.Some? then |line.value| + 1 else 0;
    } else {
      n := if env.undo.Skipped? && env.write.Torn? then env.write.bytes else 0;
    }
  }

  lemma AppendGrows(w: World, s: State, rd: Reading, env: Env)
    requires Sound(w) && NoBlankLines(s.files)
    ensures var s' := AppendSpec(w, s, rd, env).0;
      NoBlankLines(s'.files) && FilesGrow(s, s')
  {
    var n := AppendWrites(w, s, rd, env);
    var s', placed := AppendSpec(w, s, rd, env).0, Placed(w, s, rd, env);
    if s'.files != s.files {
      MarshalEncodes(w, placed);
      StartGrows(s, s', placed.shardId, w.marshal(placed).value, n);
    }
  }

  lemma CrashGrows(w: World, s: State, rd: Reading, env: Env, n: nat)
    requires Sound(w) && NoBlankLines(s.files)
    ensures var c := CrashSpec(w, s, rd, env, n);
      NoBlankLines(c.files) && FilesGrow(s, c) && c.index == s.index
  {
    var c, placed := CrashSpec(w, s, rd, env, n), Placed(w, s, rd, env);
    if env.beginOk && w.marshal(placed).Some? {
      MarshalEncodes(w, placed);
      StartGrows(s, c, placed.shardId, w.marshal(placed).value, n);
    }
  }

  /** The append finds its file ending in a newline, or empty, and rightly counted. */
  ghost predicate LandsWhole(w: World, s: State, rd: Reading, env: Env) {
    var placed := Placed(w, s, rd, env);
    var content := FileContent(s.files, placed.shardId);
    EndsWhole(content) && placed.lineNo == |Segments(content)| - 1
  }

  /** A success that found its file so is held, whatever else is in the file. */
  lemma LandedHolds(w: World, s: State, rd: Reading, env: Env)
    requires Sound(w) && AppendSucceeds(w, s, rd, env) && LandsWhole(w, s, rd, env)
    ensures var (s', stored) := AppendSpec(w, s, rd, env);
      && stored == Some(Placed(w, s, rd, env))
      && Holds(w, s', RowOf(stored.value, stored.value.shardId, stored.value.lineNo), stored.value)
  {
    var placed := Placed(w, s, rd, env);
    MarshalEncodes(w, placed);
    var content, line := FileContent(s.files, placed.shardId), w.marshal(placed).value;
    OpenTailEmptyIff(content);
    GluedLine(content, line);
    assert [] + line == line;
  }

  /** In a legible store every append finds its file so, unless it is miscounted. */
  lemma LegibleLandsWholeIff(w: World, s: State, rd: Reading, env: Env)
    requires Legible(w, s)
    ensures LandsWhole(w, s, rd, env) <==> !Miscounted(s, Placed(w, s, rd, env).shardId, env.recountOk)
  {
    var sid := Placed(w, s, rd, env).shardId;
    NextLineIsCount(w, s, sid, env.recountOk);
    assert sid in s.files ==> FileOk(w, s.files, sid);
    RenderSegments(LinesOf(s.files, sid));
    LastSegmentEmptyIff(FileContent(s.files, sid));
  }

  // --- Rebuild --------------------------------------------------------------------------------

  /** Without blank lines the scanner that rebuilds and the one that reads number an ended line alike. */
  lemma EndedLineIsScanned(files: map<ShardId, Bytes>, sid: ShardId, k: int)
    requires NoBlankLines(files) && EndedLine(FileContent(files, sid), k).Some?
    ensures 0 <= k < |LinesOf(files, sid)| && EndedLine(FileContent(files, sid), k) == Some(LinesOf(files, sid)[k])
  {
    var data := FileContent(files, sid);
    ScannersAgreeIffNoBlankLine(data);
    assert LineAt(data, k) == EndedLine(data, k);
  }

  lemma HeldNames(w: World, s: State, row: IndexRow, rd: Reading)
    requires NoBlankLines(s.files) && Holds(w, s, row, rd)
    ensures Names(w, s.files, rd.id, row.shardId, row.lineNo)
    ensures w.unmarshal(LinesOf(s.files, row.shardId)[row.lineNo]) == Some(rd)
  {
    EndedLineIsScanned(s.files, row.shardId, row.lineNo);
  }

  /** The rebuild goes through without reading this shard. */
  ghost predicate Drops(w: World, s: State, unreadable: set<ShardId>, sid: ShardId) {
    sid in unreadable && !Clash(w, s.files - unreadable)
  }

  /** A rebuild keeps the row of a held reading exactly when it does not drop its shard. */
  lemma RebuildKeepsHeldIff(w: World, s: State, unreadable: set<ShardId>, s': State, row: IndexRow, rd: Reading)
    requires NoBlankLines(s.files) && Holds(w, s, row, rd) && RebuildStep(w, s, unreadable, s')
    ensures RowStays(s, s', rd.id) <==> !Drops(w, s, unreadable, row.shardId)
  {
    var id, files := rd.id, s.files - unreadable;
    if !Clash(w, files) {
      HeldNames(w, s, row, rd);
      ReadableLines(w, s, unreadable, id, row.shardId, row.lineNo);
      if id in s'.index {
        assert RowFits(w, files, id, s'.index[id]);
      }
    }
  }

  /** Whatever the files are, as long as no line is blank, a rebuild that goes through leaves only rows
      that Get follows to the line they describe. */
  lemma RebuiltRowsRead(w: World, s: State, unreadable: set<ShardId>, s': State, id: ReadingId)
    requires NoBlankLines(s.files) && RebuildStep(w, s, unreadable, s') && !Clash(w, s.files - unreadable)
    requires id in s'.index
    ensures var row, got := s'.index[id], GetSpec(w, s', id);
      got.Ok? && got.value.id == id && row == RowOf(got.value, row.shardId, row.lineNo)
  {
    var row := s'.index[id];
    assert RowFits(w, s.files - unreadable, id, row);
    ReadableLines(w, s, unreadable, id, row.shardId, row.lineNo);
    ScannersAgreeIffNoBlankLine(s.files[row.shardId]);
  }
}
