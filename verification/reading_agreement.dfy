/** One step at a time: what keeps the files, the cache, the index and the manifest in agreement. */
module ReadingAgreement {
  import opened Lines
  import opened Checksum
  import opened ReadingState

  lemma MarshalEncodes(w: World, rd: Reading)
    requires Sound(w) && w.marshal(rd).Some?
    ensures Encodes(w, w.marshal(rd).value, rd)
  {
  }

  // --- Append ---------------------------------------------------------------------------------

  lemma EmptyAgrees(w: World)
    ensures Agree(w, EMPTY)
  {
  }

  /** A file with lines, not in the cache, that cannot be read when Begin wants to count it. */
  ghost predicate Miscounted(s: State, sid: ShardId, recountOk: bool) {
    sid in s.files && !(sid in s.counts && s.counts[sid] >= 0) && !recountOk && LinesOf(s.files, sid) != []
  }

  /** The line number handed out is the number of lines, cached or recounted, or zero for a miscount. */
  lemma NextLineIsCount(w: World, s: State, sid: ShardId, recountOk: bool)
    requires FilesOk(w, s)
    ensures NextLine(s.files, s.counts, sid, recountOk)
         == if Miscounted(s, sid, recountOk) then 0 else |LinesOf(s.files, sid)|
  {
    if sid in s.files {
      assert FileOk(w, s.files, sid);
      RenderRoundTrip(LinesOf(s.files, sid));
    }
  }

  /** Adding one complete line to a file of complete lines. */
  lemma GrowFile(w: World, files: map<ShardId, Bytes>, sid: ShardId, line: Bytes)
    requires sid in files ==> FileOk(w, files, sid)
    requires WellFormedLine(line)
    ensures var files' := files[sid := FileContent(files, sid) + (line + [NL])];
      && LinesOf(files', sid) == LinesOf(files, sid) + [line]
      && files'[sid] == Render(LinesOf(files, sid) + [line])
      && forall other :: other != sid ==> LinesOf(files', other) == LinesOf(files, other)
  {
    var lines := LinesOf(files, sid);
    assert FileContent(files, sid) == Render(lines);
    RenderSnoc(lines, line);
    RenderRoundTrip(lines + [line]);
  }

  lemma GrownFileOk(w: World, files: map<ShardId, Bytes>, sid: ShardId, line: Bytes)
    requires sid in files ==> FileOk(w, files, sid)
    requires WellFormedLine(line) && SelfDescribing(w, line, sid, |LinesOf(files, sid)|)
    ensures FileOk(w, files[sid := FileContent(files, sid) + (line + [NL])], sid)
  {
    var files' := files[sid := FileContent(files, sid) + (line + [NL])];
    var lines := LinesOf(files, sid);
    GrowFile(w, files, sid, line);
    assert LinesOf(files', sid) == lines + [line];
    assert sid !in files ==> lines == [];
    assert WellFormedLines(lines + [line]);
    forall k | 0 <= k < |lines + [line]|
      ensures SelfDescribing(w, (lines + [line])[k], sid, k)
    {
    }
  }

  /** The grown file's lines name what they named before, and the new line names its reading. */
  lemma GrownNames(w: World, files: map<ShardId, Bytes>, sid: ShardId, line: Bytes, rd: Reading,
                   id: ReadingId, at: ShardId, k: int)
    requires sid in files ==> FileOk(w, files, sid)
    requires Encodes(w, line, rd)
    ensures var files' := files[sid := FileContent(files, sid) + (line + [NL])];
      && (Names(w, files', id, at, k) <==>
            Names(w, files, id, at, k) || (at == sid && k == |LinesOf(files, sid)| && id == rd.id))
      && (Names(w, files, id, at, k) ==> LinesOf(files', at)[k] == LinesOf(files, at)[k])
  {
    GrowFile(w, files, sid, line);
  }

  lemma TwoNames(w: World, files: map<ShardId, Bytes>, id: ReadingId, sid: ShardId, k: int, sid': ShardId, k': int)
    requires Names(w, files, id, sid, k) && Names(w, files, id, sid', k') && (sid, k) != (sid', k')
    ensures Clash(w, files)
  {
  }

  lemma GrownRowFits(w: World, files: map<ShardId, Bytes>, sid: ShardId, line: Bytes, rd: Reading,
                     id: ReadingId, row: IndexRow)
    requires sid in files ==> FileOk(w, files, sid)
    requires Encodes(w, line, rd)
    requires RowFits(w, files, id, row) || (id == rd.id && row == RowOf(rd, sid, |LinesOf(files, sid)|))
    ensures RowFits(w, files[sid := FileContent(files, sid) + (line + [NL])], id, row)
  {
    GrowFile(w, files, sid, line);
    GrownNames(w, files, sid, line, rd, id, row.shardId, row.lineNo);
  }

  lemma GrownIndexMatches(w: World, files: map<ShardId, Bytes>, index: map<ReadingId, IndexRow>,
                          sid: ShardId, line: Bytes, rd: Reading)
    requires sid in files ==> FileOk(w, files, sid)
    requires IndexMatches(w, files, index)
    requires Encodes(w, line, rd) && rd.id !in index
    ensures IndexMatches(w, files[sid := FileContent(files, sid) + (line + [NL])],
                         index[rd.id := RowOf(rd, sid, |LinesOf(files, sid)|)])
  {
    var files' := files[sid := FileContent(files, sid) + (line + [NL])];
    var index' := index[rd.id := RowOf(rd, sid, |LinesOf(files, sid)|)];
    forall id | id in index'
      ensures RowFits(w, files', id, index'[id])
    {
      assert id != rd.id ==> RowFits(w, files, id, index[id]);
      GrownRowFits(w, files, sid, line, rd, id, index'[id]);
    }
    forall id, at, k | Names(w, files', id, at, k)
      ensures id in index' && index'[id].shardId == at && index'[id].lineNo == k
    {
      GrownNames(w, files, sid, line, rd, id, at, k);
    }
  }

  lemma GrownManifestRow(w: World, s: State, sid: ShardId, line: Bytes)
    requires sid in s.files ==> FileOk(w, s.files, sid)
    requires ManifestMatches(w, s.files, s.manifest)
    requires WellFormedLine(line)
    ensures ManifestRowFits(w, s.files[sid := FileContent(s.files, sid) + (line + [NL])], sid,
                            NextManifest(w, s, sid, line))
  {
    GrowFile(w, s.files, sid, line);
    FoldSnoc(w.hash, LinesOf(s.files, sid), line);
    if sid in s.manifest {
      assert ManifestRowFits(w, s.files, sid, s.manifest[sid]);
    } else {
      assert LinesOf(s.files, sid) == [];
    }
  }

  lemma OneManifestRow(w: World, files: map<ShardId, Bytes>, files': map<ShardId, Bytes>,
                       manifest: map<ShardId, ManifestRow>, sid: ShardId, row: ManifestRow)
    requires ManifestMatches(w, files, manifest)
    requires files'.Keys == files.Keys + {sid}
    requires forall other :: other != sid ==> LinesOf(files', other) == LinesOf(files, other)
    requires ManifestRowFits(w, files', sid, row)
    ensures ManifestMatches(w, files', manifest[sid := row])
  {
    var manifest' := manifest[sid := row];
    forall other | other in manifest'
      ensures other in files' && ManifestRowFits(w, files', other, manifest'[other])
    {
      assert other != sid ==> ManifestRowFits(w, files, other, manifest[other]);
    }
    forall other | other in files' && other !in manifest'
      ensures LinesOf(files', other) == []
    {
      assert other != sid && LinesOf(files', other) == LinesOf(files, other);
    }
  }

  lemma GrownManifestMatches(w: World, s: State, sid: ShardId, line: Bytes)
    requires sid in s.files ==> FileOk(w, s.files, sid)
    requires ManifestMatches(w, s.files, s.manifest)
    requires WellFormedLine(line)
    ensures ManifestMatches(w, s.files[sid := FileContent(s.files, sid) + (line + [NL])],
                            s.manifest[sid := NextManifest(w, s, sid, line)])
  {
    var files' := s.files[sid := FileContent(s.files, sid) + (line + [NL])];
    GrowFile(w, s.files, sid, line);
    GrownManifestRow(w, s, sid, line);
    OneManifestRow(w, s.files, files', s.manifest, sid, NextManifest(w, s, sid, line));
  }

  lemma GrownFilesOk(w: World, s: State, s': State, sid: ShardId, line: Bytes)
    requires FilesOk(w, s)
    requires WellFormedLine(line) && SelfDescribing(w, line, sid, |LinesOf(s.files, sid)|)
    requires s'.files == s.files[sid := FileContent(s.files, sid) + (line + [NL])]
    requires s'.counts == s.counts[sid := |LinesOf(s.files, sid)| + 1]
    ensures AllFilesOk(w, s'.files) && CountsOk(s')
  {
    assert sid in s.files ==> FileOk(w, s.files, sid);
    GrowFile(w, s.files, sid, line);
    GrownFileOk(w, s.files, sid, line);
    forall other | other in s'.files
      ensures FileOk(w, s'.files, other)
    {
      assert other != sid ==> FileOk(w, s.files, other);
    }
    forall other | other in s'.counts
      ensures s'.counts[other] == |LinesOf(s'.files, other)|
    {
      assert other != sid ==> LinesOf(s'.files, other) == LinesOf(s.files, other);
    }
  }

  ghost predicate Appendable(w: World, s: State, placed: Reading, line: Bytes) {
    && Agree(w, s) && Encodes(w, line, placed)
    && placed.lineNo == |LinesOf(s.files, placed.shardId)| && placed.id !in s.index
  }

  lemma AppendedFilesOk(w: World, s: State, placed: Reading, line: Bytes)
    requires Appendable(w, s, placed, line)
    ensures FilesOk(w, Appended(w, s, placed, line))
  {
    GrownFilesOk(w, s, Appended(w, s, placed, line), placed.shardId, line);
  }

  lemma AppendedIndexMatches(w: World, s: State, placed: Reading, line: Bytes)
    requires Appendable(w, s, placed, line)
    ensures var s' := Appended(w, s, placed, line); IndexMatches(w, s'.files, s'.index)
  {
    assert placed.shardId in s.files ==> FileOk(w, s.files, placed.shardId);
    GrownIndexMatches(w, s.files, s.index, placed.shardId, line, placed);
  }

  lemma AppendedManifestMatches(w: World, s: State, placed: Reading, line: Bytes)
    requires Appendable(w, s, placed, line)
    ensures var s' := Appended(w, s, placed, line); ManifestMatches(w, s'.files, s'.manifest)
  {
    assert placed.shardId in s.files ==> FileOk(w, s.files, placed.shardId);
    GrownManifestMatches(w, s, placed.shardId, line);
  }

  lemma AppendedStateAgrees(w: World, s: State, placed: Reading, line: Bytes)
    requires Appendable(w, s, placed, line)
    ensures Agree(w, Appended(w, s, placed, line))
  {
    AppendedFilesOk(w, s, placed, line);
    AppendedIndexMatches(w, s, placed, line);
    AppendedManifestMatches(w, s, placed, line);
  }

  lemma SameContentSameLines(files: map<ShardId, Bytes>, files': map<ShardId, Bytes>, sid: ShardId)
    requires FileContent(files', sid) == FileContent(files, sid)
    ensures LinesOf(files', sid) == LinesOf(files, sid)
  {
    assert ScanLines([]) == [];
  }

  /** Files that say the same, line by line, keep whatever agreed with them. */
  lemma SameLinesAgree(w: World, s: State, s': State)
    requires Agree(w, s)
    requires s'.index == s.index && s'.manifest == s.manifest
    requires forall sid :: sid in s'.counts ==> s'.counts[sid] == |LinesOf(s.files, sid)|
    requires s.files.Keys <= s'.files.Keys
    requires forall sid :: FileContent(s'.files, sid) == FileContent(s.files, sid)
    ensures Agree(w, s')
  {
    SameFilesOk(w, s, s');
    forall id | id in s'.index
      ensures RowFits(w, s'.files, id, s'.index[id])
    {
      assert RowFits(w, s.files, id, s.index[id]);
    }
    forall id, sid, k | Names(w, s'.files, id, sid, k)
      ensures id in s'.index && s'.index[id].shardId == sid && s'.index[id].lineNo == k
    {
      assert Names(w, s.files, id, sid, k);
    }
    forall sid | sid in s'.manifest
      ensures sid in s'.files && ManifestRowFits(w, s'.files, sid, s'.manifest[sid])
    {
      assert ManifestRowFits(w, s.files, sid, s.manifest[sid]);
    }
  }

  // --- What an append leaves behind ---------------------------------------------------------------

  /** The line is given number zero in a file that has lines already. */
  ghost predicate Misplaces(w: World, s: State, rd: Reading, env: Env) {
    env.beginOk && Miscounted(s, Placed(w, s, rd, env).shardId, env.recountOk)
  }

  /** Bytes an append left behind when it failed and its rollback got nowhere. */
  ghost predicate LeavesResidue(w: World, s: State, rd: Reading, env: Env) {
    var landed := Landed(w, s, rd, env);
    !AppendSucceeds(w, s, rd, env) && env.undo.Skipped? && landed.Some? && landed.value != []
  }

  /** The line was cut off again, but the cache still counts it. */
  ghost predicate KeepsCache(w: World, s: State, rd: Reading, env: Env) {
    !AppendSucceeds(w, s, rd, env) && Completes(w, s, rd, env) && env.undo.CutOnly?
  }

  /** The cache is right afterwards: no miscount and no line still counted, or the one making up for the
      other over a file of a single line. */
  ghost predicate CacheRight(w: World, s: State, rd: Reading, env: Env) {
    if KeepsCache(w, s, rd, env) then Misplaces(w, s, rd, env) && |LinesOf(s.files, Placed(w, s, rd, env).shardId)| == 1
    else !Misplaces(w, s, rd, env)
  }

  ghost predicate CleanAppend(w: World, s: State, rd: Reading, env: Env) {
    !LeavesResidue(w, s, rd, env) && CacheRight(w, s, rd, env)
  }

  /** What is left behind, if anything, is a whole line that knows its place. */
  ghost predicate WholeAppend(w: World, s: State, rd: Reading, env: Env) {
    if LeavesResidue(w, s, rd, env) then Completes(w, s, rd, env) && !Misplaces(w, s, rd, env)
    else CacheRight(w, s, rd, env)
  }

  lemma PlacedAtEnd(w: World, s: State, rd: Reading, env: Env)
    requires FilesOk(w, s) && env.beginOk
    ensures var placed := Placed(w, s, rd, env);
      && placed.lineNo == (if Misplaces(w, s, rd, env) then 0 else |LinesOf(s.files, placed.shardId)|)
      && (placed.lineNo == |LinesOf(s.files, placed.shardId)| <==> !Misplaces(w, s, rd, env))
  {
    NextLineIsCount(w, s, Placed(w, s, rd, env).shardId, env.recountOk);
  }

  lemma AppendedAgrees(w: World, s: State, rd: Reading, env: Env)
    requires Sound(w) && Agree(w, s) && AppendSucceeds(w, s, rd, env) && !Misplaces(w, s, rd, env)
    ensures Agree(w, AppendSpec(w, s, rd, env).0)
  {
    var placed := Placed(w, s, rd, env);
    PlacedAtEnd(w, s, rd, env);
    MarshalEncodes(w, placed);
    AppendedStateAgrees(w, s, placed, w.marshal(placed).value);
  }

  /** A failed append without residue changes at most the cache. */
  lemma AbandonedState(w: World, s: State, rd: Reading, env: Env)
    requires env.beginOk && !AppendSucceeds(w, s, rd, env) && !LeavesResidue(w, s, rd, env)
    ensures var s', placed := Abandoned(w, s, rd, env), Placed(w, s, rd, env);
      && s'.index == s.index && s'.manifest == s.manifest
      && s'.counts == s.counts[placed.shardId := placed.lineNo + if KeepsCache(w, s, rd, env) then 1 else 0]
      && s.files.Keys <= s'.files.Keys
      && forall any :: FileContent(s'.files, any) == FileContent(s.files, any)
  {
    var sid := Placed(w, s, rd, env).shardId;
    assert FileContent(s.files, sid) + [] == FileContent(s.files, sid);
  }

  lemma SameFilesOk(w: World, s: State, s': State)
    requires AllFilesOk(w, s.files)
    requires s.files.Keys <= s'.files.Keys
    requires forall sid :: FileContent(s'.files, sid) == FileContent(s.files, sid)
    ensures forall sid :: LinesOf(s'.files, sid) == LinesOf(s.files, sid)
    ensures AllFilesOk(w, s'.files)
  {
    forall sid
      ensures LinesOf(s'.files, sid) == LinesOf(s.files, sid)
    {
      SameContentSameLines(s.files, s'.files, sid);
    }
    forall sid | sid in s'.files
      ensures FileOk(w, s'.files, sid)
    {
      assert sid in s.files ==> FileOk(w, s.files, sid);
      assert FileContent(s'.files, sid) == FileContent(s.files, sid);
    }
  }

  /** Without residue everything depends on what the cache says afterwards. */
  lemma AbandonedCounts(w: World, s: State, rd: Reading, env: Env)
    requires FilesOk(w, s) && env.beginOk && !AppendSucceeds(w, s, rd, env) && !LeavesResidue(w, s, rd, env)
    ensures var s' := Abandoned(w, s, rd, env);
      && (forall sid :: LinesOf(s'.files, sid) == LinesOf(s.files, sid))
      && AllFilesOk(w, s'.files)
      && (CountsOk(s') <==> CacheRight(w, s, rd, env))
  {
    var placed := Placed(w, s, rd, env);
    AbandonedState(w, s, rd, env);
    SameContents(w, s, Abandoned(w, s, rd, env), placed.shardId,
                 placed.lineNo + if KeepsCache(w, s, rd, env) then 1 else 0);
    PlacedAtEnd(w, s, rd, env);
  }

  /** The same files under another count of one of them. */
  lemma SameContents(w: World, s: State, s': State, sid: ShardId, count: int)
    requires FilesOk(w, s) && s'.counts == s.counts[sid := count] && s.files.Keys <= s'.files.Keys
    requires forall any :: FileContent(s'.files, any) == FileContent(s.files, any)
    ensures forall any :: LinesOf(s'.files, any) == LinesOf(s.files, any)
    ensures AllFilesOk(w, s'.files) && (CountsOk(s') <==> count == |LinesOf(s.files, sid)|)
  {
    SameFilesOk(w, s, s');
    OneCount(s, s', sid, count);
  }

  lemma OneCount(s: State, s': State, sid: ShardId, count: int)
    requires CountsOk(s) && s'.counts == s.counts[sid := count]
    requires forall any :: LinesOf(s'.files, any) == LinesOf(s.files, any)
    ensures CountsOk(s') <==> count == |LinesOf(s.files, sid)|
  {
    assert sid in s'.counts && s'.counts[sid] == count;
  }

  lemma AbandonedAgrees(w: World, s: State, rd: Reading, env: Env)
    requires Agree(w, s) && !AppendSucceeds(w, s, rd, env) && CleanAppend(w, s, rd, env)
    ensures Agree(w, AppendSpec(w, s, rd, env).0)
  {
    if env.beginOk {
      AbandonedState(w, s, rd, env);
      AbandonedCounts(w, s, rd, env);
      SameLinesAgree(w, s, Abandoned(w, s, rd, env));
    }
  }
}
