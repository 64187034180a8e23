/** What agreement buys: verification accepts exactly the recorded lines, a rebuild restores the tables,
    and what a crash, a miscount or an unfinished rollback does is known exactly. */
module ReadingTheorems {
  import opened Wrappers
  import opened Lines
  import opened Checksum
  import opened ReadingState
  import opened ReadingAgreement
  import opened ReadingLegible

  // --- Failures that stay on disk ---------------------------------------------------------------

  /** One more scanned line than the tables know of. */
  lemma ExtraLineDisagrees(w: World, s: State, s': State, sid: ShardId)
    requires ManifestMatches(w, s.files, s.manifest) && s'.manifest == s.manifest && sid in s'.files
    requires |LinesOf(s'.files, sid)| == |LinesOf(s.files, sid)| + 1
    ensures !ManifestMatches(w, s'.files, s'.manifest)
    ensures !VerifiesOk(w, s', sid)
  {
    if sid in s.manifest {
      var m := s.manifest[sid];
      assert ManifestRowFits(w, s.files, sid, m);
      assert m.count != |LinesOf(s'.files, sid)|;
      assert !ManifestRowFits(w, s'.files, sid, m);
    }
  }

  /** Whatever part of a line lands after complete lines, the scanners see one line more. */
  lemma ResidueAddsLine(w: World, s: State, sid: ShardId, line: Bytes, n: nat)
    requires AllFilesOk(w, s.files) && WellFormedLine(line)
    ensures |ScanLines(FileContent(s.files, sid) + Prefix(line + [NL], n))| ==
      |LinesOf(s.files, sid)| + if n == 0 then 0 else 1
  {
    assert sid in s.files ==> FileOk(w, s.files, sid);
    var lines := LinesOf(s.files, sid);
    assert FileContent(s.files, sid) == Render(lines);
    var written := if n < |line + [NL]| then n else |line + [NL]|;
    assert Prefix(line + [NL], n) == (line + [NL])[..written];
    TornWrite(lines, line, written);
  }

  /** An append keeps the agreement exactly when it leaves no bytes behind after failing and the cache is
      right afterwards: no miscounted file, and no line cut off but still counted. */
  lemma AppendKeepsAgreementIff(w: World, s: State, rd: Reading, env: Env)
    requires Sound(w) && Agree(w, s)
    ensures Agree(w, AppendSpec(w, s, rd, env).0) <==> CleanAppend(w, s, rd, env)
  {
    if LeavesResidue(w, s, rd, env) {
      ResidueDisagrees(w, s, rd, env);
    } else if CleanAppend(w, s, rd, env) {
      CleanAppendAgrees(w, s, rd, env);
    } else {
      AppendKeepsLegibleIff(w, s, rd, env);
    }
  }

  lemma CleanAppendAgrees(w: World, s: State, rd: Reading, env: Env)
    requires Sound(w) && Agree(w, s) && CleanAppend(w, s, rd, env)
    ensures Agree(w, AppendSpec(w, s, rd, env).0)
  {
    if AppendSucceeds(w, s, rd, env) {
      AppendedAgrees(w, s, rd, env);
    } else {
      AbandonedAgrees(w, s, rd, env);
    }
  }

  lemma ResidueDisagrees(w: World, s: State, rd: Reading, env: Env)
    requires Sound(w) && Agree(w, s) && LeavesResidue(w, s, rd, env)
    ensures !Agree(w, AppendSpec(w, s, rd, env).0)
  {
    var placed := Placed(w, s, rd, env);
    var sid, line := placed.shardId, w.marshal(placed).value;
    MarshalEncodes(w, placed);
    var n := if env.write.Torn? then env.write.bytes else |line| + 1;
    PrefixIs(line, n);
    assert Landed(w, s, rd, env).value == Prefix(line + [NL], n);
    ResidueAddsLine(w, s, sid, line, n);
    ExtraLineDisagrees(w, s, Abandoned(w, s, rd, env), sid);
  }

  /** A miscounted append that meets no other failure reports success, and Get of its id answers with the
      first reading of the shard, which is another one. */
  lemma MiscountMisreads(w: World, s: State, rd: Reading, env: Env)
    requires Sound(w) && Agree(w, s) && AppendSucceeds(w, s, rd, env) && Misplaces(w, s, rd, env)
    ensures var (s', stored) := AppendSpec(w, s, rd, env);
      && stored.Some? && stored.value.lineNo == 0
      && var got := GetSpec(w, s', stored.value.id);
         got.Ok? && got.value.id != stored.value.id && got.value.id in s.index
  {
    var placed := Placed(w, s, rd, env);
    MarshalEncodes(w, placed);
    PlacedAtEnd(w, s, rd, env);
    FirstLineNames(w, s, placed.shardId);
    FirstLineStays(w, s, placed.shardId, w.marshal(placed).value);
  }

  lemma FirstLineStays(w: World, s: State, sid: ShardId, line: Bytes)
    requires AllFilesOk(w, s.files) && LinesOf(s.files, sid) != [] && WellFormedLine(line)
    ensures LineAt(FileContent(s.files, sid) + (line + [NL]), 0) == Some(LinesOf(s.files, sid)[0])
  {
    assert FileOk(w, s.files, sid);
    GrowFile(w, s.files, sid, line);
    WholeLines(LinesOf(s.files, sid), line);
    RenderRoundTrip(LinesOf(s.files, sid) + [line]);
  }

  /** So in agreement an append that reports success reads back exactly when it was not miscounted. */
  lemma SuccessReadsBackIff(w: World, s: State, rd: Reading, env: Env)
    requires Sound(w) && Agree(w, s) && AppendSucceeds(w, s, rd, env)
    ensures var (s', stored) := AppendSpec(w, s, rd, env);
      stored.Some? && (GetSpec(w, s', stored.value.id) == Ok(stored.value) <==> !Misplaces(w, s, rd, env))
  {
    if Misplaces(w, s, rd, env) {
      MiscountMisreads(w, s, rd, env);
    } else {
      GetAfterAppend(w, s, rd, env);
    }
  }

  // --- Rebuild --------------------------------------------------------------------------------

  /** The files determine the index. */
  lemma IndexUnique(w: World, files: map<ShardId, Bytes>, a: map<ReadingId, IndexRow>, b: map<ReadingId, IndexRow>)
    requires IndexMatches(w, files, a) && IndexMatches(w, files, b)
    ensures a == b
  {
    forall id | id in a
      ensures id in b && a[id] == b[id]
    {
      assert RowFits(w, files, id, a[id]);
      assert RowFits(w, files, id, b[id]);
    }
    forall id | id in b
      ensures id in a
    {
      assert RowFits(w, files, id, b[id]);
    }
  }

  lemma MatchedFilesDoNotClash(w: World, files: map<ShardId, Bytes>, index: map<ReadingId, IndexRow>)
    requires IndexMatches(w, files, index)
    ensures !Clash(w, files)
  {
  }

  ghost predicate SkipsNoLines(s: State, unreadable: set<ShardId>) {
    forall sid :: sid in unreadable ==> LinesOf(s.files, sid) == []
  }

  /** Two lines that carry this id. */
  ghost predicate NamedAt(w: World, files: map<ShardId, Bytes>, id: ReadingId, a: (ShardId, int), b: (ShardId, int)) {
    Names(w, files, id, a.0, a.1) && Names(w, files, id, b.0, b.1) && a != b
  }

  lemma ClashIsNamed(w: World, files: map<ShardId, Bytes>)
    ensures Clash(w, files) <==> exists id, a, b :: NamedAt(w, files, id, a, b)
  {
    if Clash(w, files) {
      var id, sid, k, sid', k' :|
        Names(w, files, id, sid, k) && Names(w, files, id, sid', k') && (sid, k) != (sid', k');
      assert NamedAt(w, files, id, (sid, k), (sid', k'));
    }
    if id, a, b :| NamedAt(w, files, id, a, b) {
      TwoNames(w, files, id, a.0, a.1, b.0, b.1);
    }
  }

  lemma ReadableClash(w: World, s: State, unreadable: set<ShardId>)
    ensures Clash(w, s.files - unreadable) ==> Clash(w, s.files)
    ensures SkipsNoLines(s, unreadable) ==> (Clash(w, s.files) ==> Clash(w, s.files - unreadable))
  {
    ClashIsNamed(w, s.files);
    ClashIsNamed(w, s.files - unreadable);
    forall id, a, b
      ensures NamedAt(w, s.files - unreadable, id, a, b) ==> NamedAt(w, s.files, id, a, b)
      ensures SkipsNoLines(s, unreadable) && NamedAt(w, s.files, id, a, b) ==>
                NamedAt(w, s.files - unreadable, id, a, b)
    {
      ReadableLines(w, s, unreadable, id, a.0, a.1);
      ReadableLines(w, s, unreadable, id, b.0, b.1);
    }
  }

  lemma FullRebuildIndex(w: World, s: State, unreadable: set<ShardId>, index: map<ReadingId, IndexRow>)
    requires SkipsNoLines(s, unreadable) && IndexMatches(w, s.files - unreadable, index)
    ensures IndexMatches(w, s.files, index)
  {
    forall id | id in index
      ensures RowFits(w, s.files, id, index[id])
    {
      assert RowFits(w, s.files - unreadable, id, index[id]);
      ReadableLines(w, s, unreadable, id, index[id].shardId, index[id].lineNo);
    }
    forall id, sid, k | Names(w, s.files, id, sid, k)
      ensures id in index && index[id].shardId == sid && index[id].lineNo == k
    {
      ReadableLines(w, s, unreadable, id, sid, k);
    }
  }

  lemma FullRebuildManifest(w: World, s: State, unreadable: set<ShardId>, manifest: map<ShardId, ManifestRow>)
    requires SkipsNoLines(s, unreadable) && manifest.Keys == (s.files - unreadable).Keys
    requires forall sid :: sid in manifest ==> ManifestRowFits(w, s.files - unreadable, sid, manifest[sid])
    ensures ManifestMatches(w, s.files, manifest)
  {
    forall sid | sid in manifest
      ensures sid in s.files && ManifestRowFits(w, s.files, sid, manifest[sid])
    {
      assert ManifestRowFits(w, s.files - unreadable, sid, manifest[sid]);
      assert LinesOf(s.files - unreadable, sid) == LinesOf(s.files, sid);
    }
  }

  /** A rebuild never indexes a shard it could not read, so it loses the rows of one that has lines. */
  lemma SkippingLosesRows(w: World, s: State, unreadable: set<ShardId>, s': State, u: ShardId)
    requires FilesOk(w, s) && RebuildStep(w, s, unreadable, s') && !Clash(w, s.files - unreadable)
    requires u in unreadable && LinesOf(s.files, u) != []
    ensures !Agree(w, s')
  {
    forall id | id in s'.index
      ensures s'.index[id].shardId != u
    {
      assert RowFits(w, s.files - unreadable, id, s'.index[id]);
    }
    FirstLineNames(w, s, u);
  }

  lemma FirstLineNames(w: World, s: State, sid: ShardId)
    requires AllFilesOk(w, s.files) && LinesOf(s.files, sid) != []
    ensures var rd := w.unmarshal(LinesOf(s.files, sid)[0]);
      rd.Some? && Names(w, s.files, rd.value.id, sid, 0)
  {
    assert FileOk(w, s.files, sid);
    assert SelfDescribing(w, LinesOf(s.files, sid)[0], sid, 0);
  }

  /** Whatever the tables held before, stale, missing or extra rows, a rebuild over good files brings
      back the agreement exactly when no two lines share an id and every shard with lines is read. */
  lemma RebuildRestoresIff(w: World, s: State, unreadable: set<ShardId>, s': State)
    requires FilesOk(w, s) && RebuildStep(w, s, unreadable, s')
    ensures Agree(w, s') <==> !Clash(w, s.files) && SkipsNoLines(s, unreadable)
  {
    ReadableClash(w, s, unreadable);
    if Clash(w, s.files - unreadable) {
      if Agree(w, s') {
        MatchedFilesDoNotClash(w, s.files, s'.index);
      }
    } else if SkipsNoLines(s, unreadable) {
      FullRebuildIndex(w, s, unreadable, s'.index);
      FullRebuildManifest(w, s, unreadable, s'.manifest);
    } else {
      var u :| u in unreadable && LinesOf(s.files, u) != [];
      SkippingLosesRows(w, s, unreadable, s', u);
    }
  }

  /** In agreement a rebuild meets no clash and gives the very rows the appends built. */
  lemma RebuildEqualsIncremental(w: World, s: State, s': State)
    requires Agree(w, s) && RebuildStep(w, s, {}, s')
    ensures !Clash(w, s.files) && s'.index == s.index
    ensures forall sid :: sid in s.manifest ==> sid in s'.manifest && s'.manifest[sid] == s.manifest[sid]
    ensures forall sid :: sid in s'.manifest && LinesOf(s.files, sid) != [] ==> sid in s.manifest
  {
    MatchedFilesDoNotClash(w, s.files, s.index);
    assert s.files - {} == s.files;
    IndexUnique(w, s.files, s'.index, s.index);
    SameManifestRows(w, s, s'.manifest);
  }

  lemma SameManifestRows(w: World, s: State, manifest: map<ShardId, ManifestRow>)
    requires ManifestMatches(w, s.files, s.manifest) && manifest.Keys == s.files.Keys
    requires forall sid :: sid in manifest ==> ManifestRowFits(w, s.files, sid, manifest[sid])
    ensures forall sid :: sid in s.manifest ==> sid in manifest && manifest[sid] == s.manifest[sid]
    ensures forall sid :: sid in manifest && LinesOf(s.files, sid) != [] ==> sid in s.manifest
  {
    forall sid | sid in s.manifest
      ensures sid in manifest && manifest[sid] == s.manifest[sid]
    {
      assert ManifestRowFits(w, s.files, sid, s.manifest[sid]);
      assert ManifestRowFits(w, s.files, sid, manifest[sid]);
    }
  }

  lemma FullRebuildKeepsIndex(w: World, s: State, unreadable: set<ShardId>, s': State)
    requires Agree(w, s) && RebuildStep(w, s, unreadable, s') && SkipsNoLines(s, unreadable)
    ensures s'.index == s.index
  {
    MatchedFilesDoNotClash(w, s.files, s.index);
    RebuildRestoresIff(w, s, unreadable, s');
    IndexUnique(w, s.files, s.index, s'.index);
  }

  // --- Crashes --------------------------------------------------------------------------------

  /** Verification of the shard notices every crash that left a byte behind. */
  lemma VerifyNoticesCrash(w: World, s: State, sid: ShardId, line: Bytes, n: nat)
    requires Agree(w, s) && sid in s.manifest && WellFormedLine(line)
    ensures VerifiesOk(w, Crashed(s, sid, line, n), sid) <==> n == 0
  {
    if n == 0 {
      EmptyCrashAgrees(w, s, sid, line);
      HealthyShardVerifies(w, Crashed(s, sid, line, n), sid);
    } else {
      ResidueAddsLine(w, s, sid, line, n);
      ExtraLineDisagrees(w, s, Crashed(s, sid, line, n), sid);
    }
  }

  lemma CrashDisagrees(w: World, s: State, rd: Reading, env: Env, n: nat)
    requires Sound(w) && Agree(w, s) && CrashWrites(w, s, rd, env, n)
    ensures !Agree(w, CrashSpec(w, s, rd, env, n))
  {
    var placed := Placed(w, s, rd, env);
    MarshalEncodes(w, placed);
    ResidueAddsLine(w, s, placed.shardId, w.marshal(placed).value, n);
    ExtraLineDisagrees(w, s, CrashSpec(w, s, rd, env, n), placed.shardId);
  }

  /** A death inside an append keeps the agreement exactly when no byte was written. */
  lemma CrashKeepsAgreementIff(w: World, s: State, rd: Reading, env: Env, n: nat)
    requires Sound(w) && Agree(w, s)
    ensures Agree(w, CrashSpec(w, s, rd, env, n)) <==> !CrashWrites(w, s, rd, env, n)
  {
    if CrashWrites(w, s, rd, env, n) {
      CrashDisagrees(w, s, rd, env, n);
    } else {
      UntouchedFiles(w, s, rd, env, n);
      SameLinesAgree(w, s, CrashSpec(w, s, rd, env, n));
    }
  }

  /** The files after a crash that left the whole line are those of the append that never returned. */
  lemma WholeCrashFiles(w: World, s: State, placed: Reading, line: Bytes, n: nat)
    requires Appendable(w, s, placed, line) && n > |line|
    ensures var c, a := Crashed(s, placed.shardId, line, n), Appended(w, s, placed, line);
      && c.files == a.files && FilesOk(w, c) && IndexMatches(w, c.files, a.index)
  {
    PrefixIs(line, n);
    AppendedStateAgrees(w, s, placed, line);
  }

  lemma EmptyCrashAgrees(w: World, s: State, sid: ShardId, line: Bytes)
    requires Agree(w, s)
    ensures Agree(w, Crashed(s, sid, line, 0))
  {
    var content := FileContent(s.files, sid);
    assert Prefix(line + [NL], 0) == [] && content + [] == content;
    UntouchedAgrees(w, s, Crashed(s, sid, line, 0), sid);
  }

  lemma UntouchedAgrees(w: World, s: State, c: State, sid: ShardId)
    requires Agree(w, s) && c == s.(files := s.files[sid := FileContent(s.files, sid)], counts := map[])
    ensures Agree(w, c)
  {
    SameLinesAgree(w, s, c);
  }

  /** A whole line with an id that is indexed already stands in the way of the rebuild. */
  lemma RepeatedIdClashes(w: World, s: State, placed: Reading, line: Bytes, files: map<ShardId, Bytes>)
    requires Agree(w, s) && Encodes(w, line, placed) && placed.id in s.index
    requires files == s.files[placed.shardId := FileContent(s.files, placed.shardId) + (line + [NL])]
    ensures Clash(w, files)
  {
    var sid, row := placed.shardId, s.index[placed.id];
    assert sid in s.files ==> FileOk(w, s.files, sid);
    assert RowFits(w, s.files, placed.id, row);
    NamedTwice(w, s.files, files, placed, line, row.shardId, row.lineNo);
  }

  lemma NamedTwice(w: World, files: map<ShardId, Bytes>, files': map<ShardId, Bytes>, rd: Reading, line: Bytes,
                   at: ShardId, k: int)
    requires (rd.shardId in files ==> FileOk(w, files, rd.shardId)) && Encodes(w, line, rd)
    requires Names(w, files, rd.id, at, k)
    requires files' == files[rd.shardId := FileContent(files, rd.shardId) + (line + [NL])]
    ensures Clash(w, files')
  {
    var n := |LinesOf(files, rd.shardId)|;
    GrownNames(w, files, rd.shardId, line, rd, rd.id, at, k);
    GrownNames(w, files, rd.shardId, line, rd, rd.id, rd.shardId, n);
    TwoNames(w, files', rd.id, at, k, rd.shardId, n);
  }

  lemma RebuildAfterWholeCrash(w: World, s: State, placed: Reading, line: Bytes, n: nat, s': State)
    requires Agree(w, s) && Encodes(w, line, placed) && n > |line|
    requires RebuildStep(w, Crashed(s, placed.shardId, line, n), {}, s')
    ensures Agree(w, s') <==> AtEnd(s, placed) && placed.id !in s.index
    ensures Agree(w, s') ==> s'.index == s.index[placed.id := RowOf(placed, placed.shardId, placed.lineNo)]
  {
    var c := Crashed(s, placed.shardId, line, n);
    PrefixIs(line, n);
    GrownFilesOkIff(w, s, c, placed, line);
    if AtEnd(s, placed) {
      RebuildRestoresIff(w, c, {}, s');
      if placed.id in s.index {
        RepeatedIdClashes(w, s, placed, line, c.files);
      } else {
        WholeCrashFiles(w, s, placed, line, n);
        MatchedFilesDoNotClash(w, c.files, Appended(w, s, placed, line).index);
        IndexUnique(w, c.files, s'.index, Appended(w, s, placed, line).index);
      }
    }
  }

  /** A rebuild after the crash of an append brings back the agreement exactly when the crash left
      nothing, or the whole line of a reading with a new id under the right number, which it then indexes. */
  lemma RebuildAfterCrashIff(w: World, s: State, placed: Reading, line: Bytes, n: nat, s': State)
    requires Agree(w, s) && Encodes(w, line, placed)
    requires RebuildStep(w, Crashed(s, placed.shardId, line, n), {}, s')
    ensures Agree(w, s') <==> n == 0 || (n > |line| && AtEnd(s, placed) && placed.id !in s.index)
    ensures Agree(w, s') && n > 0 ==> s'.index == s.index[placed.id := RowOf(placed, placed.shardId, placed.lineNo)]
  {
    var c := Crashed(s, placed.shardId, line, n);
    if n > |line| {
      RebuildAfterWholeCrash(w, s, placed, line, n, s');
    } else if n == 0 {
      EmptyCrashAgrees(w, s, placed.shardId, line);
      MatchedFilesDoNotClash(w, c.files, c.index);
      RebuildRestoresIff(w, c, {}, s');
    } else {
      PrefixIs(line, n);
      TornTailNotOk(w, s, placed.shardId, line, n);
    }
  }

  // --- Verify ---------------------------------------------------------------------------------

  lemma HealthyShardVerifies(w: World, s: State, sid: ShardId)
    requires Agree(w, s) && sid in s.manifest
    ensures VerifiesOk(w, s, sid)
  {
    assert ManifestRowFits(w, s.files, sid, s.manifest[sid]);
  }

  /** Take a store in agreement and replace its files by anything at all. The verdict on a shard is OK
      exactly when the file still scans to the recorded lines, or scanning it and scanning the recorded
      lines hash two different inputs to one digest. */
  lemma VerifyNoticesTampering(w: World, s: State, files: map<ShardId, Bytes>, sid: ShardId)
    requires Sound(w) && Agree(w, s) && sid in s.manifest && sid in files
    ensures LinesOf(files, sid) == LinesOf(s.files, sid) ==> VerifiesOk(w, s.(files := files), sid)
    ensures VerifiesOk(w, s.(files := files), sid) ==>
      LinesOf(files, sid) == LinesOf(s.files, sid) || FoldsCollide(w.hash, LinesOf(files, sid), LinesOf(s.files, sid))
  {
    assert ManifestRowFits(w, s.files, sid, s.manifest[sid]);
    if VerifiesOk(w, s.(files := files), sid) {
      FoldIdentifiesLines(w.hash, LinesOf(files, sid), LinesOf(s.files, sid));
    }
  }
}
