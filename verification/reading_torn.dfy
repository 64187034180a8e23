/** Appending to a file that may end in a torn line: what Get reads back, for any file at all. */
module ReadingTorn {
  import opened Wrappers
  import opened Lines
  import opened Checksum
  import opened ReadingState
  import opened ReadingAgreement
  import opened ReadingLegible

  /** What follows the last newline. */
  function OpenTail(data: Bytes): Bytes {
    var segs := Segments(data);
    segs[|segs| - 1]
  }

  predicate EndsWhole(data: Bytes) {
    data == [] || data[|data| - 1] == NL
  }

  /** The line number handed out is the number of newlines: the file is new, or uncached and readable. */
  ghost predicate Recounts(s: State, sid: ShardId, recountOk: bool) {
    sid in s.files ==> !(sid in s.counts && s.counts[sid] >= 0) && recountOk
  }

  /** The new line number names the tail and the new line glued together. */
  lemma GluedLine(data: Bytes, line: Bytes)
    requires NL !in line
    ensures EndedLine(data + (line + [NL]), |Segments(data)| - 1) == Some(OpenTail(data) + line)
  {
    SegmentsAppend(data, line);
    SegmentsNewline(data + line);
    assert data + (line + [NL]) == data + line + [NL];
  }

  function Decoded(w: World, slice: Bytes): Result<Reading, ReadError> {
    if w.unmarshal(slice).None? then Err(Undecodable) else Ok(w.unmarshal(slice).value)
  }

  /** After any append that reports success, on any file, Get decodes whatever tail the file had, with
      the new line after it. */
  lemma AppendReadsGlued(w: World, s: State, rd: Reading, env: Env)
    requires Sound(w) && AppendSucceeds(w, s, rd, env) && Recounts(s, Placed(w, s, rd, env).shardId, env.recountOk)
    ensures var (s', stored) := AppendSpec(w, s, rd, env);
      && stored.Some?
      && var tail, line := OpenTail(FileContent(s.files, stored.value.shardId)), w.marshal(stored.value);
         line.Some? && GetSpec(w, s', stored.value.id) == Decoded(w, tail + line.value)
  {
    var placed := Placed(w, s, rd, env);
    MarshalEncodes(w, placed);
    GluedLine(FileContent(s.files, placed.shardId), w.marshal(placed).value);
  }

  lemma OpenTailEmptyIff(data: Bytes)
    ensures OpenTail(data) == [] <==> EndsWhole(data)
  {
    LastSegmentEmptyIff(data);
  }

  /** So the append reads back if its file is empty or ends in a newline, whatever else is in it. */
  lemma AppendReadsBackIfWhole(w: World, s: State, rd: Reading, env: Env)
    requires Sound(w) && AppendSucceeds(w, s, rd, env) && Recounts(s, Placed(w, s, rd, env).shardId, env.recountOk)
    requires EndsWhole(FileContent(s.files, Placed(w, s, rd, env).shardId))
    ensures var (s', stored) := AppendSpec(w, s, rd, env);
      stored.Some? && GetSpec(w, s', stored.value.id) == Ok(stored.value)
  {
    var placed := Placed(w, s, rd, env);
    MarshalEncodes(w, placed);
    AppendReadsGlued(w, s, rd, env);
    OpenTailEmptyIff(FileContent(s.files, placed.shardId));
    assert [] + w.marshal(placed).value == w.marshal(placed).value;
  }

  /** An encoding with part of another before it does not decode to its own reading: an object cannot
      start inside an unfinished one. */
  ghost predicate RejectsGlued(w: World) {
    forall rd, other, n: nat :: w.marshal(rd).Some? && w.marshal(other).Some? && 0 < n <= |w.marshal(other).value| ==>
      w.unmarshal(w.marshal(other).value[..n] + w.marshal(rd).value) != Some(rd)
  }

  lemma CrashedTail(w: World, s: State, sid: ShardId, line: Bytes, n: nat)
    requires AllFilesOk(w, s.files) && WellFormedLine(line)
    ensures OpenTail(FileContent(s.files, sid) + Prefix(line + [NL], n)) == if n <= |line| then line[..n] else []
  {
    assert sid in s.files ==> FileOk(w, s.files, sid);
    TailOf(LinesOf(s.files, sid), line, n);
  }

  lemma TailOf(lines: seq<Bytes>, line: Bytes, n: nat)
    requires WellFormedLines(lines) && WellFormedLine(line)
    ensures OpenTail(Render(lines) + Prefix(line + [NL], n)) == if n <= |line| then line[..n] else []
  {
    var content := Render(lines);
    RenderSegments(lines);
    PrefixIs(line, n);
    if n <= |line| {
      SegmentsOpenTail(content, lines, line[..n]);
    } else {
      SegmentsNewline(content + line);
      assert content + (line + [NL]) == content + line + [NL];
    }
  }

  /** After a restart from any crash, an append to the shard that meets no failure reports success, and
      reads back exactly when the file is empty or ends in a newline. */
  lemma AppendAfterCrashReadsBackIff(w: World, s: State, lost: Reading, n: nat, rd: Reading, env: Env)
    requires Sound(w) && RejectsGlued(w) && Legible(w, s) && w.marshal(lost).Some?
    requires var c := Crashed(s, lost.shardId, w.marshal(lost).value, n);
      AppendSucceeds(w, c, rd, env) && env.recountOk && Placed(w, c, rd, env).shardId == lost.shardId
    ensures var c := Crashed(s, lost.shardId, w.marshal(lost).value, n);
      var (s', stored) := AppendSpec(w, c, rd, env);
      && stored.Some?
      && (GetSpec(w, s', stored.value.id) == Ok(stored.value) <==> EndsWhole(FileContent(c.files, lost.shardId)))
      && (EndsWhole(FileContent(c.files, lost.shardId)) <==> n == 0 || n > |w.marshal(lost).value|)
  {
    var c := Crashed(s, lost.shardId, w.marshal(lost).value, n);
    MarshalEncodes(w, lost);
    CrashedTail(w, s, lost.shardId, w.marshal(lost).value, n);
    OpenTailEmptyIff(FileContent(c.files, lost.shardId));
    AppendReadsGlued(w, c, rd, env);
    if EndsWhole(FileContent(c.files, lost.shardId)) {
      AppendReadsBackIfWhole(w, c, rd, env);
    }
  }

  // --- What verification still sees ---------------------------------------------------------------

  /** The manifest row after an append to files that were in agreement before a crash. */
  lemma ManifestAfterCrash(w: World, s: State, c: State, sid: ShardId, line: Bytes)
    requires ManifestMatches(w, s.files, s.manifest) && c.manifest == s.manifest
    ensures var recorded := LinesOf(s.files, sid) + [line];
      NextManifest(w, c, sid, line) == ManifestRow(|recorded|, FoldLines(w.hash, recorded))
  {
    FoldSnoc(w.hash, LinesOf(s.files, sid), line);
    if sid in s.manifest {
      assert ManifestRowFits(w, s.files, sid, s.manifest[sid]);
    } else {
      assert LinesOf(s.files, sid) == [];
    }
  }

  /** The lines scanned after a crash and one more append. */
  function ScannedAfter(lines: seq<Bytes>, torn: Bytes, n: nat, line: Bytes): seq<Bytes> {
    if n == 0 then lines + [line]
    else if n <= |torn| then lines + [torn[..n] + line]
    else lines + [torn] + [line]
  }

  lemma ScannedAfterCrash(lines: seq<Bytes>, torn: Bytes, n: nat, line: Bytes)
    requires WellFormedLines(lines) && WellFormedLine(torn) && WellFormedLine(line)
    ensures ScanLines(Render(lines) + Prefix(torn + [NL], n) + (line + [NL])) == ScannedAfter(lines, torn, n, line)
  {
    RenderedAfterCrash(lines, torn, n, line);
    if n > |torn| {
      WholeLines(lines, torn);
      WholeLines(lines + [torn], line);
    } else {
      WholeLines(lines, torn[..n] + line);
      assert [] + line == line;
    }
    RenderRoundTrip(ScannedAfter(lines, torn, n, line));
  }

  lemma RenderedAfterCrash(lines: seq<Bytes>, torn: Bytes, n: nat, line: Bytes)
    ensures Render(ScannedAfter(lines, torn, n, line)) == Render(lines) + Prefix(torn + [NL], n) + (line + [NL])
  {
    PrefixIs(torn, n);
    if n > |torn| {
      RenderSnoc(lines, torn);
      RenderSnoc(lines + [torn], line);
    } else {
      RenderSnoc(lines, torn[..n] + line);
      TailJoins(Render(lines), torn[..n], line);
      assert [] + line == line;
    }
  }

  lemma TailJoins(data: Bytes, tail: Bytes, line: Bytes)
    ensures data + tail + (line + [NL]) == data + (tail + line + [NL])
  {
  }

  /** After a restart from any crash and one more append that reports success: if nothing was left behind
      the shard verifies; if a whole line was, it does not; and if part of a line was, the count agrees
      again, so that only the checksum can tell, which it does unless two different inputs of these folds
      hash to one digest. */
  lemma VerifyAfterCrashAndAppend(w: World, s: State, lost: Reading, n: nat, rd: Reading, env: Env)
    requires Sound(w) && Agree(w, s) && w.marshal(lost).Some?
    requires var c := Crashed(s, lost.shardId, w.marshal(lost).value, n);
      AppendSucceeds(w, c, rd, env) && Placed(w, c, rd, env).shardId == lost.shardId
    ensures var c, sid := Crashed(s, lost.shardId, w.marshal(lost).value, n), lost.shardId;
      var (s', stored) := AppendSpec(w, c, rd, env);
      && stored.Some? && w.marshal(stored.value).Some? && sid in s'.manifest
      && (n == 0 ==> VerifiesOk(w, s', sid))
      && (n > |w.marshal(lost).value| ==> !VerifiesOk(w, s', sid))
      && (0 < n <= |w.marshal(lost).value| ==>
            && s'.manifest[sid].count == |LinesOf(s'.files, sid)|
            && (VerifiesOk(w, s', sid) ==> FoldsCollide(w.hash, LinesOf(s'.files, sid),
                                                        LinesOf(s.files, sid) + [w.marshal(stored.value).value])))
  {
    var torn, sid, lines := w.marshal(lost).value, lost.shardId, LinesOf(s.files, lost.shardId);
    var c := Crashed(s, sid, torn, n);
    MarshalEncodes(w, lost);
    MarshalEncodes(w, Placed(w, c, rd, env));
    var line := w.marshal(Placed(w, c, rd, env)).value;
    AfterCrashAndAppend(w, s, sid, torn, n, line, AppendSpec(w, c, rd, env).0);
    CrashVerdict(w, AppendSpec(w, c, rd, env).0, sid, lines, torn, n, line);
  }

  lemma AfterCrashAndAppend(w: World, s: State, sid: ShardId, torn: Bytes, n: nat, line: Bytes, s': State)
    requires Agree(w, s) && WellFormedLine(torn) && WellFormedLine(line)
    requires var c := Crashed(s, sid, torn, n);
      && s'.files == c.files[sid := FileContent(c.files, sid) + (line + [NL])]
      && s'.manifest == c.manifest[sid := NextManifest(w, c, sid, line)]
    ensures var lines := LinesOf(s.files, sid);
      && sid in s'.files && LinesOf(s'.files, sid) == ScannedAfter(lines, torn, n, line)
      && sid in s'.manifest && s'.manifest[sid] == ManifestRow(|lines| + 1, FoldLines(w.hash, lines + [line]))
  {
    assert sid in s.files ==> FileOk(w, s.files, sid);
    ManifestAfterCrash(w, s, Crashed(s, sid, torn, n), sid, line);
    ScannedAfterCrash(LinesOf(s.files, sid), torn, n, line);
  }

  lemma CrashVerdict(w: World, s': State, sid: ShardId, lines: seq<Bytes>, torn: Bytes, n: nat, line: Bytes)
    requires Sound(w) && torn != [] && sid in s'.files && sid in s'.manifest
    requires s'.manifest[sid] == ManifestRow(|lines| + 1, FoldLines(w.hash, lines + [line]))
    requires LinesOf(s'.files, sid) == ScannedAfter(lines, torn, n, line)
    ensures n == 0 ==> VerifiesOk(w, s', sid)
    ensures n > |torn| ==> !VerifiesOk(w, s', sid)
    ensures 0 < n <= |torn| && VerifiesOk(w, s', sid) ==> FoldsCollide(w.hash, LinesOf(s'.files, sid), lines + [line])
  {
    if 0 < n <= |torn| && VerifiesOk(w, s', sid) {
      FoldIdentifiesLines(w.hash, LinesOf(s'.files, sid), lines + [line]);
      assert (lines + [torn[..n] + line])[|lines|] != (lines + [line])[|lines|];
    }
  }
}
