/** The reading store as a value: shard files, the cached line counts, and the two SQL tables
    that speed the files up. States what one operation does to it and when its parts agree. */
module ReadingState {
  import opened Wrappers
  import opened Lines
  import opened Checksum

  /** A bucket and a key within it, which the store writes with a slash in between. */
  datatype ShardId = ShardId(bucket: string, key: string)

  type ReadingId = Text

  datatype Reading = Reading(
    id: ReadingId, collector: Text, ts: int, queueCount: int, durationMs: int, faultCode: Text,
    raw: map<Text, real>, source: Text, seqNo: int, shardId: ShardId, lineNo: int, ingestedAt: int)

  /** One row of reading_index. */
  datatype IndexRow = IndexRow(
    collector: Text, ts: int, queueCount: int, durationMs: int, faultCode: Text,
    shardId: ShardId, lineNo: int, createdAt: int)

  /** The count and checksum columns of one row of reading_shards. */
  datatype ManifestRow = ManifestRow(count: int, checksum: Bytes)

  datatype State = State(
    files: map<ShardId, Bytes>, counts: map<ShardId, int>,
    index: map<ReadingId, IndexRow>, manifest: map<ShardId, ManifestRow>)

  const READINGS := "readings"

  const EMPTY := State(map[], map[], map[], map[])

  /** JSON, the hash and the date format, none of which is looked into. */
  datatype World = World(
    marshal: Reading -> Option<Bytes>, unmarshal: Bytes -> Option<Reading>, hash: Hash, day: int -> string)

  /** Encoding escapes control characters, is never empty and can be undone; digests are hex. */
  ghost predicate Sound(w: World) {
    && HexDigests(w.hash)
    && forall rd :: w.marshal(rd).Some? ==> Encodes(w, w.marshal(rd).value, rd)
  }

  ghost predicate Encodes(w: World, line: Bytes, rd: Reading) {
    WellFormedLine(line) && w.unmarshal(line) == Some(rd)
  }

  // --- Reading the state --------------------------------------------------------------------

  function FileContent(files: map<ShardId, Bytes>, sid: ShardId): Bytes {
    if sid in files then files[sid] else []
  }

  function LinesOf(files: map<ShardId, Bytes>, sid: ShardId): seq<Bytes> {
    if sid in files then ScanLines(files[sid]) else []
  }

  /** The line number Begin hands out: zero for a missing file, else the cached count, else a recount. A
      recount that cannot read the file is taken for zero. */
  function NextLine(files: map<ShardId, Bytes>, counts: map<ShardId, int>, sid: ShardId, recountOk: bool): int {
    if sid !in files then 0
    else if sid in counts && counts[sid] >= 0 then counts[sid]
    else if recountOk then |Segments(files[sid])| - 1
    else 0
  }

  function RowOf(rd: Reading, sid: ShardId, lineNo: int): IndexRow {
    IndexRow(rd.collector, rd.ts, rd.queueCount, rd.durationMs, rd.faultCode, sid, lineNo, rd.ingestedAt)
  }

  /** The row shows the reading, column by column. */
  predicate Shows(row: IndexRow, rd: Reading) {
    && row.collector == rd.collector && row.ts == rd.ts && row.createdAt == rd.ingestedAt
    && row.queueCount == rd.queueCount && row.durationMs == rd.durationMs && row.faultCode == rd.faultCode
  }

  datatype ReadError = NotIndexed | LineMissing | Undecodable

  /** Get: follow the index row to its line and decode it. */
  function GetSpec(w: World, s: State, id: ReadingId): Result<Reading, ReadError> {
    if id !in s.index then Err(NotIndexed)
    else
      var row := s.index[id];
      var slice := if row.shardId in s.files then LineAt(s.files[row.shardId], row.lineNo) else None;
      if slice.None? then Err(LineMissing)
      else if w.unmarshal(slice.value).None? then Err(Undecodable)
      else Ok(w.unmarshal(slice.value).value)
  }

  datatype Verdict = Verdict(count: nat, manifestChecksum: Bytes, actualChecksum: Bytes, ok: bool)
    | NotInManifest | FileMissing(recorded: Bytes)

  function VerifySpec(w: World, s: State, sid: ShardId): Verdict {
    if sid !in s.manifest then NotInManifest
    else if sid !in s.files then FileMissing(s.manifest[sid].checksum)
    else
      var m, lines := s.manifest[sid], ScanLines(s.files[sid]);
      var actual := FoldLines(w.hash, lines);
      Verdict(|lines|, m.checksum, actual, actual == m.checksum && |lines| == m.count)
  }

  ghost predicate VerifiesOk(w: World, s: State, sid: ShardId) {
    var v := VerifySpec(w, s, sid);
    v.Verdict? && v.ok
  }

  // --- Append ---------------------------------------------------------------------------------

  /** How far AppendLine gets: refused before the file is opened, failing with that many bytes of
      the line and its newline on disk, or complete. */
  datatype Write = Refused | Torn(bytes: nat) | Written

  /** How far a rollback gets: nowhere (cancelled context, or a failing stat or truncate), past the
      truncate but not the sync after it, or through, which is when it resets the cache. */
  datatype Cleanup = Skipped | CutOnly | Through

  /** What surrounds one Append: whether Begin works and could recount the file's lines, the id and time
      it would generate, the write, whether the SQL transaction can commit, and how far a rollback gets. */
  datatype Env = Env(beginOk: bool, recountOk: bool, newId: ReadingId, now: int, write: Write, dbOk: bool,
                     undo: Cleanup)

  function Stamp(rd: Reading, env: Env): Reading {
    rd.(id := if rd.id == NO_TEXT then env.newId else rd.id,
        ts := if rd.ts == 0 then env.now else rd.ts,
        ingestedAt := if rd.ingestedAt == 0 then env.now else rd.ingestedAt)
  }

  /** The reading that is stored for a submitted one: the same values, with an id and times where none were
      given. */
  predicate Keeps(stored: Reading, rd: Reading, env: Env) {
    && stored.collector == rd.collector && stored.queueCount == rd.queueCount && stored.durationMs == rd.durationMs
    && stored.faultCode == rd.faultCode && stored.raw == rd.raw && stored.source == rd.source
    && stored.seqNo == rd.seqNo
    && stored.id == (if rd.id == Text("") then env.newId else rd.id)
    && stored.ts == (if rd.ts == 0 then env.now else rd.ts)
    && stored.ingestedAt == (if rd.ingestedAt == 0 then env.now else rd.ingestedAt)
  }

  function ShardFor(w: World, ts: int): ShardId {
    ShardId(READINGS, w.day(ts))
  }

  /** The record Append tries to store: stamped, and told where it will live. */
  function Placed(w: World, s: State, rd: Reading, env: Env): Reading {
    var stamped := Stamp(rd, env);
    var sid := ShardFor(w, stamped.ts);
    stamped.(shardId := sid, lineNo := NextLine(s.files, s.counts, sid, env.recountOk))
  }

  function Prefix(line: Bytes, n: nat): Bytes {
    if n < |line| then line[..n] else line
  }

  /** The bytes of the line left on disk before any rollback; None when the file was never opened. */
  function Landed(w: World, s: State, rd: Reading, env: Env): Option<Bytes> {
    var line := w.marshal(Placed(w, s, rd, env));
    if !env.beginOk || line.None? then None
    else match env.write
      case Refused => None
      case Torn(n) => Some(Prefix(line.value + [NL], n))
      case Written => Some(line.value + [NL])
  }

  ghost predicate AppendSucceeds(w: World, s: State, rd: Reading, env: Env) {
    var placed := Placed(w, s, rd, env);
    && env.beginOk && w.marshal(placed).Some?
    && env.write.Written? && env.dbOk && placed.id !in s.index
  }

  function NextManifest(w: World, s: State, sid: ShardId, line: Bytes): ManifestRow {
    if sid in s.manifest
    then ManifestRow(s.manifest[sid].count + 1, FoldChecksum(w.hash, s.manifest[sid].checksum, line))
    else ManifestRow(1, FoldChecksum(w.hash, [], line))
  }

  /** Success adds the line, its index row and its share of the manifest. */
  ghost function Appended(w: World, s: State, placed: Reading, line: Bytes): State {
    var sid := placed.shardId;
    State(s.files[sid := FileContent(s.files, sid) + (line + [NL])], s.counts[sid := placed.lineNo + 1],
          s.index[placed.id := RowOf(placed, sid, placed.lineNo)],
          s.manifest[sid := NextManifest(w, s, sid, line)])
  }

  /** The line and its newline are in the file, synced and closed. */
  ghost predicate Completes(w: World, s: State, rd: Reading, env: Env) {
    env.beginOk && w.marshal(Placed(w, s, rd, env)).Some? && env.write.Written?
  }

  /** Failure leaves both tables alone. A rollback that gets anywhere has the file cut back to what it
      was; one that gets through resets the cache AppendLine set. */
  ghost function Abandoned(w: World, s: State, rd: Reading, env: Env): State {
    if !env.beginOk then s
    else
      var placed := Placed(w, s, rd, env);
      var sid, n, landed := placed.shardId, placed.lineNo, Landed(w, s, rd, env);
      var files := if landed.None? then s.files
                   else s.files[sid := FileContent(s.files, sid) + if env.undo.Skipped? then landed.value else []];
      s.(files := files, counts := s.counts[sid := if Completes(w, s, rd, env) && !env.undo.Through? then n + 1 else n])
  }

  ghost function AppendSpec(w: World, s: State, rd: Reading, env: Env): (State, Option<Reading>) {
    var placed := Placed(w, s, rd, env);
    if AppendSucceeds(w, s, rd, env)
    then (Appended(w, s, placed, w.marshal(placed).value), Some(placed))
    else (Abandoned(w, s, rd, env), None)
  }

  // --- Rebuild --------------------------------------------------------------------------------

  /** The k-th scanned line of the shard decodes to a reading with this id. */
  ghost predicate Names(w: World, files: map<ShardId, Bytes>, id: ReadingId, sid: ShardId, k: int) {
    var lines := LinesOf(files, sid);
    0 <= k < |lines| && w.unmarshal(lines[k]).Some? && w.unmarshal(lines[k]).value.id == id
  }

  ghost predicate RowFits(w: World, files: map<ShardId, Bytes>, id: ReadingId, row: IndexRow) {
    && Names(w, files, id, row.shardId, row.lineNo)
    && Shows(row, w.unmarshal(LinesOf(files, row.shardId)[row.lineNo]).value)
  }

  /** Every row describes its line, and every decodable line is the one its id's row describes. */
  ghost predicate IndexMatches(w: World, files: map<ShardId, Bytes>, index: map<ReadingId, IndexRow>) {
    && RowsFit(w, files, index)
    && (forall id, sid, k :: Names(w, files, id, sid, k) ==>
          id in index && index[id].shardId == sid && index[id].lineNo == k)
  }

  ghost predicate ManifestRowFits(w: World, files: map<ShardId, Bytes>, sid: ShardId, m: ManifestRow) {
    m == ManifestRow(|LinesOf(files, sid)|, FoldLines(w.hash, LinesOf(files, sid)))
  }

  ghost predicate ManifestMatches(w: World, files: map<ShardId, Bytes>, manifest: map<ShardId, ManifestRow>) {
    && (forall sid :: sid in manifest ==> sid in files && ManifestRowFits(w, files, sid, manifest[sid]))
    && (forall sid :: sid in files && sid !in manifest ==> LinesOf(files, sid) == [])
  }

  /** Two lines carry one id, so the second INSERT meets the primary key. */
  ghost predicate Clash(w: World, files: map<ShardId, Bytes>) {
    exists id, sid, k, sid', k' ::
      Names(w, files, id, sid, k) && Names(w, files, id, sid', k') && (sid, k) != (sid', k')
  }

  /** What a rebuild puts in the two tables: everything the files say and nothing else. */
  ghost predicate Rebuilt(w: World, files: map<ShardId, Bytes>, index: map<ReadingId, IndexRow>,
                          manifest: map<ShardId, ManifestRow>) {
    && IndexMatches(w, files, index)
    && manifest.Keys == files.Keys
    && forall sid :: sid in manifest ==> ManifestRowFits(w, files, sid, manifest[sid])
  }

  /** One transaction: a clash rolls it back, otherwise it replaces both tables with what the readable
      files say. Shards that cannot be read are skipped. */
  ghost predicate RebuildStep(w: World, s: State, unreadable: set<ShardId>, s': State) {
    var files := s.files - unreadable;
    && s'.files == s.files && s'.counts == s.counts
    && if Clash(w, files) then s' == s else Rebuilt(w, files, s'.index, s'.manifest)
  }

  // --- Agreement ------------------------------------------------------------------------------

  /** A file is exactly its lines, and each line is a reading that knows its own place. */
  ghost predicate FileOk(w: World, files: map<ShardId, Bytes>, sid: ShardId) {
    var lines := LinesOf(files, sid);
    && WellFormedLines(lines)
    && FileContent(files, sid) == Render(lines)
    && forall k :: 0 <= k < |lines| ==> SelfDescribing(w, lines[k], sid, k)
  }

  ghost predicate SelfDescribing(w: World, line: Bytes, sid: ShardId, k: int) {
    var rd := w.unmarshal(line);
    rd.Some? && rd.value.shardId == sid && rd.value.lineNo == k
  }

  ghost predicate CountsOk(s: State) {
    forall sid :: sid in s.counts ==> s.counts[sid] == |LinesOf(s.files, sid)|
  }

  ghost predicate AllFilesOk(w: World, files: map<ShardId, Bytes>) {
    forall sid :: sid in files ==> FileOk(w, files, sid)
  }

  ghost predicate FilesOk(w: World, s: State) {
    CountsOk(s) && AllFilesOk(w, s.files)
  }

  ghost predicate RowsFit(w: World, files: map<ShardId, Bytes>, index: map<ReadingId, IndexRow>) {
    forall id :: id in index ==> RowFits(w, files, id, index[id])
  }

  /** Every file is whole lines, the cache counts them and every index row fits its line; there may be
      lines that neither table knows of. */
  ghost predicate Legible(w: World, s: State) {
    FilesOk(w, s) && RowsFit(w, s.files, s.index)
  }

  /** Files, cache, index and manifest tell one story. */
  ghost predicate Agree(w: World, s: State) {
    && FilesOk(w, s)
    && IndexMatches(w, s.files, s.index)
    && ManifestMatches(w, s.files, s.manifest)
  }
}
