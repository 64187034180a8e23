/** The reading repository: the shard store together with the two SQL tables that index it. Each
    method is the source's sequence of steps, proved to have the one effect ReadingState states. */
module ReadingRepo {
  import opened Wrappers
  import opened Lines
  import opened Checksum
  import opened ReadingAgreement
  import opened ReadingState
  import ShardStore

  /** Files and cache of an append begun in state s, before it commits or rolls back. */
  ghost predicate Pending(w: World, s: State, rd: Reading, env: Env, lease: ShardStore.Lease,
                          files: map<ShardId, Bytes>, counts: map<ShardId, int>) {
    var placed, landed := Placed(w, s, rd, env), Landed(w, s, rd, env);
    && lease == ShardStore.Lease(placed.shardId, |FileContent(s.files, placed.shardId)|, placed.lineNo)
    && files == (if landed.None? then s.files
                 else s.files[placed.shardId := FileContent(s.files, placed.shardId) + landed.value])
    && counts == s.counts[placed.shardId := if Completes(w, s, rd, env) then placed.lineNo + 1 else placed.lineNo]
  }

  lemma RolledBackIs(w: World, s: State, rd: Reading, env: Env, lease: ShardStore.Lease,
                     files: map<ShardId, Bytes>, counts: map<ShardId, int>)
    requires env.beginOk && Pending(w, s, rd, env, lease, files, counts)
    ensures ShardStore.CutBack(files, lease, env.undo) == Abandoned(w, s, rd, env).files
    ensures (if ShardStore.RollsThrough(files, lease, env.undo) then counts[lease.shardId := lease.lineNo] else counts)
         == Abandoned(w, s, rd, env).counts
  {
    var content, landed := FileContent(s.files, lease.shardId), Landed(w, s, rd, env);
    assert content + [] == content;
    if landed.Some? {
      assert (content + landed.value)[..|content|] == content;
      assert landed.value == [] ==> content + landed.value == content;
    }
  }

  lemma CommittedIs(w: World, s: State, rd: Reading, env: Env, files: map<ShardId, Bytes>, counts: map<ShardId, int>,
                    index: map<ReadingId, IndexRow>, manifest: map<ShardId, ManifestRow>)
    requires AppendSucceeds(w, s, rd, env)
    requires var placed := Placed(w, s, rd, env);
      var sid, line := placed.shardId, w.marshal(placed).value;
      && files == s.files[sid := FileContent(s.files, sid) + (line + [NL])]
      && counts == s.counts[sid := placed.lineNo + 1]
      && index == s.index[placed.id := RowOf(placed, sid, placed.lineNo)]
      && manifest == s.manifest[sid := NextManifest(w, s, sid, line)]
    ensures (State(files, counts, index, manifest), Some(Placed(w, s, rd, env))) == AppendSpec(w, s, rd, env)
  {
  }

  class Repo {
    const w: World
    const shards: ShardStore.Store
    var index: map<ReadingId, IndexRow>
    var manifest: map<ShardId, ManifestRow>

    ghost function Snapshot(): State
      reads this, shards
    {
      State(shards.files, shards.counts, index, manifest)
    }

    constructor (w: World, shards: ShardStore.Store)
      ensures this.w == w && this.shards == shards && index == map[] && manifest == map[]
    {
      this.w, this.shards := w, shards;
      index, manifest := map[], map[];
    }

    /** Stamp, lease, encode, write, index, and commit or roll back. */
    method Append(rd: Reading, env: Env) returns (stored: Option<Reading>)
      requires !shards.locked
      modifies this, shards
      ensures !shards.locked
      ensures (Snapshot(), stored) == AppendSpec(w, old(Snapshot()), rd, env)
    {
      var stamped := Stamp(rd, env);
      var shardId := ShardFor(w, stamped.ts);
      ghost var s := Snapshot();
      var begun := shards.Begin(shardId, env.beginOk, env.recountOk);
      if begun.None? {
        return None;
      }
      var lease := begun.value;
      var placed := stamped.(shardId := shardId, lineNo := lease.lineNo);
      assert placed == Placed(w, s, rd, env);
      var payload := w.marshal(placed);
      if payload.None? {
        RollBack(lease, rd, env, s);
        return None;
      }
      stored := WriteAndIndex(lease, placed, payload.value, rd, env, s);
    }

    /** The part of Append that a begun one goes on to once its record is encoded. */
    method WriteAndIndex(lease: ShardStore.Lease, placed: Reading, payload: Bytes, ghost rd: Reading, env: Env,
                         ghost s: State)
      returns (stored: Option<Reading>)
      requires shards.locked && env.beginOk && index == s.index && manifest == s.manifest
      requires placed == Placed(w, s, rd, env) && w.marshal(placed) == Some(payload)
      requires lease == ShardStore.Lease(placed.shardId, |FileContent(s.files, placed.shardId)|, placed.lineNo)
      requires shards.files == s.files && shards.counts == s.counts[placed.shardId := placed.lineNo]
      modifies this, shards
      ensures !shards.locked
      ensures (Snapshot(), stored) == AppendSpec(w, s, rd, env)
    {
      var written := shards.AppendLine(lease, payload, env.write);
      if !written {
        RollBack(lease, rd, env, s);
        return None;
      }
      var indexed := CommitIndex(placed, payload, env.dbOk);
      if !indexed {
        RollBack(lease, rd, env, s);
        return None;
      }
      shards.Commit();
      CommittedIs(w, s, rd, env, shards.files, shards.counts, index, manifest);
      return Some(placed);
    }

    /** Rolling back a failed append that began in state s. */
    method RollBack(lease: ShardStore.Lease, ghost rd: Reading, env: Env, ghost s: State)
      requires shards.locked && env.beginOk && Pending(w, s, rd, env, lease, shards.files, shards.counts)
      requires !AppendSucceeds(w, s, rd, env) && index == s.index && manifest == s.manifest
      modifies shards
      ensures !shards.locked && (Snapshot(), None) == AppendSpec(w, s, rd, env)
    {
      RolledBackIs(w, s, rd, env, lease, shards.files, shards.counts);
      shards.Rollback(lease, env.undo);
    }

    /** One transaction over both tables: it commits entirely, or fails and changes neither. */
    method CommitIndex(rd: Reading, payload: Bytes, dbOk: bool) returns (ok: bool)
      modifies this
      ensures ok <==> dbOk && rd.id !in old(index)
      ensures !ok ==> index == old(index) && manifest == old(manifest)
      ensures ok ==> index == old(index)[rd.id := RowOf(rd, rd.shardId, rd.lineNo)]
      ensures ok ==> manifest == old(manifest)[rd.shardId := NextManifest(w, old(Snapshot()), rd.shardId, payload)]
      ensures ok ==> Shows(index[rd.id], rd) && index[rd.id].shardId == rd.shardId && index[rd.id].lineNo == rd.lineNo
      ensures ok ==>
        var known := rd.shardId in old(manifest);
        && manifest[rd.shardId].count == (if known then old(manifest)[rd.shardId].count + 1 else 1)
        && manifest[rd.shardId].checksum
           == w.hash((if known then old(manifest)[rd.shardId].checksum else []) + [0] + payload)
    {
      if !dbOk || rd.id in index {
        return false;
      }
      var known := rd.shardId in manifest;
      var prev := if known then manifest[rd.shardId].checksum else [];
      var next := FoldChecksum(w.hash, prev, payload);
      var count := if known then manifest[rd.shardId].count + 1 else 1;
      index := index[rd.id := RowOf(rd, rd.shardId, rd.lineNo)];
      manifest := manifest[rd.shardId := ManifestRow(count, next)];
      return true;
    }

    method Get(id: ReadingId) returns (r: Result<Reading, ReadError>)
      ensures r == GetSpec(w, Snapshot(), id)
      ensures r == Err(NotIndexed) <==> id !in index
      ensures r == Err(LineMissing) <==>
        && id in index
        && (index[id].shardId in shards.files ==> LineAt(shards.files[index[id].shardId], index[id].lineNo).None?)
      ensures r.Ok? ==>
        && index[id].shardId in shards.files
        && LineAt(shards.files[index[id].shardId], index[id].lineNo).Some?
        && w.unmarshal(LineAt(shards.files[index[id].shardId], index[id].lineNo).value) == Some(r.value)
    {
      if id !in index {
        return Err(NotIndexed);
      }
      var row := index[id];
      var slice := shards.ReadLine(row.shardId, row.lineNo);
      if slice.None? {
        return Err(LineMissing);
      }
      var rd := w.unmarshal(slice.value);
      return if rd.None? then Err(Undecodable) else Ok(rd.value);
    }

    method VerifyShard(shardId: ShardId) returns (v: Verdict)
      ensures v == VerifySpec(w, Snapshot(), shardId)
      ensures v.NotInManifest? <==> shardId !in manifest
      ensures v.FileMissing? <==> shardId in manifest && shardId !in shards.files
      ensures v.FileMissing? ==> v.recorded == manifest[shardId].checksum
      ensures v.Verdict? ==>
        && v.count == |ScanLines(shards.files[shardId])| && v.manifestChecksum == manifest[shardId].checksum
        && v.actualChecksum == FoldLines(w.hash, ScanLines(shards.files[shardId]))
        && (v.ok <==> v.actualChecksum == v.manifestChecksum && v.count == manifest[shardId].count)
    {
      if shardId !in manifest {
        return NotInManifest;
      }
      var row := manifest[shardId];
      var lines, count, checksum := shards.Recompute(w.hash, shardId);
      if lines.None? {
        return FileMissing(row.checksum);
      }
      return Verdict(count, row.checksum, checksum, checksum == row.checksum && count == row.count);
    }

    /** Replaces both tables in one transaction, which changes nothing exactly when two readable lines carry
        one id or the database reports an error in it. Counting the new rows may still fail after it. */
    method RebuildIndex(unreadable: set<ShardId>, dbOk: bool, countOk: bool)
      returns (ok: bool, skipped: set<ShardId>, count: nat)
      modifies this
      ensures if dbOk then RebuildStep(w, old(Snapshot()), unreadable, Snapshot()) else Snapshot() == old(Snapshot())
      ensures ok <==> dbOk && !Clash(w, shards.files - unreadable) && countOk
      ensures ok ==> skipped == shards.files.Keys * unreadable && count == |index|
    {
      var rows, shardRows;
      ok, skipped, rows, shardRows := RefillTables(unreadable);
      ok := ok && dbOk;
      if ok {
        index, manifest := rows, shardRows;
      }
      ok := ok && countOk;
      count := if ok then |index| else 0;
    }

    /** The open transaction of RebuildIndex: both tables emptied, then refilled shard by shard, in
        whatever order the directory lists them. */
    method RefillTables(unreadable: set<ShardId>)
      returns (ok: bool, skipped: set<ShardId>, rows: map<ReadingId, IndexRow>, shardRows: map<ShardId, ManifestRow>)
      ensures ok ==> Rebuilt(w, shards.files - unreadable, rows, shardRows)
      ensures ok <==> !Clash(w, shards.files - unreadable)
      ensures ok ==> skipped == shards.files.Keys * unreadable
    {
      ghost var readable := shards.files - unreadable;
      ghost var done: set<ShardId> := {};
      var todo := shards.files.Keys;
      rows, shardRows, skipped := map[], map[], {};
      while todo != {}
        invariant todo + done + skipped == shards.files.Keys
        invariant todo !! done && todo !! skipped && done !! unreadable && skipped <= unreadable
        invariant Refilled(w, readable, done, rows, shardRows)
      {
        var sid :| sid in todo;
        todo := todo - {sid};
        if sid in unreadable {
          skipped := skipped + {sid};
        } else {
          var lines, count, checksum := shards.Recompute(w.hash, sid);
          assert lines.value == LinesOf(readable, sid);
          var inserted;
          inserted, rows := RebuildShardRows(w, readable, done, sid, lines.value, rows);
          if !inserted {
            return false, skipped, rows, shardRows;
          }
          done := done + {sid};
          shardRows := shardRows[sid := ManifestRow(count, checksum)];
        }
      }
      assert readable.Keys == done;
      RefilledAll(w, readable, done, rows, shardRows);
      return true, skipped, rows, shardRows;
    }
  }

  // --- Refilling the index ----------------------------------------------------------------------

  /** The lines visited once the shards in `done` and the first `upto` lines of `current` are loaded. */
  ghost predicate Visited(done: set<ShardId>, current: ShardId, upto: int, sid: ShardId, k: int) {
    sid in done || (sid == current && k < upto)
  }

  ghost predicate LoadedUpTo(w: World, files: map<ShardId, Bytes>, done: set<ShardId>, current: ShardId, upto: int,
                             rows: map<ReadingId, IndexRow>) {
    && (forall id :: id in rows ==>
          RowFits(w, files, id, rows[id]) && Visited(done, current, upto, rows[id].shardId, rows[id].lineNo))
    && (forall id, sid, k :: Names(w, files, id, sid, k) && Visited(done, current, upto, sid, k) ==>
          id in rows && rows[id].shardId == sid && rows[id].lineNo == k)
  }

  ghost predicate Loaded(w: World, files: map<ShardId, Bytes>, done: set<ShardId>, rows: map<ReadingId, IndexRow>) {
    forall sid :: LoadedUpTo(w, files, done, sid, 0, rows)
  }

  /** Both tables hold what the shards in `done` say. */
  ghost predicate Refilled(w: World, files: map<ShardId, Bytes>, done: set<ShardId>,
                           rows: map<ReadingId, IndexRow>, shardRows: map<ShardId, ManifestRow>) {
    && Loaded(w, files, done, rows)
    && shardRows.Keys == done
    && forall sid :: sid in shardRows ==> ManifestRowFits(w, files, sid, shardRows[sid])
  }

  lemma RefilledAll(w: World, files: map<ShardId, Bytes>, done: set<ShardId>,
                    rows: map<ReadingId, IndexRow>, shardRows: map<ShardId, ManifestRow>)
    requires Refilled(w, files, done, rows, shardRows) && files.Keys == done
    ensures Rebuilt(w, files, rows, shardRows) && !Clash(w, files)
  {
    forall id | id in rows
      ensures RowFits(w, files, id, rows[id])
    {
      assert LoadedUpTo(w, files, done, rows[id].shardId, 0, rows);
    }
    forall id, sid, k | Names(w, files, id, sid, k)
      ensures id in rows && rows[id].shardId == sid && rows[id].lineNo == k
    {
      assert LoadedUpTo(w, files, done, sid, 0, rows);
      assert Visited(done, sid, 0, sid, k);
    }
  }

  /** The callback of rebuildShardRows over one shard: undecodable lines are passed over, and the
      first id already present stops it. */
  method RebuildShardRows(w: World, ghost files: map<ShardId, Bytes>, ghost done: set<ShardId>, sid: ShardId,
                          lines: seq<Bytes>, rows: map<ReadingId, IndexRow>)
    returns (ok: bool, rows': map<ReadingId, IndexRow>)
    requires Loaded(w, files, done, rows) && sid !in done && lines == LinesOf(files, sid)
    ensures ok ==> Loaded(w, files, done + {sid}, rows')
    ensures !ok ==> Clash(w, files)
  {
    rows' := rows;
    assert LoadedUpTo(w, files, done, sid, 0, rows');
    for k := 0 to |lines|
      invariant LoadedUpTo(w, files, done, sid, k, rows')
    {
      var rd := w.unmarshal(lines[k]);
      if rd.Some? {
        if rd.value.id in rows' {
          SecondName(w, files, done, sid, k, rows', rd.value.id);
          return false, rows';
        }
        InsertRow(w, files, done, sid, k, rows', rd.value);
        rows' := rows'[rd.value.id := RowOf(rd.value, sid, k)];
      } else {
        PassOver(w, files, done, sid, k, rows');
      }
    }
    ShardLoaded(w, files, done, sid, rows');
    return true, rows';
  }

  lemma SecondName(w: World, files: map<ShardId, Bytes>, done: set<ShardId>, sid: ShardId, k: nat,
                   rows: map<ReadingId, IndexRow>, id: ReadingId)
    requires LoadedUpTo(w, files, done, sid, k, rows) && sid !in done
    requires id in rows && Names(w, files, id, sid, k)
    ensures Clash(w, files)
  {
    var at, j := rows[id].shardId, rows[id].lineNo;
    assert RowFits(w, files, id, rows[id]) && Visited(done, sid, k, at, j);
    TwoNames(w, files, id, at, j, sid, k);
  }

  lemma InsertRow(w: World, files: map<ShardId, Bytes>, done: set<ShardId>, sid: ShardId, k: nat,
                  rows: map<ReadingId, IndexRow>, rd: Reading)
    requires LoadedUpTo(w, files, done, sid, k, rows)
    requires k < |LinesOf(files, sid)| && w.unmarshal(LinesOf(files, sid)[k]) == Some(rd)
    requires rd.id !in rows
    ensures LoadedUpTo(w, files, done, sid, k + 1, rows[rd.id := RowOf(rd, sid, k)])
  {
    var rows' := rows[rd.id := RowOf(rd, sid, k)];
    assert RowFits(w, files, rd.id, rows'[rd.id]);
    forall id, at, j | Names(w, files, id, at, j) && Visited(done, sid, k + 1, at, j)
      ensures id in rows' && rows'[id].shardId == at && rows'[id].lineNo == j
    {
      if !(at == sid && j == k) {
        assert Visited(done, sid, k, at, j);
      }
    }
  }

  lemma PassOver(w: World, files: map<ShardId, Bytes>, done: set<ShardId>, sid: ShardId, k: nat,
                 rows: map<ReadingId, IndexRow>)
    requires LoadedUpTo(w, files, done, sid, k, rows)
    requires k < |LinesOf(files, sid)| && w.unmarshal(LinesOf(files, sid)[k]).None?
    ensures LoadedUpTo(w, files, done, sid, k + 1, rows)
  {
    forall id, at, j | Names(w, files, id, at, j) && Visited(done, sid, k + 1, at, j)
      ensures id in rows && rows[id].shardId == at && rows[id].lineNo == j
    {
      assert Visited(done, sid, k, at, j);
    }
  }

  lemma ShardLoaded(w: World, files: map<ShardId, Bytes>, done: set<ShardId>, sid: ShardId,
                    rows: map<ReadingId, IndexRow>)
    requires LoadedUpTo(w, files, done, sid, |LinesOf(files, sid)|, rows)
    ensures Loaded(w, files, done + {sid}, rows)
  {
  }
}
