/** The shard store: JSONL files with a begin / append / commit-or-rollback lease and a cache of
    line counts. One object owns the files, as one mutex guards them. */
module ShardStore {
  import opened Wrappers
  import opened Lines
  import opened Checksum
  import opened ReadingState

  /** An open append transaction: where it may be rolled back to and which line it will write. */
  datatype Lease = Lease(shardId: ShardId, sizeBefore: nat, lineNo: int)

  predicate Grown(files: map<ShardId, Bytes>, lease: Lease) {
    lease.shardId in files && |files[lease.shardId]| > lease.sizeBefore
  }

  /** What a rollback leaves of the files. */
  function CutBack(files: map<ShardId, Bytes>, lease: Lease, undo: Cleanup): map<ShardId, Bytes> {
    if !undo.Skipped? && Grown(files, lease)
    then files[lease.shardId := files[lease.shardId][..lease.sizeBefore]] else files
  }

  /** It gets as far as resetting the cache. */
  predicate RollsThrough(files: map<ShardId, Bytes>, lease: Lease, undo: Cleanup) {
    undo.Through? || (undo.CutOnly? && !Grown(files, lease))
  }

  class Store {
    var files: map<ShardId, Bytes>
    var counts: map<ShardId, int>
    var locked: bool

    constructor ()
      ensures files == map[] && counts == map[] && !locked
    {
      files, counts, locked := map[], map[], false;
    }

    /** Takes the lock and hands out the next line number; the cache is filled on the way. A failing
        Begin (cancelled context, or an unreadable directory) changes nothing. */
    method Begin(shardId: ShardId, works: bool, recountOk: bool) returns (lease: Option<Lease>)
      requires !locked
      modifies this
      ensures files == old(files)
      ensures lease.Some? <==> works
      ensures lease.None? ==> !locked && counts == old(counts)
      ensures lease.Some? ==> locked && counts == old(counts)[shardId := lease.value.lineNo]
      ensures lease.Some? ==>
        lease.value == Lease(shardId, |FileContent(files, shardId)|, NextLine(files, old(counts), shardId, recountOk))
      ensures lease.Some? ==>
        lease.value.lineNo == if shardId !in files then 0
                              else if shardId in old(counts) && old(counts)[shardId] >= 0 then old(counts)[shardId]
                              else if recountOk then |NewlinesAt(files[shardId])| else 0
    {
      if !works {
        return None;
      }
      locked := true;
      var size, lineNo := 0, 0;
      if shardId in files {
        size := |files[shardId]|;
        NewlinesCount(files[shardId]);
        lineNo := LineCountLocked(shardId, recountOk);
      } else {
        counts := counts[shardId := 0];
      }
      return Some(Lease(shardId, size, lineNo));
    }

    /** The cached count, or a recount; a file that cannot be read counts as empty, and is cached so. */
    method LineCountLocked(shardId: ShardId, readable: bool) returns (count: int)
      requires locked && shardId in files
      modifies this`counts
      ensures count == NextLine(files, old(counts), shardId, readable)
      ensures counts == old(counts)[shardId := count]
    {
      if shardId in counts && counts[shardId] >= 0 {
        assert counts == counts[shardId := counts[shardId]];
        return counts[shardId];
      }
      count := 0;
      if readable {
        count := CountLines(files[shardId]);
      }
      counts := counts[shardId := count];
    }

    /** Writes the line and its newline as far as `write` lets it; the cache moves on only once the
        file has been synced and closed. */
    method AppendLine(lease: Lease, data: Bytes, write: Write) returns (ok: bool)
      requires locked
      modifies this`files, this`counts
      ensures ok <==> write.Written?
      ensures write.Refused? ==> files == old(files)
      ensures !write.Refused? ==>
        var whole := data + [10];
        var written := if ok || write.bytes >= |whole| then whole else whole[..write.bytes];
        files == old(files)[lease.shardId := FileContent(old(files), lease.shardId) + written]
      ensures counts == if ok then old(counts)[lease.shardId := lease.lineNo + 1] else old(counts)
    {
      if write.Refused? {
        return false;
      }
      var before := if lease.shardId in files then files[lease.shardId] else [];
      if write.Torn? {
        files := files[lease.shardId := before + Prefix(data + [NL], write.bytes)];
        return false;
      }
      files := files[lease.shardId := before + (data + [NL])];
      counts := counts[lease.shardId := lease.lineNo + 1];
      return true;
    }

    /** Releases the lock, keeping the line. */
    method Commit()
      requires locked
      modifies this`locked
      ensures !locked
    {
      locked := false;
    }

    /** Cuts the file back to the size recorded at Begin and resets the cache, as far as `undo` lets it;
        the lock is released in any case. */
    method Rollback(lease: Lease, undo: Cleanup)
      requires locked
      modifies this
      ensures !locked
      ensures files == CutBack(old(files), lease, undo)
      ensures counts == if RollsThrough(old(files), lease, undo) then old(counts)[lease.shardId := lease.lineNo]
                        else old(counts)
    {
      locked := false;
      if undo.Skipped? {
        return;
      }
      if lease.shardId in files {
        var data := files[lease.shardId];
        if |data| > lease.sizeBefore {
          files := files[lease.shardId := data[..lease.sizeBefore]];
          if undo.CutOnly? {
            return;
          }
        }
      }
      counts := counts[lease.shardId := lease.lineNo];
    }

    /** The slice of the file that ReadLine decodes. */
    method ReadLine(shardId: ShardId, lineNo: int) returns (slice: Option<Bytes>)
      ensures slice == if shardId in files then LineAt(files[shardId], lineNo) else None
    {
      if shardId !in files {
        return None;
      }
      slice := FindLine(files[shardId], lineNo);
    }

    /** Recompute: scan the whole file with a callback that accepts everything. */
    method Recompute(h: Hash, shardId: ShardId) returns (lines: Option<seq<Bytes>>, count: nat, checksum: Bytes)
      ensures lines.Some? <==> shardId in files
      ensures lines.Some? ==> lines.value == LinesOf(files, shardId)
      ensures lines.Some? ==> count == |lines.value| && checksum == FoldLines(h, lines.value)
    {
      if shardId !in files {
        return None, 0, [];
      }
      var accept := (k: nat, line: Bytes) => false;
      var ok, n, sum, calls := Scan(h, files[shardId], accept);
      assert NoneFails(accept, ScanLines(files[shardId]));
      return Some(calls), n, sum;
    }
  }
}
