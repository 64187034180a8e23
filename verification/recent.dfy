/** The newest indexed readings of a collector, and the newest one within a time window. Times are in
    nanoseconds. */
module RecentReadings {
  import opened Wrappers
  import opened ReadingState
  import Int64

  const NANOS_PER_SECOND := 1_000_000_000

  datatype ReadingSummary = ReadingSummary(id: ReadingId, row: IndexRow)

  type Index = map<ReadingId, IndexRow>

  ghost predicate RowOfCollector(index: Index, collector: Text, id: ReadingId) {
    id in index && index[id].collector == collector
  }

  ghost predicate Lists(index: Index, collector: Text, rows: seq<ReadingSummary>) {
    && (forall i :: 0 <= i < |rows| ==>
          RowOfCollector(index, collector, rows[i].id) && rows[i].row == index[rows[i].id])
    && (forall i, j :: 0 <= i < j < |rows| ==> rows[i].id != rows[j].id && rows[i].row.ts >= rows[j].row.ts)
  }

  ghost predicate Listed(rows: seq<ReadingSummary>, id: ReadingId) {
    exists i :: 0 <= i < |rows| && rows[i].id == id
  }

  /** ORDER BY ts DESC LIMIT n: whatever is left out is no newer than anything listed, and something is
      left out only when the list is full. Rows of the same time may come in any order. */
  ghost predicate NewestFirst(index: Index, collector: Text, n: nat, rows: seq<ReadingSummary>) {
    && Lists(index, collector, rows) && |rows| <= n
    && forall id :: RowOfCollector(index, collector, id) && !Listed(rows, id) ==>
         |rows| == n && forall i :: 0 <= i < |rows| ==> rows[i].row.ts >= index[id].ts
  }

  function PageSize(limit: int): (n: nat)
    ensures n > 0
  {
    if limit <= 0 then 50 else limit
  }

  /** The LIMIT query, by repeated selection of a newest row not yet listed. */
  method Recent(index: Index, collector: Text, limit: int) returns (rows: seq<ReadingSummary>)
    ensures NewestFirst(index, collector, if limit <= 0 then 50 else limit, rows)
  {
    rows := [];
    var left := set id | id in index && index[id].collector == collector;
    while left != {} && |rows| < PageSize(limit)
      invariant Lists(index, collector, rows) && |rows| <= PageSize(limit)
      invariant forall id :: id in left <==> RowOfCollector(index, collector, id) && !Listed(rows, id)
      invariant forall id, i :: id in left && 0 <= i < |rows| ==> rows[i].row.ts >= index[id].ts
      decreases left
    {
      GreatestExists(index, left, (row: IndexRow) => row.ts);
      var id :| id in left && forall other :: other in left ==> index[other].ts <= index[id].ts;
      ghost var before := rows;
      rows := rows + [ReadingSummary(id, index[id])];
      left := left - {id};
      ListedMore(before, ReadingSummary(id, index[id]));
    }
  }

  lemma ListedMore(rows: seq<ReadingSummary>, next: ReadingSummary)
    ensures forall id :: Listed(rows + [next], id) <==> Listed(rows, id) || id == next.id
  {
    var more := rows + [next];
    assert more[|rows|] == next;
    forall id | Listed(rows, id)
      ensures Listed(more, id)
    {
      var i :| 0 <= i < |rows| && rows[i].id == id;
      assert more[i].id == id;
    }
  }

  // --- The window -------------------------------------------------------------------------------

  function Seconds(windowSeconds: int): int {
    if windowSeconds <= 0 then 60 else windowSeconds
  }

  /** now.Add(-time.Duration(seconds) * time.Second), whose product is a 64-bit one. */
  function Threshold(now: int, windowSeconds: int): int {
    now + Int64.Wrap(-Seconds(windowSeconds) * NANOS_PER_SECOND)
  }

  /** The window is as long as it says, a minute where it says nothing, exactly up to 9223372036 seconds. */
  lemma WindowIsExactIff(now: int, windowSeconds: int)
    ensures var seconds := if windowSeconds <= 0 then 60 else windowSeconds;
      Threshold(now, windowSeconds) == now - seconds * 1_000_000_000 <==> seconds <= 9_223_372_036
  {
    assert Int64.Fits(-Seconds(windowSeconds) * NANOS_PER_SECOND) <==> Seconds(windowSeconds) <= 9_223_372_036;
  }

  function FirstSince(rows: seq<ReadingSummary>, threshold: int): Option<ReadingSummary> {
    if rows == [] then None
    else if rows[0].row.ts >= threshold then Some(rows[0])
    else FirstSince(rows[1..], threshold)
  }

  method LatestWithin(rows: seq<ReadingSummary>, now: int, windowSeconds: int) returns (latest: Option<ReadingSummary>)
    ensures latest == FirstSince(rows, Threshold(now, windowSeconds))
  {
    if |rows| == 0 {
      return None;
    }
    var window := windowSeconds;
    if window <= 0 {
      window := 60;
    }
    var threshold := now + Int64.Wrap(-window * NANOS_PER_SECOND);
    for i := 0 to |rows|
      invariant FirstSince(rows, threshold) == FirstSince(rows[i..], threshold)
    {
      if !(rows[i].row.ts < threshold) {
        return Some(rows[i]);
      }
    }
    return None;
  }

  /** An indexed reading of the collector within the window such that none is newer. */
  ghost predicate NewestSince(index: Index, collector: Text, threshold: int, s: ReadingSummary) {
    && RowOfCollector(index, collector, s.id) && s.row == index[s.id] && s.row.ts >= threshold
    && forall id :: RowOfCollector(index, collector, id) ==> index[id].ts <= s.row.ts
  }

  lemma {:induction false} NoneSince(rows: seq<ReadingSummary>, threshold: int)
    requires forall i :: 0 <= i < |rows| ==> rows[i].row.ts < threshold
    ensures FirstSince(rows, threshold) == None
  {
    if rows != [] {
      NoneSince(rows[1..], threshold);
    }
  }

  /** Stopping at the first match loses nothing on a newest-first list, however short it was cut: it is
      the newest of all indexed readings in the window, and there is none in it when there is no match. */
  lemma FirstSinceIsNewest(index: Index, collector: Text, limit: int, rows: seq<ReadingSummary>, threshold: int)
    requires NewestFirst(index, collector, PageSize(limit), rows)
    ensures match FirstSince(rows, threshold)
      case Some(s) => NewestSince(index, collector, threshold, s)
      case None => forall id :: RowOfCollector(index, collector, id) ==> index[id].ts < threshold
  {
    if rows != [] && rows[0].row.ts < threshold {
      NoneSince(rows, threshold);
    }
  }
}
