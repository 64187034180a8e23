/** The three byte scanners of the shard store (countLines, ReadLine and Scan), each written
    as the loop it is and each proved against one shared notion of a line: the segments a
    byte sequence falls into at its newlines. */
module Lines {
  import opened Wrappers

  newtype Byte = x: int | 0 <= x < 256
  type Bytes = seq<Byte>

  const NL: Byte := 10

  // --- Segments -----------------------------------------------------------------------------

  /** The stretches between newlines, in order. There is always one more than there are newlines. */
  function Segments(data: Bytes): (segs: seq<Bytes>)
    ensures |segs| >= 1
  {
    if data == [] then [[]]
    else
      var front, b := data[..|data| - 1], data[|data| - 1];
      var segs := Segments(front);
      if b == NL then segs + [[]] else Extend(segs, [b])
  }

  /** Lengthen the last, still open segment. */
  function Extend(segs: seq<Bytes>, tail: Bytes): (r: seq<Bytes>)
    requires |segs| >= 1
    ensures |r| == |segs|
  {
    segs[..|segs| - 1] + [segs[|segs| - 1] + tail]
  }

  lemma ExtendTwice(segs: seq<Bytes>, a: Bytes, b: Bytes)
    requires |segs| >= 1
    ensures Extend(Extend(segs, a), b) == Extend(segs, a + b)
  {
    var last := segs[|segs| - 1];
    assert last + a + b == last + (a + b);
  }

  /** Inverse of Segments: put one newline between consecutive segments. */
  function Join(segs: seq<Bytes>): Bytes
    requires |segs| >= 1
  {
    if |segs| == 1 then segs[0] else Join(segs[..|segs| - 1]) + [NL] + segs[|segs| - 1]
  }

  ghost predicate NewlineFree(segs: seq<Bytes>) {
    forall i :: 0 <= i < |segs| ==> NL !in segs[i]
  }

  lemma {:induction false} SegmentsStep(data: Bytes, i: nat)
    requires i < |data|
    ensures var segs := Segments(data[..i]);
      Segments(data[..i + 1]) ==
        if data[i] == NL then segs + [[]] else Extend(segs, [data[i]])
  {
    assert data[..i + 1][..i] == data[..i];
  }

  lemma {:induction false} SegmentsAppend(data: Bytes, tail: Bytes)
    requires NL !in tail
    ensures Segments(data + tail) == Extend(Segments(data), tail)
  {
    if tail == [] {
      assert data + tail == data;
      assert Segments(data)[|Segments(data)| - 1] + tail == Segments(data)[|Segments(data)| - 1];
    } else {
      var front, b := tail[..|tail| - 1], tail[|tail| - 1];
      SegmentsAppend(data, front);
      assert (data + tail)[..|data + tail| - 1] == data + front;
      ExtendTwice(Segments(data), front, [b]);
      assert front + [b] == tail;
    }
  }

  /** A newline-free tail after complete lines is the open segment. */
  lemma SegmentsOpenTail(data: Bytes, done: seq<Bytes>, tail: Bytes)
    requires Segments(data) == done + [[]] && NL !in tail
    ensures Segments(data + tail) == done + [tail]
  {
    SegmentsAppend(data, tail);
    assert (done + [[]])[..|done|] == done;
    assert [] + tail == tail;
  }

  lemma SegmentsNewline(data: Bytes)
    ensures Segments(data + [NL]) == Segments(data) + [[]]
  {
    assert (data + [NL])[..|data|] == data;
  }

  /** Every byte sequence is the join of its segments, and no segment holds a newline. */
  lemma {:induction false} JoinSegments(data: Bytes)
    ensures Join(Segments(data)) == data
    ensures NewlineFree(Segments(data))
  {
    if data != [] {
      var front, b := data[..|data| - 1], data[|data| - 1];
      JoinSegments(front);
      assert data == front + [b];
      if b == NL {
        JoinNewline(Segments(front));
      } else {
        JoinGrow(Segments(front), b);
      }
    }
  }

  lemma JoinNewline(segs: seq<Bytes>)
    requires |segs| >= 1
    ensures Join(segs + [[]]) == Join(segs) + [NL]
  {
    assert (segs + [[]])[..|segs|] == segs;
  }

  lemma JoinGrow(segs: seq<Bytes>, b: Byte)
    requires |segs| >= 1
    ensures Join(Extend(segs, [b])) == Join(segs) + [b]
  {
    var front, last := segs[..|segs| - 1], segs[|segs| - 1];
    assert (front + [last + [b]])[..|front|] == front;
    if |segs| > 1 {
      assert Join(front) + [NL] + (last + [b]) == Join(front) + [NL] + last + [b];
    }
  }

  lemma SegmentsAfterNewline(data: Bytes, tail: Bytes)
    requires NL !in tail
    ensures Segments(data + [NL] + tail) == Segments(data) + [tail]
  {
    SegmentsNewline(data);
    SegmentsOpenTail(data + [NL], Segments(data), tail);
  }

  /** Segments is the only such decomposition: newline-free pieces come back from their join. */
  lemma {:induction false} SegmentsJoin(segs: seq<Bytes>)
    requires |segs| >= 1 && NewlineFree(segs)
    ensures Segments(Join(segs)) == segs
  {
    if |segs| == 1 {
      SegmentsOpenTail([], [], segs[0]);
      assert [] + segs[0] == segs[0];
    } else {
      var front, last := segs[..|segs| - 1], segs[|segs| - 1];
      SegmentsJoin(front);
      SegmentsAfterNewline(Join(front), last);
      assert front + [last] == segs;
    }
  }

  // --- What each scanner reports --------------------------------------------------------------

  /** What Scan hands to its callback: the segments that hold at least one byte. */
  function NonEmpty(segs: seq<Bytes>): (lines: seq<Bytes>)
    ensures forall i :: 0 <= i < |lines| ==> lines[i] != []
  {
    if segs == [] then []
    else
      var front := NonEmpty(segs[..|segs| - 1]);
      if segs[|segs| - 1] == [] then front else front + [segs[|segs| - 1]]
  }

  function ScanLines(data: Bytes): seq<Bytes> {
    NonEmpty(Segments(data))
  }

  /** The slice ReadLine passes to the decoder: a terminated line, or a non-empty unterminated tail. */
  function LineAt(data: Bytes, lineNo: int): Option<Bytes> {
    var segs := Segments(data);
    if 0 <= lineNo < |segs| - 1 then Some(segs[lineNo])
    else if lineNo == |segs| - 1 && segs[lineNo] != [] then Some(segs[lineNo])
    else None
  }

  ghost function NewlinesAt(data: Bytes): set<int> {
    set i | 0 <= i < |data| && data[i] == 10
  }

  lemma {:induction false} NewlinesCount(data: Bytes)
    ensures |Segments(data)| == 1 + |NewlinesAt(data)|
  {
    if data != [] {
      var n := |data| - 1;
      var front := data[..n];
      NewlinesCount(front);
      assert NewlinesAt(data) == NewlinesAt(front) + if data[n] == 10 then {n} else {};
    }
  }

  /** countLines: the number of newline bytes. */
  method CountLines(data: Bytes) returns (n: nat)
    ensures n == |Segments(data)| - 1
    ensures n == |NewlinesAt(data)|
  {
    NewlinesCount(data);
    n := 0;
    for i := 0 to |data|
      invariant n == |Segments(data[..i])| - 1
    {
      SegmentsStep(data, i);
      if data[i] == NL {
        n := n + 1;
      }
    }
    assert data[..|data|] == data;
  }

  /** The search loop of ReadLine, up to the slice it decodes. */
  method FindLine(data: Bytes, lineNo: int) returns (slice: Option<Bytes>)
    ensures slice == LineAt(data, lineNo)
  {
    var current, start, i := 0, 0, 0;
    ghost var done: seq<Bytes> := [];
    while i < |data|
      invariant AtSegment(data, i, start, done) && current == |done|
      invariant !(0 <= lineNo < current)
    {
      NextSegment(data, i, start, done);
      if data[i] == NL {
        if current == lineNo {
          LineEnded(data, i + 1, done, data[start..i]);
          return Some(data[start..i]);
        }
        done := done + [data[start..i]];
        current := current + 1;
        start := i + 1;
      }
      i := i + 1;
    }
    assert data[..i] == data && data[start..] == data[start..i];
    if current == lineNo && start < |data| {
      return Some(data[start..]);
    }
    return None;
  }

  /** A scanner standing at i: the segments in `done` are complete, and one has been open since `start`. */
  ghost predicate AtSegment(data: Bytes, i: nat, start: nat, done: seq<Bytes>) {
    start <= i <= |data| && Segments(data[..i]) == done + [data[start..i]]
  }

  lemma NextSegment(data: Bytes, i: nat, start: nat, done: seq<Bytes>)
    requires i < |data| && AtSegment(data, i, start, done)
    ensures data[i] == NL ==> AtSegment(data, i + 1, i + 1, done + [data[start..i]])
    ensures data[i] != NL ==> AtSegment(data, i + 1, start, done)
  {
    NextOpenSegment(data, i, done, data[start..i]);
    if data[i] == NL {
      assert data[i + 1..i + 1] == [];
    } else {
      assert data[start..i + 1] == data[start..i] + [data[i]];
    }
  }

  lemma NextOpenSegment(data: Bytes, i: nat, done: seq<Bytes>, open: Bytes)
    requires i < |data|
    requires Segments(data[..i]) == done + [open]
    ensures Segments(data[..i + 1]) == if data[i] == NL then done + [open] + [[]] else done + [open + [data[i]]]
  {
    SegmentsStep(data, i);
    assert (done + [open])[..|done|] == done;
  }

  lemma LineEnded(data: Bytes, i: nat, done: seq<Bytes>, line: Bytes)
    requires AtSegment(data, i, i, done + [line])
    ensures LineAt(data, |done|) == Some(line)
  {
    assert data[i..i] == [];
    EndedSegmentsStay(data, i, done + [line], []);
  }

  /** Reading on never changes a segment that a newline has already ended. */
  lemma {:induction false} EndedSegmentsStay(data: Bytes, i: nat, done: seq<Bytes>, open: Bytes)
    requires i <= |data|
    requires Segments(data[..i]) == done + [open]
    ensures |done| < |Segments(data)| && done <= Segments(data)
  {
    if i == |data| {
      assert data[..i] == data;
    } else {
      var front := data[..|data| - 1];
      assert front[..i] == data[..i];
      EndedSegmentsStay(front, i, done, open);
    }
  }

  /** The line with this number, once a newline has ended it. */
  function EndedLine(data: Bytes, k: int): Option<Bytes> {
    var segs := Segments(data);
    if 0 <= k < |segs| - 1 then Some(segs[k]) else None
  }

  /** A file that grows keeps the numbers of its ended lines. */
  lemma EndedLineStays(data: Bytes, longer: Bytes, k: int)
    requires data <= longer && EndedLine(data, k).Some?
    ensures EndedLine(longer, k) == EndedLine(data, k)
  {
    var segs := Segments(data);
    assert longer[..|data|] == data && segs == segs[..|segs| - 1] + [segs[|segs| - 1]];
    EndedSegmentsStay(longer, |data|, segs[..|segs| - 1], segs[|segs| - 1]);
  }

  // --- Agreement of the scanners --------------------------------------------------------------

  /** No newline starts the data or follows another one. */
  ghost predicate NoBlankLine(data: Bytes) {
    forall i :: 0 <= i < |data| && data[i] == NL ==> i > 0 && data[i - 1] != NL
  }

  /** Scan's k-th line is the slice ReadLine decodes, for every k, and neither knows a line more. */
  ghost predicate ScannersAgree(data: Bytes) {
    forall k: int :: LineAt(data, k) == if 0 <= k < |ScanLines(data)| then Some(ScanLines(data)[k]) else None
  }

  ghost predicate OnlyLastEmpty(segs: seq<Bytes>) {
    forall i :: 0 <= i < |segs| - 1 ==> segs[i] != []
  }

  lemma {:induction false} NonEmptyAll(segs: seq<Bytes>)
    requires forall i :: 0 <= i < |segs| ==> segs[i] != []
    ensures NonEmpty(segs) == segs
  {
    if segs != [] {
      NonEmptyAll(segs[..|segs| - 1]);
      assert segs == segs[..|segs| - 1] + [segs[|segs| - 1]];
    }
  }

  lemma LastSegmentEmptyIff(data: Bytes)
    ensures var segs := Segments(data);
      segs[|segs| - 1] == [] <==> data == [] || data[|data| - 1] == NL
  {
  }

  lemma FrontHasNoBlankLine(data: Bytes)
    requires data != []
    ensures var front := data[..|data| - 1];
      NoBlankLine(data) <==> NoBlankLine(front) && (data[|data| - 1] == NL ==> front != [] && front[|front| - 1] != NL)
  {
    var front := data[..|data| - 1];
    assert forall i :: 0 <= i < |front| ==> front[i] == data[i];
  }

  lemma FrontOnlyLastEmpty(data: Bytes)
    requires data != []
    ensures var front := data[..|data| - 1];
      var segs := Segments(front);
      OnlyLastEmpty(Segments(data)) <==> OnlyLastEmpty(segs) && (data[|data| - 1] == NL ==> segs[|segs| - 1] != [])
  {
    var segs, all := Segments(data[..|data| - 1]), Segments(data);
    assert forall i :: 0 <= i < |segs| - 1 ==> all[i] == segs[i];
    if data[|data| - 1] == NL {
      assert all[|segs| - 1] == segs[|segs| - 1];
    }
  }

  lemma {:induction false} BlankLineIsEmptySegment(data: Bytes)
    ensures NoBlankLine(data) <==> OnlyLastEmpty(Segments(data))
  {
    if data != [] {
      var front := data[..|data| - 1];
      BlankLineIsEmptySegment(front);
      LastSegmentEmptyIff(front);
      FrontHasNoBlankLine(data);
      FrontOnlyLastEmpty(data);
    }
  }

  /** ReadLine and Scan number the lines alike exactly when the data has no blank line. */
  lemma ScannersAgreeIffNoBlankLine(data: Bytes)
    ensures ScannersAgree(data) <==> NoBlankLine(data)
    ensures NoBlankLine(data) ==>
      var tail := data != [] && data[|data| - 1] != NL;
      |ScanLines(data)| == |Segments(data)| - 1 + if tail then 1 else 0
  {
    BlankLineIsEmptySegment(data);
    LastSegmentEmptyIff(data);
    var segs := Segments(data);
    var last := segs[|segs| - 1];
    if OnlyLastEmpty(segs) {
      NonEmptyAll(segs[..|segs| - 1]);
      assert ScanLines(data) == if last == [] then segs[..|segs| - 1] else segs;
      assert ScannersAgree(data);
    } else {
      var j :| 0 <= j < |segs| - 1 && segs[j] == [];
      assert LineAt(data, j) == Some([]);
      assert !ScannersAgree(data);
    }
  }

  // --- Files written line by line --------------------------------------------------------------

  /** A file holding exactly these lines, each ended by a newline. */
  function Render(lines: seq<Bytes>): Bytes {
    if lines == [] then [] else Render(lines[..|lines| - 1]) + lines[|lines| - 1] + [NL]
  }

  ghost predicate WellFormedLine(line: Bytes) {
    line != [] && NL !in line
  }

  ghost predicate WellFormedLines(lines: seq<Bytes>) {
    forall i :: 0 <= i < |lines| ==> WellFormedLine(lines[i])
  }

  lemma WholeLines(lines: seq<Bytes>, line: Bytes)
    requires WellFormedLines(lines) && WellFormedLine(line)
    ensures WellFormedLines(lines + [line])
  {
  }

  lemma {:induction false} RenderSegments(lines: seq<Bytes>)
    requires WellFormedLines(lines)
    ensures Segments(Render(lines)) == lines + [[]]
  {
    if lines != [] {
      var front, last := lines[..|lines| - 1], lines[|lines| - 1];
      RenderSegments(front);
      SegmentsOpenTail(Render(front), front, last);
      assert front + [last] == lines;
      SegmentsNewline(Render(front) + last);
    }
  }

  /** Rendering then scanning gives the lines back, by all three scanners. */
  lemma RenderRoundTrip(lines: seq<Bytes>)
    requires WellFormedLines(lines)
    ensures |Segments(Render(lines))| - 1 == |lines|
    ensures ScanLines(Render(lines)) == lines
    ensures forall k: int :: LineAt(Render(lines), k) == if 0 <= k < |lines| then Some(lines[k]) else None
  {
    RenderSegments(lines);
    NonEmptyAll(lines);
    assert (lines + [[]])[..|lines|] == lines;
  }

  /** A rendering followed by a torn write of a well-formed line: the tail shows up as one extra
      scanned line, whether or not the newline made it, and as no line if nothing was written. */
  lemma TornWrite(lines: seq<Bytes>, line: Bytes, written: nat)
    requires WellFormedLines(lines) && WellFormedLine(line)
    requires written <= |line| + 1
    ensures ScanLines(Render(lines) + (line + [NL])[..written]) ==
      if written == 0 then lines
      else if written <= |line| then lines + [line[..written]]
      else lines + [line]
  {
    if written == 0 {
      RenderRoundTrip(lines);
      assert Render(lines) + (line + [NL])[..written] == Render(lines);
    } else if written <= |line| {
      var tail := line[..written];
      assert (line + [NL])[..written] == tail;
      ScanOpenTail(lines, tail);
    } else {
      RenderSnoc(lines, line);
      assert (line + [NL])[..written] == line + [NL];
      RenderRoundTrip(lines + [line]);
    }
  }

  lemma ScanOpenTail(lines: seq<Bytes>, tail: Bytes)
    requires WellFormedLines(lines) && WellFormedLine(tail)
    ensures ScanLines(Render(lines) + tail) == lines + [tail]
  {
    RenderSegments(lines);
    SegmentsOpenTail(Render(lines), lines, tail);
    NonEmptyAll(lines + [tail]);
  }

  lemma RenderSnoc(lines: seq<Bytes>, line: Bytes)
    ensures Render(lines + [line]) == Render(lines) + (line + [NL])
  {
    assert (lines + [line])[..|lines|] == lines;
  }
}
