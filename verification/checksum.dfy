/** The running checksum of a shard and the Scan loop that recomputes it. The hash itself is a
    parameter: nothing here depends on which hash is used. */
module Checksum {
  import opened Lines

  type Hash = Bytes -> Bytes

  /** What a hex digest looks like: at least one byte, none of them zero. */
  ghost predicate HexDigests(h: Hash) {
    forall x :: h(x) != [] && 0 !in h(x)
  }

  function FoldChecksum(h: Hash, prev: Bytes, line: Bytes): Bytes {
    h(prev + [0] + line)
  }

  function FoldLines(h: Hash, lines: seq<Bytes>): Bytes {
    if lines == [] then [] else FoldChecksum(h, FoldLines(h, lines[..|lines| - 1]), lines[|lines| - 1])
  }

  lemma FoldSnoc(h: Hash, lines: seq<Bytes>, line: Bytes)
    ensures FoldLines(h, lines + [line]) == FoldChecksum(h, FoldLines(h, lines), line)
  {
    assert (lines + [line])[..|lines|] == lines;
  }

  // --- The fold identifies the line sequence ---------------------------------------------------

  ghost predicate Collision(h: Hash, a: Bytes, b: Bytes) {
    a != b && h(a) == h(b)
  }

  /** An input hashed while folding these lines: the fold so far, a zero byte, the next line. */
  ghost predicate FoldInput(h: Hash, lines: seq<Bytes>, input: Bytes) {
    exists k :: 0 <= k < |lines| && input == FoldLines(h, lines[..k]) + [0] + lines[k]
  }

  /** Two different inputs with one digest, one hashed while folding xs, the other while folding ys. */
  ghost predicate FoldsCollide(h: Hash, xs: seq<Bytes>, ys: seq<Bytes>) {
    exists a, b :: FoldInput(h, xs, a) && FoldInput(h, ys, b) && Collision(h, a, b)
  }

  lemma FirstZero(p: Bytes, x: Bytes)
    requires 0 !in p
    ensures var s := p + [0] + x;
      s[|p|] == 0 && forall i :: 0 <= i < |p| ==> s[i] != 0
  {
  }

  /** The zero byte written between them separates the previous checksum from the line. */
  lemma SeparatorUnique(p: Bytes, x: Bytes, q: Bytes, y: Bytes)
    requires 0 !in p && 0 !in q
    requires p + [0] + x == q + [0] + y
    ensures p == q && x == y
  {
    var s := p + [0] + x;
    FirstZero(p, x);
    FirstZero(q, y);
    assert |p| == |q|;
    assert p == s[..|p|] && q == s[..|q|];
    assert x == s[|p| + 1..] && y == s[|q| + 1..];
  }

  lemma FoldZeroFree(h: Hash, lines: seq<Bytes>)
    requires HexDigests(h)
    ensures 0 !in FoldLines(h, lines)
    ensures FoldLines(h, lines) == [] <==> lines == []
  {
  }

  lemma LastInput(h: Hash, front: seq<Bytes>, line: Bytes)
    ensures FoldInput(h, front + [line], FoldLines(h, front) + [0] + line)
  {
    var lines := front + [line];
    assert lines[..|front|] == front && lines[|front|] == line;
  }

  lemma EarlierInput(h: Hash, front: seq<Bytes>, line: Bytes, input: Bytes)
    requires FoldInput(h, front, input)
    ensures FoldInput(h, front + [line], input)
  {
    var k :| 0 <= k < |front| && input == FoldLines(h, front[..k]) + [0] + front[k];
    var lines := front + [line];
    assert lines[..k] == front[..k] && lines[k] == front[k];
  }

  lemma EarlierCollision(h: Hash, px: seq<Bytes>, x: Bytes, py: seq<Bytes>, y: Bytes)
    requires FoldsCollide(h, px, py)
    ensures FoldsCollide(h, px + [x], py + [y])
  {
    var a, b :| FoldInput(h, px, a) && FoldInput(h, py, b) && Collision(h, a, b);
    EarlierInput(h, px, x, a);
    EarlierInput(h, py, y, b);
  }

  /** Two line sequences, of any lengths, with the same checksum are equal, unless folding one and
      folding the other hashed two different inputs to one digest. */
  lemma {:induction false} FoldIdentifiesLines(h: Hash, xs: seq<Bytes>, ys: seq<Bytes>)
    requires HexDigests(h)
    requires FoldLines(h, xs) == FoldLines(h, ys)
    ensures xs == ys || FoldsCollide(h, xs, ys)
  {
    FoldZeroFree(h, xs);
    FoldZeroFree(h, ys);
    if xs != [] {
      var px, x := xs[..|xs| - 1], xs[|xs| - 1];
      var py, y := ys[..|ys| - 1], ys[|ys| - 1];
      assert xs == px + [x] && ys == py + [y];
      var a, b := FoldLines(h, px) + [0] + x, FoldLines(h, py) + [0] + y;
      if a != b {
        LastInput(h, px, x);
        LastInput(h, py, y);
        assert Collision(h, a, b);
      } else {
        FoldZeroFree(h, px);
        FoldZeroFree(h, py);
        SeparatorUnique(FoldLines(h, px), x, FoldLines(h, py), y);
        FoldIdentifiesLines(h, px, py);
        if px != py {
          EarlierCollision(h, px, x, py, y);
        }
      }
    }
  }

  // --- Scan ----------------------------------------------------------------------------------

  lemma {:induction false} NonEmptyConcat(a: seq<Bytes>, b: seq<Bytes>)
    ensures NonEmpty(a + b) == NonEmpty(a) + NonEmpty(b)
  {
    if b == [] {
      assert a + b == a;
    } else {
      NonEmptyConcat(a, b[..|b| - 1]);
      assert (a + b)[..|a + b| - 1] == a + b[..|b| - 1];
    }
  }

  /** The loop of Scan. `fails` says at which calls the callback returns an error; `calls` are
      the payloads it was given, the k-th under line number k. */
  method Scan(h: Hash, data: Bytes, fails: (nat, Bytes) -> bool)
    returns (ok: bool, count: nat, checksum: Bytes, calls: seq<Bytes>)
    ensures count == |calls| && calls <= ScanLines(data)
    ensures ok ==> calls == ScanLines(data) && checksum == FoldLines(h, calls) && NoneFails(fails, calls)
    ensures !ok ==> checksum == [] && calls != [] && fails(count - 1, calls[count - 1])
    ensures !ok ==> NoneFails(fails, calls[..count - 1])
    ensures NoneFails(fails, ScanLines(data)) ==> ok
  {
    var running: Bytes := [];
    var start, i := 0, 0;
    count, calls, checksum := 0, [], [];
    ghost var done: seq<Bytes> := [];
    while i <= |data|
      invariant 0 <= i <= |data| + 1
      invariant i <= |data| ==> 0 <= start && AtSegment(data, i, start, done)
      invariant i > |data| ==> done == Segments(data)
      invariant count == |calls| && Scanned(h, done, calls, running)
      invariant calls <= ScanLines(data) && NoneFails(fails, calls)
    {
      if i < |data| {
        NextSegment(data, i, start, done);
      }
      if i == |data| || data[i] == NL {
        EndSegment(h, data, i, start, done, calls, running);
        ghost var segment := data[start..i];
        done := done + [segment];
        if start < i {
          var line := data[start..i];
          running := FoldChecksum(h, running, line);
          count, calls := count + 1, calls + [line];
          if fails(count - 1, line) {
            assert calls[..count - 1] + [line] == calls;
            return false, count, [], calls;
          }
        }
        start := i + 1;
      }
      i := i + 1;
    }
    return true, count, running, calls;
  }

  /** The callback payloads and the running checksum once the segments in `done` are complete. */
  ghost predicate Scanned(h: Hash, done: seq<Bytes>, calls: seq<Bytes>, running: Bytes) {
    calls == NonEmpty(done) && running == FoldLines(h, calls)
  }

  ghost predicate NoneFails(fails: (nat, Bytes) -> bool, calls: seq<Bytes>) {
    forall k :: 0 <= k < |calls| ==> !fails(k, calls[k])
  }

  /** At the end of the data, or at a newline, the open segment is complete. */
  lemma EndSegment(h: Hash, data: Bytes, i: nat, start: nat, done: seq<Bytes>, calls: seq<Bytes>, running: Bytes)
    requires AtSegment(data, i, start, done) && Scanned(h, done, calls, running)
    requires i == |data| || data[i] == NL
    ensures var seg := data[start..i];
      && (i == |data| ==> Segments(data) == done + [seg])
      && (start == i ==> Scanned(h, done + [seg], calls, running))
      && (start < i ==> Scanned(h, done + [seg], calls + [seg], FoldChecksum(h, running, seg)))
      && (start < i ==> calls + [seg] <= ScanLines(data))
  {
    var seg := data[start..i];
    ScannedNext(h, done, calls, running, seg);
    SegmentsSoFar(data, i, start, done);
    PrefixLines(data, done + [seg]);
  }

  lemma ScannedNext(h: Hash, done: seq<Bytes>, calls: seq<Bytes>, running: Bytes, seg: Bytes)
    requires Scanned(h, done, calls, running)
    ensures NonEmpty(done + [seg]) == if seg == [] then calls else calls + [seg]
    ensures seg == [] ==> Scanned(h, done + [seg], calls, running)
    ensures seg != [] ==> Scanned(h, done + [seg], calls + [seg], FoldChecksum(h, running, seg))
  {
    assert (done + [seg])[..|done|] == done;
    FoldSnoc(h, calls, seg);
  }

  lemma SegmentsSoFar(data: Bytes, i: nat, start: nat, done: seq<Bytes>)
    requires AtSegment(data, i, start, done)
    requires i == |data| || data[i] == NL
    ensures done + [data[start..i]] <= Segments(data)
    ensures i == |data| ==> Segments(data) == done + [data[start..i]]
  {
    if i == |data| {
      assert data[..i] == data;
    } else {
      NextSegment(data, i, start, done);
      var ended := done + [data[start..i]];
      assert data[i + 1..i + 1] == [] && Segments(data[..i + 1]) == ended + [[]];
      EndedSegmentsStay(data, i + 1, ended, []);
    }
  }

  lemma PrefixLines(data: Bytes, done: seq<Bytes>)
    requires done <= Segments(data)
    ensures NonEmpty(done) <= ScanLines(data)
  {
    var rest := Segments(data)[|done|..];
    assert Segments(data) == done + rest;
    NonEmptyConcat(done, rest);
  }
}
