/** Cutting a migration script into statements at the semicolons outside quotes and parentheses. */
module SqlSplit {
  import opened Lines

  const QUOTE: Byte := 39
  const OPENING: Byte := 40
  const CLOSING: Byte := 41
  const SEMICOLON: Byte := 59

  /** Where the scan stands: how many parentheses are open, and whether inside single quotes. */
  datatype Place = Place(depth: nat, quoted: bool)

  const TOP := Place(0, false)

  function Step(at: Place, c: Byte): Place {
    if c == QUOTE then at.(quoted := !at.quoted)
    else if at.quoted then at
    else if c == OPENING then at.(depth := at.depth + 1)
    else if c == CLOSING && at.depth > 0 then at.(depth := at.depth - 1)
    else at
  }

  function Walk(at: Place, s: Bytes): Place
    decreases |s|
  {
    if s == [] then at else Walk(Step(at, s[0]), s[1..])
  }

  predicate Cuts(at: Place, c: Byte) {
    c == SEMICOLON && at == TOP
  }

  /** No semicolon of s cuts, when the scan reaches s at `at`. */
  predicate Whole(at: Place, s: Bytes)
    decreases |s|
  {
    s == [] || (!Cuts(at, s[0]) && Whole(Step(at, s[0]), s[1..]))
  }

  /** A statement that a semicolon may end: it holds none that cuts, and leaves the scan at the top. */
  predicate Balanced(s: Bytes) {
    Whole(TOP, s) && Walk(TOP, s) == TOP
  }

  // --- The splitter -----------------------------------------------------------------------------

  /** What is cut off from `current` and the rest of the script on. */
  function SplitFrom(at: Place, current: Bytes, rest: Bytes): seq<Bytes>
    decreases |rest|
  {
    if rest == [] then if current == [] then [] else [current]
    else if Cuts(at, rest[0]) then [current] + SplitFrom(at, [], rest[1..])
    else SplitFrom(Step(at, rest[0]), current + [rest[0]], rest[1..])
  }

  function Split(script: Bytes): seq<Bytes> {
    SplitFrom(TOP, [], script)
  }

  method SplitStatements(script: Bytes) returns (out: seq<Bytes>)
    ensures out == Split(script)
  {
    out := [];
    var depth: nat, last, quoted := 0, 0, false;
    var i := 0;
    while i < |script|
      invariant 0 <= last <= i <= |script|
      invariant Split(script) == out + SplitFrom(Place(depth, quoted), script[last..i], script[i..])
    {
      var c := script[i];
      ghost var rest := script[i..];
      assert rest[0] == c && rest[1..] == script[i + 1..];
      assert script[last..i] + [c] == script[last..i + 1];
      if c == QUOTE {
        quoted := !quoted;
      } else if c == OPENING {
        if !quoted {
          depth := depth + 1;
        }
      } else if c == CLOSING {
        if !quoted && depth > 0 {
          depth := depth - 1;
        }
      } else if c == SEMICOLON {
        if depth == 0 && !quoted {
          out := out + [script[last..i]];
          last := i + 1;
        }
      }
      i := i + 1;
    }
    assert script[i..] == [] && script[last..i] == script[last..];
    if last < |script| {
      out := out + [script[last..]];
    }
  }

  // --- Scripts as statements and a tail -----------------------------------------------------------

  /** The statements, each with the semicolon that ends it. */
  function Ended(ps: seq<Bytes>): Bytes {
    if ps == [] then [] else ps[0] + [SEMICOLON] + Ended(ps[1..])
  }

  ghost predicate AllBalanced(ps: seq<Bytes>) {
    forall i :: 0 <= i < |ps| ==> Balanced(ps[i])
  }

  ghost predicate ReadsAs(script: Bytes, ps: seq<Bytes>, tail: Bytes) {
    script == Ended(ps) + tail && AllBalanced(ps) && Whole(TOP, tail)
  }

  function WithTail(ps: seq<Bytes>, tail: Bytes): seq<Bytes> {
    if tail == [] then ps else ps + [tail]
  }

  lemma {:induction false} FirstCut(at: Place, s: Bytes) returns (p: Bytes, rest: Bytes)
    requires !Whole(at, s)
    ensures s == p + [SEMICOLON] + rest && Whole(at, p) && Walk(at, p) == TOP
    decreases |s|
  {
    if Cuts(at, s[0]) {
      p, rest := [], s[1..];
    } else {
      var q;
      q, rest := FirstCut(Step(at, s[0]), s[1..]);
      p := [s[0]] + q;
      assert p[1..] == q;
      assert s == [s[0]] + s[1..];
    }
  }

  /** Every script is balanced statements with their semicolons, and a tail without one. */
  lemma {:induction false} EveryScriptReads(script: Bytes) returns (ps: seq<Bytes>, tail: Bytes)
    ensures ReadsAs(script, ps, tail)
    decreases |script|
  {
    if Whole(TOP, script) {
      ps, tail := [], script;
    } else {
      var p, rest := FirstCut(TOP, script);
      var qs;
      qs, tail := EveryScriptReads(rest);
      ps := [p] + qs;
      assert ps[1..] == qs;
      assert Ended(ps) + tail == p + [SEMICOLON] + (Ended(qs) + tail);
    }
  }

  lemma {:induction false} CutHere(at: Place, current: Bytes, p: Bytes, rest: Bytes)
    requires Whole(at, p) && Walk(at, p) == TOP
    ensures SplitFrom(at, current, p + [SEMICOLON] + rest) == [current + p] + SplitFrom(TOP, [], rest)
    decreases |p|
  {
    var s := p + [SEMICOLON] + rest;
    if p == [] {
      assert s[1..] == rest;
      assert current + p == current;
    } else {
      assert s[1..] == p[1..] + [SEMICOLON] + rest;
      CutHere(Step(at, p[0]), current + [p[0]], p[1..], rest);
      assert current + [p[0]] + p[1..] == current + p;
    }
  }

  lemma {:induction false} NoCut(at: Place, current: Bytes, tail: Bytes)
    requires Whole(at, tail)
    ensures SplitFrom(at, current, tail) == if current + tail == [] then [] else [current + tail]
    decreases |tail|
  {
    if tail == [] {
      assert current + tail == current;
    } else {
      NoCut(Step(at, tail[0]), current + [tail[0]], tail[1..]);
      assert current + [tail[0]] + tail[1..] == current + tail;
    }
  }

  /** However a script reads as statements and a tail, these are its pieces; so it reads one way only. */
  lemma {:induction false} PiecesAre(script: Bytes, ps: seq<Bytes>, tail: Bytes)
    requires ReadsAs(script, ps, tail)
    ensures Split(script) == WithTail(ps, tail)
    decreases |ps|
  {
    if ps == [] {
      NoCut(TOP, [], tail);
      assert [] + tail == tail == script;
    } else {
      var rest := Ended(ps[1..]) + tail;
      assert script == ps[0] + [SEMICOLON] + rest;
      CutHere(TOP, [], ps[0], rest);
      assert [] + ps[0] == ps[0];
      PiecesAre(rest, ps[1..], tail);
      assert ps == [ps[0]] + ps[1..];
      assert Split(script) == [ps[0]] + Split(rest);
    }
  }

  // --- What that gives --------------------------------------------------------------------------

  /** The pieces with a semicolon between each two. */
  function Joined(pieces: seq<Bytes>): Bytes {
    if pieces == [] then []
    else if |pieces| == 1 then pieces[0]
    else pieces[0] + [SEMICOLON] + Joined(pieces[1..])
  }

  /** The last byte is a semicolon that cuts. */
  predicate EndsInCut(script: Bytes) {
    script != [] && script[|script| - 1] == SEMICOLON && Walk(TOP, script[..|script| - 1]) == TOP
  }

  lemma {:induction false} JoinedWithTail(ps: seq<Bytes>, tail: Bytes)
    requires tail != []
    ensures Joined(ps + [tail]) == Ended(ps) + tail
  {
    var all := ps + [tail];
    if ps == [] {
      assert all == [tail];
    } else {
      JoinedWithTail(ps[1..], tail);
      assert all[1..] == ps[1..] + [tail] && |all| > 1;
      assert Joined(all) == ps[0] + [SEMICOLON] + (Ended(ps[1..]) + tail);
    }
  }

  lemma {:induction false} JoinedEnded(ps: seq<Bytes>)
    requires ps != []
    ensures Joined(ps) + [SEMICOLON] == Ended(ps)
  {
    if |ps| > 1 {
      JoinedEnded(ps[1..]);
    } else {
      assert Ended(ps[1..]) == [];
    }
  }

  lemma {:induction false} WalkOn(at: Place, s: Bytes, t: Bytes)
    ensures Walk(at, s + t) == Walk(Walk(at, s), t)
    decreases |s|
  {
    if s == [] {
      assert s + t == t;
    } else {
      assert (s + t)[1..] == s[1..] + t;
      WalkOn(Step(at, s[0]), s[1..], t);
    }
  }

  lemma {:induction false} WholeFront(at: Place, s: Bytes)
    requires Whole(at, s) && s != []
    ensures Whole(at, s[..|s| - 1]) && !Cuts(Walk(at, s[..|s| - 1]), s[|s| - 1])
    decreases |s|
  {
    if |s| > 1 {
      WholeFront(Step(at, s[0]), s[1..]);
      assert s[..|s| - 1][1..] == s[1..][..|s| - 2];
    } else {
      assert s[..|s| - 1] == [];
    }
  }

  lemma {:induction false} EndedLeavesAtTop(ps: seq<Bytes>)
    requires AllBalanced(ps)
    ensures Walk(TOP, Ended(ps)) == TOP
  {
    if ps != [] {
      assert ps[0] + [SEMICOLON] + Ended(ps[1..]) == ps[0] + ([SEMICOLON] + Ended(ps[1..]));
      WalkOn(TOP, ps[0], [SEMICOLON] + Ended(ps[1..]));
      assert ([SEMICOLON] + Ended(ps[1..]))[1..] == Ended(ps[1..]);
      EndedLeavesAtTop(ps[1..]);
    }
  }

  lemma {:induction false} EndedEndsInCut(ps: seq<Bytes>)
    requires AllBalanced(ps) && ps != []
    ensures EndsInCut(Ended(ps))
  {
    var n := |ps| - 1;
    EndedSplit(ps[..n], [ps[n]]);
    assert ps == ps[..n] + [ps[n]];
    var front := Ended(ps[..n]) + ps[n];
    assert Ended([ps[n]]) == ps[n] + [SEMICOLON] + [] == ps[n] + [SEMICOLON];
    assert Ended(ps) == front + [SEMICOLON];
    EndedLeavesAtTop(ps[..n]);
    WalkOn(TOP, Ended(ps[..n]), ps[n]);
    assert Ended(ps)[..|Ended(ps)| - 1] == front;
  }

  lemma {:induction false} EndedSplit(ps: seq<Bytes>, qs: seq<Bytes>)
    ensures Ended(ps + qs) == Ended(ps) + Ended(qs)
  {
    if ps == [] {
      assert ps + qs == qs;
    } else {
      assert (ps + qs)[1..] == ps[1..] + qs;
      EndedSplit(ps[1..], qs);
    }
  }

  /** A script ends in a cut exactly when it reads as statements without a tail. */
  lemma EndsInCutIffNoTail(script: Bytes, ps: seq<Bytes>, tail: Bytes)
    requires ReadsAs(script, ps, tail)
    ensures EndsInCut(script) <==> tail == [] && ps != []
  {
    if tail == [] {
      assert script == Ended(ps);
      if ps != [] {
        EndedEndsInCut(ps);
      }
    } else {
      WholeFront(TOP, tail);
      EndedLeavesAtTop(ps);
      WalkOn(TOP, Ended(ps), tail[..|tail| - 1]);
      assert script[..|script| - 1] == Ended(ps) + tail[..|tail| - 1];
    }
  }

  /** Splitting loses nothing: joined with semicolons the pieces are the script, less a final one that
      cuts. */
  lemma SplitLosesNothing(script: Bytes)
    ensures script == if EndsInCut(script) then Joined(Split(script)) + [SEMICOLON] else Joined(Split(script))
  {
    var ps, tail := EveryScriptReads(script);
    PiecesAre(script, ps, tail);
    EndsInCutIffNoTail(script, ps, tail);
    if tail != [] {
      JoinedWithTail(ps, tail);
    } else if ps != [] {
      JoinedEnded(ps);
      assert script == Ended(ps);
    }
  }

  /** Every piece ended by a semicolon leads from the top back to the top; no piece holds a semicolon
      that cuts. */
  lemma PiecesAreStatements(script: Bytes, k: nat)
    requires k < |Split(script)|
    ensures Whole(TOP, Split(script)[k])
    ensures k + 1 < |Split(script)| || EndsInCut(script) ==> Balanced(Split(script)[k])
    ensures k + 1 == |Split(script)| && !EndsInCut(script) ==> Split(script)[k] != []
  {
    var ps, tail := EveryScriptReads(script);
    PiecesAre(script, ps, tail);
    EndsInCutIffNoTail(script, ps, tail);
  }

  // --- Running a migration ------------------------------------------------------------------------

  /** The statements applyMigration executes: trimmed, and blank ones skipped. */
  function Executed(trim: Bytes -> Bytes, pieces: seq<Bytes>): seq<Bytes> {
    if pieces == [] then []
    else
      var stmt := trim(pieces[0]);
      (if stmt == [] then [] else [stmt]) + Executed(trim, pieces[1..])
  }

  lemma {:induction false} ExecutedAppend(trim: Bytes -> Bytes, ps: seq<Bytes>, qs: seq<Bytes>)
    ensures Executed(trim, ps + qs) == Executed(trim, ps) + Executed(trim, qs)
  {
    if ps == [] {
      assert ps + qs == qs;
    } else {
      assert (ps + qs)[1..] == ps[1..] + qs;
      ExecutedAppend(trim, ps[1..], qs);
    }
  }

  /** A schema: the statements committed to it, and its version. */
  class Schema {
    var statements: seq<Bytes>
    var version: int

    constructor ()
      ensures statements == [] && version == 0
    {
      statements, version := [], 0;
    }

    /** One transaction; `fails` says at which of the executed statements the database reports an error, the
        version update being the one after the script's, and `commits` whether it commits. */
    method ApplyMigration(newVersion: int, script: Bytes, trim: Bytes -> Bytes, fails: nat -> bool,
                          commits: bool) returns (ok: bool)
      modifies this
      ensures ok <==> commits && forall k: nat :: k <= |Executed(trim, Split(script))| ==> !fails(k)
      ensures statements == if ok then old(statements) + Executed(trim, Split(script)) else old(statements)
      ensures version == if ok then newVersion else old(version)
    {
      var pieces := SplitStatements(script);
      ghost var all := Executed(trim, pieces);
      var done: seq<Bytes> := [];
      for i := 0 to |pieces|
        invariant all == done + Executed(trim, pieces[i..])
        invariant forall k: nat :: k < |done| ==> !fails(k)
      {
        var stmt := trim(pieces[i]);
        ghost var rest := Executed(trim, pieces[i + 1..]);
        assert pieces[i..][1..] == pieces[i + 1..];
        if stmt == [] {
          assert Executed(trim, pieces[i..]) == [] + rest == rest;
          continue;
        }
        assert all == done + ([stmt] + rest) == done + [stmt] + rest;
        if fails(|done|) {
          return false;
        }
        done := done + [stmt];
      }
      assert all == done + [] == done;
      if fails(|done|) || !commits {
        return false;
      }
      statements, version := statements + done, newVersion;
      return true;
    }
  }

  /** Trimming leaves nothing of nothing, and never takes a semicolon away. */
  ghost predicate Trims(trim: Bytes -> Bytes) {
    trim([]) == [] && forall s :: trim(s + [SEMICOLON]) != [] && trim(s + [SEMICOLON]) != trim(s)
  }

  lemma ReadsOn(a: Bytes, ps: seq<Bytes>, t: Bytes, b: Bytes, qs: seq<Bytes>, u: Bytes)
    requires ReadsAs(a, ps, t) && ReadsAs(b, qs, u) && Walk(TOP, a) == TOP
    ensures ReadsAs(a + [SEMICOLON] + b, ps + [t] + qs, u)
  {
    EndedLeavesAtTop(ps);
    WalkOn(TOP, Ended(ps), t);
    var more := ps + [t] + qs;
    assert AllBalanced(more);
    EndedSplit(ps, [t] + qs);
    assert ([t] + qs)[1..] == qs;
    assert more == ps + ([t] + qs);
    JoinedUp(Ended(ps), t, Ended(qs), u);
  }

  lemma JoinedUp(x: Bytes, t: Bytes, y: Bytes, u: Bytes)
    ensures (x + t) + [SEMICOLON] + (y + u) == (x + (t + [SEMICOLON] + y)) + u
  {
  }

  lemma WithTailRuns(trim: Bytes -> Bytes, ps: seq<Bytes>, t: Bytes)
    requires trim([]) == []
    ensures Executed(trim, WithTail(ps, t)) == Executed(trim, ps) + Executed(trim, [t])
  {
    ExecutedAppend(trim, ps, [t]);
    if t == [] {
      assert Executed(trim, [t]) == [];
    }
  }

  /** A script that leaves the scan at the top can be followed by another: together they run what the
      two would run one after the other. */
  lemma ScriptsCompose(trim: Bytes -> Bytes, a: Bytes, b: Bytes)
    requires trim([]) == [] && Walk(TOP, a) == TOP
    ensures Executed(trim, Split(a + [SEMICOLON] + b)) == Executed(trim, Split(a)) + Executed(trim, Split(b))
  {
    var ps, t := EveryScriptReads(a);
    var qs, u := EveryScriptReads(b);
    PiecesAre(a, ps, t);
    PiecesAre(b, qs, u);
    ReadsOn(a, ps, t, b, qs, u);
    PiecesAre(a + [SEMICOLON] + b, ps + [t] + qs, u);
    WithTailRuns(trim, ps, t);
    WithTailRuns(trim, qs, u);
    WithTailRuns(trim, ps + [t] + qs, u);
    ExecutedAppend(trim, ps + [t], qs);
    ExecutedAppend(trim, ps, [t]);
  }

  /** One that does not takes the semicolon, and what follows it, into its last statement. */
  lemma OpenScriptGoesOn(trim: Bytes -> Bytes, a: Bytes)
    requires Trims(trim) && Walk(TOP, a) != TOP
    ensures Executed(trim, Split(a + [SEMICOLON] + [])) != Executed(trim, Split(a)) + Executed(trim, Split([]))
  {
    var ps, t := EveryScriptReads(a);
    PiecesAre(a, ps, t);
    EndedLeavesAtTop(ps);
    WalkOn(TOP, Ended(ps), t);
    var t' := t + [SEMICOLON];
    WholeNext(TOP, t, SEMICOLON);
    assert a + [SEMICOLON] + [] == Ended(ps) + t';
    PiecesAre(a + [SEMICOLON] + [], ps, t');
    WithTailRuns(trim, ps, t);
    WithTailRuns(trim, ps, t');
    OneExecuted(trim, t);
    OneExecuted(trim, t');
    DifferentEnds(Executed(trim, ps), Executed(trim, [t']), Executed(trim, [t]));
  }

  lemma OneExecuted(trim: Bytes -> Bytes, p: Bytes)
    ensures Executed(trim, [p]) == if trim(p) == [] then [] else [trim(p)]
  {
    assert Executed(trim, [p][1..]) == [];
  }

  lemma DifferentEnds(front: seq<Bytes>, a: seq<Bytes>, b: seq<Bytes>)
    requires |a| == 1 && (b == [] || (|b| == 1 && a[0] != b[0]))
    ensures front + a != front + b
  {
    if |b| == 1 {
      assert (front + a)[|front|] != (front + b)[|front|];
    }
  }

  lemma {:induction false} WholeNext(at: Place, s: Bytes, c: Byte)
    requires Whole(at, s) && !Cuts(Walk(at, s), c)
    ensures Whole(at, s + [c])
    decreases |s|
  {
    if s != [] {
      assert (s + [c])[1..] == s[1..] + [c];
      WholeNext(Step(at, s[0]), s[1..], c);
    }
  }

  /** Appending scripts with a semicolon composes exactly after those that leave the scan at the top. */
  lemma ComposesIffAtTop(trim: Bytes -> Bytes, a: Bytes)
    requires Trims(trim)
    ensures (forall b ::
               Executed(trim, Split(a + [SEMICOLON] + b)) == Executed(trim, Split(a)) + Executed(trim, Split(b)))
       <==> Walk(TOP, a) == TOP
  {
    if Walk(TOP, a) == TOP {
      forall b
        ensures Executed(trim, Split(a + [SEMICOLON] + b)) == Executed(trim, Split(a)) + Executed(trim, Split(b))
      {
        ScriptsCompose(trim, a, b);
      }
    } else {
      OpenScriptGoesOn(trim, a);
    }
  }
}
