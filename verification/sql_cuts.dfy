/** Where a script is cut, by counting bytes: 39 is the quote, 40 and 41 the parentheses, 59 the semicolon. */
module SqlCuts {
  import opened Lines
  import opened SqlSplit

  /** The quotes among the first n bytes. */
  function Quotes(s: Bytes, n: nat): nat
    requires n <= |s|
  {
    if n == 0 then 0 else Quotes(s, n - 1) + if s[n - 1] == 39 then 1 else 0
  }

  /** Position n is outside quotes: an even number of them comes before it. */
  predicate Unquoted(s: Bytes, n: nat)
    requires n <= |s|
  {
    Quotes(s, n) % 2 == 0
  }

  /** The unquoted opening parentheses from position j up to position n. */
  function Opens(s: Bytes, j: nat, n: nat): nat
    requires j <= n <= |s|
  {
    if n == j then 0 else Opens(s, j, n - 1) + if s[n - 1] == 40 && Unquoted(s, n - 1) then 1 else 0
  }

  function Closes(s: Bytes, j: nat, n: nat): nat
    requires j <= n <= |s|
  {
    if n == j then 0 else Closes(s, j, n - 1) + if s[n - 1] == 41 && Unquoted(s, n - 1) then 1 else 0
  }

  /** From wherever one starts to count, every parenthesis opened before n is closed before n. */
  ghost predicate AllClosed(s: Bytes, n: nat)
    requires n <= |s|
  {
    forall j: nat :: j <= n ==> Opens(s, j, n) <= Closes(s, j, n)
  }

  /** A semicolon outside quotes with no parenthesis open. */
  ghost predicate CutsAt(s: Bytes, n: nat)
    requires n < |s|
  {
    s[n] == 59 && Unquoted(s, n) && AllClosed(s, n)
  }

  // --- The scan counts ----------------------------------------------------------------------------

  ghost function PlaceAt(s: Bytes, n: nat): Place
    requires n <= |s|
  {
    Walk(TOP, s[..n])
  }

  lemma PlaceStep(s: Bytes, n: nat)
    requires n < |s|
    ensures PlaceAt(s, n + 1) == Step(PlaceAt(s, n), s[n])
  {
    assert s[..n + 1] == s[..n] + [s[n]];
    WalkOn(TOP, s[..n], [s[n]]);
    assert [s[n]][1..] == [];
  }

  /** The parentheses left open since position j, less any that were closed too often. */
  function LeftOpen(s: Bytes, j: nat, n: nat): int
    requires j <= n <= |s|
  {
    Opens(s, j, n) - Closes(s, j, n)
  }

  /** No count of open parentheses is above this one. */
  ghost predicate AtMost(s: Bytes, n: nat, depth: int)
    requires n <= |s|
  {
    forall j: nat :: j <= n ==> LeftOpen(s, j, n) <= depth
  }

  lemma AtMostStep(s: Bytes, n: nat, depth: nat)
    requires n < |s| && AtMost(s, n, depth)
    ensures AtMost(s, n + 1, if s[n] == 40 && Unquoted(s, n) then depth + 1
                             else if s[n] == 41 && Unquoted(s, n) && depth > 0 then depth - 1 else depth)
  {
    var next := if s[n] == 40 && Unquoted(s, n) then depth + 1
                else if s[n] == 41 && Unquoted(s, n) && depth > 0 then depth - 1 else depth;
    var m := n + 1;
    forall j: nat | j <= m
      ensures LeftOpen(s, j, m) <= next
    {
      if j <= n {
        assert LeftOpen(s, j, n) <= depth;
      }
    }
  }

  /** The scan is inside quotes when an odd number of them has come, and as deep as the largest number of
      parentheses left open since some position. */
  lemma {:induction false} PlaceCounts(s: Bytes, n: nat) returns (j: nat)
    requires n <= |s|
    ensures PlaceAt(s, n).quoted <==> !Unquoted(s, n)
    ensures AtMost(s, n, PlaceAt(s, n).depth)
    ensures j <= n && LeftOpen(s, j, n) == PlaceAt(s, n).depth
  {
    if n == 0 {
      j := 0;
      assert s[..0] == [];
    } else {
      j := PlaceCounts(s, n - 1);
      PlaceStep(s, n - 1);
      AtMostStep(s, n - 1, PlaceAt(s, n - 1).depth);
      if s[n - 1] == 41 && Unquoted(s, n - 1) && PlaceAt(s, n - 1).depth == 0 {
        j := n;
      }
    }
  }

  lemma AtTopIff(s: Bytes, n: nat)
    requires n <= |s|
    ensures PlaceAt(s, n) == TOP <==> Unquoted(s, n) && AllClosed(s, n)
  {
    var j := PlaceCounts(s, n);
    if PlaceAt(s, n).depth == 0 {
      forall k: nat | k <= n
        ensures Opens(s, k, n) <= Closes(s, k, n)
      {
        assert LeftOpen(s, k, n) <= 0;
      }
    } else {
      assert LeftOpen(s, j, n) > 0 && Opens(s, j, n) > Closes(s, j, n);
    }
  }

  /** The splitter cuts at a byte exactly when it is a semicolon outside quotes with no parenthesis open. */
  lemma CutsIff(s: Bytes, n: nat)
    requires n < |s|
    ensures Cuts(PlaceAt(s, n), s[n]) <==> CutsAt(s, n)
  {
    AtTopIff(s, n);
  }

  // --- The pieces -----------------------------------------------------------------------------------

  /** From position n on, with a piece begun at `last`: the stretches between the cuts, and what is left. */
  ghost function CutUp(s: Bytes, last: nat, n: nat): seq<Bytes>
    requires last <= n <= |s|
    decreases |s| - n
  {
    if n == |s| then if last < n then [s[last..]] else []
    else if CutsAt(s, n) then [s[last..n]] + CutUp(s, n + 1, n + 1)
    else CutUp(s, last, n + 1)
  }

  lemma {:induction false} CutUpFrom(s: Bytes, last: nat, n: nat)
    requires last <= n <= |s|
    ensures SplitFrom(PlaceAt(s, n), s[last..n], s[n..]) == CutUp(s, last, n)
    decreases |s| - n
  {
    if n == |s| {
      assert s[n..] == [] && s[last..n] == s[last..];
    } else {
      CutsIff(s, n);
      PlaceStep(s, n);
      assert s[n..][0] == s[n] && s[n..][1..] == s[n + 1..];
      if CutsAt(s, n) {
        CutUpFrom(s, n + 1, n + 1);
        assert s[n + 1..n + 1] == [];
      } else {
        CutUpFrom(s, last, n + 1);
        assert s[last..n] + [s[n]] == s[last..n + 1];
      }
    }
  }

  /** The pieces of a script are the stretches between its cuts, and what follows the last one if anything
      does. */
  lemma SplitIsCutUp(script: Bytes)
    ensures Split(script) == CutUp(script, 0, 0)
  {
    CutUpFrom(script, 0, 0);
    assert script[..0] == [] && script[0..0] == [] && script[0..] == script;
  }

  /** A piece that a cut ends, or the last one, holds no cut; each position between two pieces is one. */
  lemma {:induction false} CutUpPieces(s: Bytes, last: nat, n: nat, end: nat)
    requires last <= n <= end <= |s| && (forall i: nat :: n <= i < end ==> !CutsAt(s, i))
    ensures end == |s| ==> CutUp(s, last, n) == if last < end then [s[last..]] else []
    ensures end < |s| && CutsAt(s, end) ==> CutUp(s, last, n) == [s[last..end]] + CutUp(s, end + 1, end + 1)
    decreases end - n
  {
    if n < end {
      CutUpPieces(s, last, n + 1, end);
    }
  }

  // --- For instance ---------------------------------------------------------------------------------

  /** Neither quote, parenthesis nor semicolon. */
  predicate Plain(s: Bytes) {
    forall i :: 0 <= i < |s| ==> s[i] != 39 && s[i] != 40 && s[i] != 41 && s[i] != 59
  }

  lemma {:induction false} PlainStays(at: Place, s: Bytes)
    requires Plain(s)
    ensures Whole(at, s) && Walk(at, s) == at
    decreases |s|
  {
    if s != [] {
      PlainStays(at, s[1..]);
    }
  }

  /** A semicolon between two plain stretches cuts. */
  lemma SemicolonCuts(x: Bytes, y: Bytes)
    requires Plain(x) && Plain(y)
    ensures Split(x + [59] + y) == if y == [] then [x] else [x, y]
  {
    PlainStays(TOP, x);
    PlainStays(TOP, y);
    assert Ended([x]) + y == x + [59] + y by {
      assert [x][1..] == [];
      assert Ended([x]) == x + [59] + [];
    }
    PiecesAre(x + [59] + y, [x], y);
    assert [x] + [y] == [x, y];
  }

  /** One inside parentheses does not. */
  lemma ParenthesesHold(x: Bytes, y: Bytes)
    requires Plain(x) && Plain(y)
    ensures Split([40] + x + [59] + y + [41]) == [[40] + x + [59] + y + [41]]
  {
    EnclosedHolds(40, 41, Place(1, false), x, y);
  }

  /** Nor one inside quotes. */
  lemma QuotesHold(x: Bytes, y: Bytes)
    requires Plain(x) && Plain(y)
    ensures Split([39] + x + [59] + y + [39]) == [[39] + x + [59] + y + [39]]
  {
    EnclosedHolds(39, 39, Place(0, true), x, y);
  }

  lemma EnclosedHolds(open: Byte, close: Byte, inside: Place, x: Bytes, y: Bytes)
    requires Plain(x) && Plain(y) && open != 59 && close != 59 && inside != TOP
    requires Step(TOP, open) == inside && Step(inside, 59) == inside
    ensures Split([open] + x + [59] + y + [close]) == [[open] + x + [59] + y + [close]]
  {
    PlainStays(inside, x);
    PlainStays(inside, y);
    var z := [59] + (y + [close]);
    WholeOn(inside, y, [close]);
    assert z[1..] == y + [close] && [close][1..] == [];
    WholeOn(inside, x, z);
    var all := [open] + x + [59] + y + [close];
    assert all == [open] + (x + z) && all[1..] == x + z;
    PiecesAre(all, [], all);
  }

  lemma {:induction false} WholeOn(at: Place, s: Bytes, t: Bytes)
    requires Whole(at, s) && Whole(Walk(at, s), t)
    ensures Whole(at, s + t)
    decreases |s|
  {
    if s == [] {
      assert s + t == t;
    } else {
      assert (s + t)[1..] == s[1..] + t;
      WholeOn(Step(at, s[0]), s[1..], t);
    }
  }
}
