/**
 `matchRobotsPattern`: the greedy matcher for robots.txt path patterns (RFC 9309, section 2.2.3),
 against the declarative meaning of a pattern in which each `*` stands for any sequence. Strings
 are byte strings.
 */
module RobotsMatch {
  import opened Options
  import opened Sequences
  import opened Strings

  // ----- the meaning of a pattern -----

  /** The whole of `t` matches `p`, reading each '*' as any sequence. */
  ghost predicate Glob(p: string, t: string)
    decreases |p|
  {
    if p == "" then t == ""
    else if p[0] == '*' then exists k :: 0 <= k <= |t| && Glob(p[1..], t[k..])
    else t != "" && t[0] == p[0] && Glob(p[1..], t[1..])
  }

  /** Some prefix of the path matches: the meaning of a pattern without an end anchor. */
  ghost predicate GlobPrefix(p: string, path: string) {
    exists n :: 0 <= n <= |path| && Glob(p, path[..n])
  }

  // ----- the matcher -----

  /** Where the leftmost placement of `parts`, one after the other from `pos`, ends. */
  function GreedyEnd(parts: seq<string>, path: string, pos: nat): (end: Option<nat>)
    requires pos <= |path|
    ensures end.Some? ==> pos <= end.value <= |path|
  {
    if parts == [] then Some(pos)
    else
      var idx := IndexFrom(path, parts[0], pos);
      if idx < 0 then None else GreedyEnd(parts[1..], path, idx + |parts[0]|)
  }

  /** What the matcher decides. */
  function Matches(pattern: string, path: string): bool {
    var anchored := HasSuffix(pattern, "$");
    var parts := Split(if anchored then pattern[..|pattern| - 1] else pattern, '*');
    if !At(path, parts[0], 0) then false
    else
      match GreedyEnd(parts[1..], path, |parts[0]|)
      case None => false
      case Some(end) => anchored ==> parts[|parts| - 1] == "" || end == |path|
  }

  lemma GreedyUnfold(parts: seq<string>, path: string, pos: nat)
    requires parts != [] && pos <= |path|
    ensures var idx := IndexFrom(path, parts[0], pos);
            && GreedyEnd(parts, path, pos) == (if idx < 0 then None else GreedyEnd(parts[1..], path, idx + |parts[0]|))
            && (parts[0] == "" ==> idx == pos)
  {
    assert parts[0] == "" ==> At(path, parts[0], pos);
  }

  /** Where the placement of the literals from the i-th on ends, when they are placed from `pos`. */
  function EndFrom(parts: seq<string>, path: string, i: nat, pos: nat): Option<nat>
    requires i <= |parts| && pos <= |path|
  {
    GreedyEnd(parts[i..], path, pos)
  }

  lemma PlaceNext(parts: seq<string>, path: string, i: nat, i': nat, pos: nat)
    requires i < |parts| && i' == i + 1 && pos <= |path|
    ensures var idx := IndexFrom(path, parts[i], pos);
            && EndFrom(parts, path, i, pos) == (if idx < 0 then None else EndFrom(parts, path, i', idx + |parts[i]|))
            && (parts[i] == "" ==> idx == pos)
  {
    assert parts[i..][0] == parts[i] && parts[i..][1..] == parts[i'..];
    GreedyUnfold(parts[i..], path, pos);
  }

  method MatchRobotsPattern(pattern: string, path: string) returns (ok: bool)
    ensures ok == Matches(pattern, path)
  {
    var anchored := HasSuffix(pattern, "$");
    var trimmed := if anchored then pattern[..|pattern| - 1] else pattern;
    var parts := Split(trimmed, '*');
    var pos: nat := 0;
    for i := 0 to |parts|
      invariant pos <= |path|
      invariant i == 0 ==> pos == 0
      invariant i > 0 ==> At(path, parts[0], 0)
      invariant i > 0 ==> EndFrom(parts, path, 1, |parts[0]|) == EndFrom(parts, path, i, pos)
    {
      var part := parts[i];
      PlaceNext(parts, path, i, i + 1, pos);
      if part == "" {
        continue;
      }
      if i == 0 {
        if !At(path, part, 0) {
          return false;
        }
        pos := |part|;
        continue;
      }
      var idx := IndexFrom(path, part, pos);
      if idx < 0 {
        return false;
      }
      pos := idx + |part|;
    }
    WholeSlice(parts, |parts|);
    if anchored {
      if parts[|parts| - 1] == "" {
        return true;
      }
      return pos == |path|;
    }
    ok := true;
  }

  // ----- placements -----

  /** The parts can be placed one after the other from `pos` so that the last one ends at `end`. */
  ghost predicate Placed(parts: seq<string>, path: string, pos: int, end: int)
    decreases |parts|
  {
    if parts == [] then pos == end
    else exists k :: pos <= k && At(path, parts[0], k) && Placed(parts[1..], path, k + |parts[0]|, end)
  }

  lemma {:induction false} PlacedBounds(parts: seq<string>, path: string, pos: int, end: int)
    requires Placed(parts, path, pos, end) && pos <= |path|
    ensures pos <= end <= |path|
  {
    if parts != [] {
      var k :| pos <= k && At(path, parts[0], k) && Placed(parts[1..], path, k + |parts[0]|, end);
      PlacedBounds(parts[1..], path, k + |parts[0]|, end);
    }
  }

  /** The leftmost placement is a placement. */
  lemma {:induction false} GreedyIsPlaced(parts: seq<string>, path: string, pos: nat)
    requires pos <= |path| && GreedyEnd(parts, path, pos).Some?
    ensures Placed(parts, path, pos, GreedyEnd(parts, path, pos).value)
  {
    if parts != [] {
      var idx := IndexFrom(path, parts[0], pos);
      IndexIsAt(path, parts[0], pos);
      GreedyIsPlaced(parts[1..], path, idx + |parts[0]|);
      PlacedCons(parts, path, pos, idx, GreedyEnd(parts, path, pos).value);
    }
  }

  /** The exchange argument: whenever a placement exists, the leftmost one does and ends no later. */
  lemma {:induction false} GreedyEndsFirst(parts: seq<string>, path: string, pos: nat, pos': nat, end: int)
    requires pos <= pos' <= |path| && Placed(parts, path, pos', end)
    ensures GreedyEnd(parts, path, pos).Some? && GreedyEnd(parts, path, pos).value <= end
  {
    if parts != [] {
      var part, rest := parts[0], parts[1..];
      var k :| pos' <= k && At(path, part, k) && Placed(rest, path, k + |part|, end);
      var idx := IndexFrom(path, part, pos);
      IndexIsLeast(path, part, pos, k);
      var next, next' := idx + |part|, k + |part|;
      assert next <= next' <= |path|;
      GreedyEndsFirst(rest, path, next, next', end);
      GreedyAfterFirst(parts, path, pos, next, end);
    }
  }

  lemma GreedyAfterFirst(parts: seq<string>, path: string, pos: nat, next: nat, end: int)
    requires parts != [] && pos <= |path| && IndexFrom(path, parts[0], pos) == next - |parts[0]| >= 0 && next <= |path|
    requires GreedyEnd(parts[1..], path, next).Some? && GreedyEnd(parts[1..], path, next).value <= end
    ensures GreedyEnd(parts, path, pos).Some? && GreedyEnd(parts, path, pos).value <= end
  {
    GreedyUnfold(parts, path, pos);
  }

  // ----- placements and the meaning of the pattern -----

  lemma GlobLiteral(part: string, rest: string, t: string)
    requires '*' !in part
    ensures Glob(part + rest, t) <==> part <= t && Glob(rest, t[|part|..])
  {
    if part == "" {
      assert part + rest == rest && t[0..] == t && t[..0] == part;
    } else {
      TailOfConcat(part, rest);
      assert part[0] in part;
      if t != "" && t[0] == part[0] {
        GlobLiteral(part[1..], rest, t[1..]);
        PrefixOfTails(part, t);
      }
    }
  }

  /** The first part is at `k`, and the others can be placed after it. */
  ghost predicate Fits(parts: seq<string>, path: string, k: int, end: int)
    requires parts != []
  {
    At(path, parts[0], k) && Placed(parts[1..], path, k + |parts[0]|, end)
  }

  lemma PlacedIffFits(parts: seq<string>, path: string, pos: int, end: int)
    requires parts != []
    ensures Placed(parts, path, pos, end) <==> exists k :: pos <= k && Fits(parts, path, k, end)
  {
    if Placed(parts, path, pos, end) {
      var k :| pos <= k && At(path, parts[0], k) && Placed(parts[1..], path, k + |parts[0]|, end);
      assert Fits(parts, path, k, end);
    }
  }

  lemma FitsBefore(parts: seq<string>, path: string, k: int, end: int)
    requires parts != [] && Fits(parts, path, k, end)
    ensures 0 <= k && k + |parts[0]| <= end <= |path|
  {
    PlacedBounds(parts[1..], path, k + |parts[0]|, end);
  }

  /** The stretch [a, end) of the path matches the pattern. */
  ghost predicate GlobIn(p: string, path: string, a: int, end: int)
    requires 0 <= a <= end <= |path|
  {
    Glob(p, path[a..end])
  }

  /** A stretch of the path matches the pattern exactly when the parts can be placed to fill it. */
  lemma {:induction false} GlobIffPlaced(parts: seq<string>, path: string, a: nat, end: nat)
    requires parts != [] && forall part <- parts :: '*' !in part
    requires a <= end <= |path|
    ensures GlobIn(Join(parts, '*'), path, a, end) <==> Fits(parts, path, a, end)
    decreases |parts|, 0
  {
    var part, rest := parts[0], parts[1..];
    JoinUnfold(parts, '*');
    assert part in parts;
    if rest == [] {
      LiteralFills(part, path, a, end);
    } else {
      if a + |part| <= end {
        StarIffPlaced(rest, path, a + |part|, end);
      }
      LiteralThenPlaced(part, rest, path, a, end);
    }
  }

  lemma LiteralThenPlaced(part: string, rest: seq<string>, path: string, a: nat, end: nat)
    requires '*' !in part && rest != [] && a <= end <= |path|
    requires a + |part| <= end ==>
               (GlobIn(['*'] + Join(rest, '*'), path, a + |part|, end) <==> Placed(rest, path, a + |part|, end))
    ensures GlobIn(part + (['*'] + Join(rest, '*')), path, a, end) <==>
            At(path, part, a) && Placed(rest, path, a + |part|, end)
  {
    LiteralStarts(part, ['*'] + Join(rest, '*'), path, a, end);
    if Placed(rest, path, a + |part|, end) {
      PlacedBounds(rest, path, a + |part|, end);
    }
  }

  lemma LiteralStarts(part: string, more: string, path: string, a: nat, end: nat)
    requires '*' !in part && a <= end <= |path|
    ensures GlobIn(part + more, path, a, end) <==>
            a + |part| <= end && At(path, part, a) && GlobIn(more, path, a + |part|, end)
  {
    GlobLiteral(part, more, path[a..end]);
    PrefixOfStretch(part, path, a, end);
    if a + |part| <= end {
      SuffixOfSlice(path, a, end, |part|);
    }
  }

  lemma LiteralFills(part: string, path: string, a: nat, end: nat)
    requires '*' !in part && a <= end <= |path|
    ensures GlobIn(part, path, a, end) <==> At(path, part, a) && a + |part| == end
  {
    LiteralStarts(part, "", path, a, end);
    ConcatNothing(part);
  }

  lemma PrefixOfStretch(part: string, path: string, a: nat, end: nat)
    requires a <= end <= |path|
    ensures part <= path[a..end] <==> At(path, part, a) && a + |part| <= end
  {
    if a + |part| <= end {
      assert path[a..end][..|part|] == path[a..a + |part|];
    }
  }

  lemma StarIffPlaced(parts: seq<string>, path: string, a: nat, end: nat)
    requires parts != [] && forall part <- parts :: '*' !in part
    requires a <= end <= |path|
    ensures GlobIn(['*'] + Join(parts, '*'), path, a, end) <==> Placed(parts, path, a, end)
    decreases |parts|, 1
  {
    forall k | a <= k <= end ensures GlobIn(Join(parts, '*'), path, k, end) <==> Fits(parts, path, k, end) {
      GlobIffPlaced(parts, path, k, end);
    }
    forall k | Fits(parts, path, k, end) ensures k <= end {
      FitsBefore(parts, path, k, end);
    }
    StarSkips(Join(parts, '*'), path, a, end);
    PlacedIffFits(parts, path, a, end);
  }

  /** A '*' skips some of the stretch, and what follows it matches the rest. */
  lemma StarSkips(rest: string, path: string, a: nat, end: nat)
    requires a <= end <= |path|
    ensures GlobIn(['*'] + rest, path, a, end) <==> exists k :: a <= k <= end && GlobIn(rest, path, k, end)
  {
    var t := path[a..end];
    PartsOfConcat(['*'], rest);
    if Glob(['*'] + rest, t) {
      var k :| 0 <= k <= |t| && Glob(rest, t[k..]);
      SuffixOfSlice(path, a, end, k);
      assert GlobIn(rest, path, a + k, end);
    }
    if k :| a <= k <= end && GlobIn(rest, path, k, end) {
      SuffixOfSlice(path, a, end, k - a);
      assert Glob(rest, t[k - a..]);
    }
  }

  lemma GlobWhole(parts: seq<string>, path: string)
    requires parts != [] && forall part <- parts :: '*' !in part
    ensures Glob(Join(parts, '*'), path) <==> Fits(parts, path, 0, |path|)
  {
    WholeSlice(path, |path|);
    GlobIffPlaced(parts, path, 0, |path|);
  }

  // ----- main results -----

  /** Without an end anchor the matcher is exact. */
  lemma UnanchoredIsExact(pattern: string, path: string)
    requires !HasSuffix(pattern, "$")
    ensures Matches(pattern, path) <==> GlobPrefix(pattern, path)
  {
    var parts := Split(pattern, '*');
    SplitParts(pattern, '*');
    if Matches(pattern, path) {
      GreedyIsPlaced(parts[1..], path, |parts[0]|);
      var end := GreedyEnd(parts[1..], path, |parts[0]|).value;
      assert Fits(parts, path, 0, end);
      GlobIffPlaced(parts, path, 0, end);
      assert path[0..end] == path[..end];
    }
    if GlobPrefix(pattern, path) {
      var n :| 0 <= n <= |path| && Glob(pattern, path[..n]);
      assert path[0..n] == path[..n];
      GlobIffPlaced(parts, path, 0, n);
      GreedyEndsFirst(parts[1..], path, |parts[0]|, |parts[0]|, n);
    }
  }

  function Parts(p: string): (parts: seq<string>)
    ensures parts != [] && Join(parts, '*') == p
    ensures forall part <- parts :: '*' !in part
  {
    SplitParts(p, '*');
    Split(p, '*')
  }

  /** What the matcher checks of an anchored pattern's literals. */
  predicate Accepts(parts: seq<string>, path: string)
    requires parts != []
  {
    && At(path, parts[0], 0) && GreedyEnd(parts[1..], path, |parts[0]|).Some?
    && (parts[|parts| - 1] == "" || GreedyEnd(parts[1..], path, |parts[0]|).value == |path|)
  }

  lemma AnchoredMatches(p: string, path: string)
    ensures Matches(p + "$", path) <==> Accepts(Parts(p), path)
  {
    PartsOfConcat(p, "$");
  }

  lemma PlacedCons(parts: seq<string>, path: string, pos: int, k: int, end: int)
    requires parts != [] && pos <= k && At(path, parts[0], k) && Placed(parts[1..], path, k + |parts[0]|, end)
    ensures Placed(parts, path, pos, end)
  {
  }

  lemma {:induction false} PlacedSnoc(parts: seq<string>, last: string, path: string, pos: nat, q: nat, end: nat)
    requires Placed(parts, path, pos, q) && q <= end - |last| && At(path, last, end - |last|)
    ensures Placed(parts + [last], path, pos, end)
  {
    if parts == [] {
      assert [last][1..] == [];
      PlacedCons([last], path, pos, end - |last|, end);
      ConcatNothing([last]);
    } else {
      var k :| pos <= k && At(path, parts[0], k) && Placed(parts[1..], path, k + |parts[0]|, q);
      PlacedSnoc(parts[1..], last, path, k + |parts[0]|, q, end);
      TailOfConcat(parts, [last]);
      PlacedCons(parts + [last], path, pos, k, end);
    }
  }

  lemma {:induction false} PlacedUnsnoc(parts: seq<string>, last: string, path: string, pos: nat, end: nat)
    returns (q: nat)
    requires Placed(parts + [last], path, pos, end)
    ensures Placed(parts, path, pos, q) && q <= end - |last| && At(path, last, end - |last|)
  {
    if parts == [] {
      assert [] + [last] == [last] && [last][1..] == [];
      q := pos;
    } else {
      TailOfConcat(parts, [last]);
      var k :| pos <= k && At(path, parts[0], k) && Placed(parts[1..] + [last], path, k + |parts[0]|, end);
      q := PlacedUnsnoc(parts[1..], last, path, k + |parts[0]|, end);
    }
  }

  function GreedyStep(end: Option<nat>, last: string, path: string): Option<nat>
    requires end.Some? ==> end.value <= |path|
  {
    match end
    case None => None
    case Some(q) => if IndexFrom(path, last, q) < 0 then None else Some(IndexFrom(path, last, q) + |last|)
  }

  lemma {:induction false} GreedySnoc(parts: seq<string>, last: string, path: string, pos: nat)
    requires pos <= |path|
    ensures GreedyEnd(parts + [last], path, pos) == GreedyStep(GreedyEnd(parts, path, pos), last, path)
  {
    if parts == [] {
      assert [] + [last] == [last] && [last][1..] == [];
    } else {
      var part, rest, more := parts[0], parts[1..], parts + [last];
      assert more[0] == part && more[1..] == rest + [last];
      var idx := IndexFrom(path, part, pos);
      if idx >= 0 {
        var next := idx + |part|;
        assert GreedyEnd(more, path, pos) == GreedyEnd(rest + [last], path, next);
        assert GreedyEnd(parts, path, pos) == GreedyEnd(rest, path, next);
        GreedySnoc(rest, last, path, next);
      }
    }
  }

  /**
   With an end anchor the matcher never accepts a path that the pattern does not match, except for the
   bare "$", which it lets match everything.
   */
  lemma AnchoredIsSound(p: string, path: string)
    requires p != "" && Matches(p + "$", path)
    ensures Glob(p, path)
  {
    NotBare(p);
    AnchoredMatches(p, path);
    AcceptedFits(Parts(p), path);
    GlobWhole(Parts(p), path);
  }

  lemma NotBare(p: string)
    ensures Parts(p) == [""] <==> p == ""
  {
  }

  lemma AcceptedFits(parts: seq<string>, path: string)
    requires parts != [] && parts != [""] && Accepts(parts, path)
    ensures Fits(parts, path, 0, |path|)
  {
    HeadAndTail(parts);
    if |parts| > 1 && parts[|parts| - 1] == "" {
      OpenEndIsPlaced(parts[1..], parts[1..|parts| - 1], path, |parts[0]|);
    } else {
      GreedyIsPlaced(parts[1..], path, |parts[0]|);
    }
  }

  /** A pattern that ends in a '*' takes all of the path, wherever the literals before it end. */
  lemma OpenEndIsPlaced(parts: seq<string>, init: seq<string>, path: string, pos: nat)
    requires parts == init + [""] && pos <= |path| && GreedyEnd(parts, path, pos).Some?
    ensures Placed(parts, path, pos, |path|)
  {
    GreedySnoc(init, "", path, pos);
    GreedyIsPlaced(init, path, pos);
    assert At(path, "", |path|);
    PlacedSnoc(init, "", path, pos, GreedyEnd(init, path, pos).value, |path|);
  }

  lemma BareAnchorMatchesAll(path: string)
    ensures Matches("$", path)
  {
    AnchoredMatches("", path);
    assert "" + "$" == "$";
  }

  /** The last literal of the pattern occurs, after the leftmost placement of the others, before the path's end too. */
  ghost predicate LastOccursEarly(parts: seq<string>, path: string)
    requires |parts| > 1
  {
    var last := parts[|parts| - 1];
    && last != "" && At(path, parts[0], 0)
    && match GreedyEnd(parts[1..|parts| - 1], path, |parts[0]|)
       case None => false
       case Some(q) => 0 <= IndexFrom(path, last, q) && IndexFrom(path, last, q) + |last| < |path|
  }

  lemma LastStep(parts: seq<string>, path: string)
    requires |parts| > 1 && At(path, parts[0], 0)
    ensures GreedyEnd(parts[1..|parts| - 1], path, |parts[0]|).Some? ==>
              GreedyEnd(parts[1..|parts| - 1], path, |parts[0]|).value <= |path|
    ensures GreedyEnd(parts[1..], path, |parts[0]|)
         == GreedyStep(GreedyEnd(parts[1..|parts| - 1], path, |parts[0]|), parts[|parts| - 1], path)
  {
    assert parts[1..] == parts[1..|parts| - 1] + [parts[|parts| - 1]];
    GreedySnoc(parts[1..|parts| - 1], parts[|parts| - 1], path, |parts[0]|);
  }

  /** With an end anchor the matcher is exact on a path unless the last literal also occurs too early. */
  lemma AnchoredIsExactUnless(p: string, path: string)
    requires p != ""
    ensures Matches(p + "$", path) <==> Glob(p, path) && (|Parts(p)| > 1 ==> !LastOccursEarly(Parts(p), path))
  {
    NotBare(p);
    AnchoredMatches(p, path);
    AcceptsIff(Parts(p), path);
    GlobWhole(Parts(p), path);
  }

  lemma AcceptsIff(parts: seq<string>, path: string)
    requires parts != [] && parts != [""]
    ensures Accepts(parts, path) <==> Fits(parts, path, 0, |path|) && (|parts| > 1 ==> !LastOccursEarly(parts, path))
  {
    if |parts| == 1 {
      assert parts[1..] == [];
    } else {
      if Accepts(parts, path) {
        AcceptedFits(parts, path);
      }
      if Fits(parts, path, 0, |path|) {
        GreedyEndsFirst(parts[1..], path, |parts[0]|, |parts[0]|, |path|);
        EarlyIffShort(parts, path);
      }
    }
  }

  /** The last literal occurs early exactly when the leftmost placement ends before the path does. */
  lemma EarlyIffShort(parts: seq<string>, path: string)
    requires |parts| > 1 && At(path, parts[0], 0) && GreedyEnd(parts[1..], path, |parts[0]|).Some?
    ensures LastOccursEarly(parts, path) <==>
            parts[|parts| - 1] != "" && GreedyEnd(parts[1..], path, |parts[0]|).value < |path|
  {
    LastStep(parts, path);
  }

  /** A path in which the last of two literals occurs before its end too is matched by the pattern and refused. */
  lemma SecondOccurrenceMissed(p: string, parts: seq<string>, path: string, k: nat)
    requires parts == Parts(p) && |parts| == 2 && parts[1] != "" && At(path, parts[0], 0) && |parts[0]| <= k
    requires At(path, parts[1], k) && k + |parts[1]| < |path| && At(path, parts[1], |path| - |parts[1]|)
    ensures Glob(p, path) && !Matches(p + "$", path)
  {
    TwoMatch(parts, path);
    EarlyOccurrence(parts, path, k);
    assert p != "" by { assert Parts("") == [""]; }
    AnchoredIsExactUnless(p, path);
  }

  lemma TwoMatch(parts: seq<string>, path: string)
    requires |parts| == 2 && forall part <- parts :: '*' !in part
    requires At(path, parts[0], 0) && |parts[0]| <= |path| - |parts[1]| && At(path, parts[1], |path| - |parts[1]|)
    ensures Glob(Join(parts, '*'), path)
  {
    assert parts[1..][0] == parts[1] && parts[1..][1..] == [];
    PlacedCons(parts[1..], path, |parts[0]|, |path| - |parts[1]|, |path|);
    GlobWhole(parts, path);
  }

  lemma EarlyOccurrence(parts: seq<string>, path: string, k: nat)
    requires |parts| == 2 && parts[1] != "" && At(path, parts[0], 0)
    requires |parts[0]| <= k && At(path, parts[1], k) && k + |parts[1]| < |path|
    ensures LastOccursEarly(parts, path)
  {
    IndexIsLeast(path, parts[1], |parts[0]|, k);
    assert parts[1..|parts| - 1] == [];
  }

  lemma TwoParts(first: string, last: string)
    requires '*' !in first && '*' !in last
    ensures Parts(first + ("*" + last)) == [first, last] && Join([first, last], '*') == first + ("*" + last)
  {
    JoinCons(first, [last], '*');
    assert [first] + [last] == [first, last];
    SplitOfJoin([first, last], '*');
  }

  /** The file-extension rule that a path with two such extensions escapes. */
  lemma AnchoredCounterexample()
    ensures Glob("/*.php", "/a.php/b.php") && !Matches("/*.php$", "/a.php/b.php")
  {
    ExtensionOccurs();
    ExtensionRule();
    TwoParts("/", ".php");
    SecondOccurrenceMissed("/*.php", ["/", ".php"], "/a.php/b.php", 2);
  }

  lemma ExtensionRule()
    ensures "/" + ("*" + ".php") == "/*.php" && "/*.php" + "$" == "/*.php$"
  {
  }

  lemma ExtensionOccurs()
    ensures |".php"| == 4 && |"/a.php/b.php"| == 12
    ensures At("/a.php/b.php", "/", 0) && At("/a.php/b.php", ".php", 2) && At("/a.php/b.php", ".php", 8)
  {
    var path := "/a.php/b.php";
    OccursLetterwise(path, "/", 0);
    OccursLetterwise(path, ".php", 2);
    OccursLetterwise(path, ".php", 8);
  }

  lemma OccursLetterwise(hay: string, needle: string, k: nat)
    requires k + |needle| <= |hay| && forall i :: 0 <= i < |needle| ==> hay[k + i] == needle[i]
    ensures At(hay, needle, k)
  {
  }

  // ----- which anchored patterns are matched exactly -----

  /** The parts laid end to end. */
  function Flatten(parts: seq<string>): string {
    if parts == [] then "" else parts[0] + Flatten(parts[1..])
  }

  lemma {:induction false} FlattenPlaced(before: string, parts: seq<string>, after: string)
    ensures Placed(parts, before + Flatten(parts) + after, |before|, |before + Flatten(parts)|)
    decreases |parts|
  {
    var path := before + Flatten(parts) + after;
    if parts != [] {
      var part, rest := parts[0], parts[1..];
      assert path == before + part + Flatten(rest) + after;
      assert path[|before|..|before| + |part|] == part;
      FlattenPlaced(before + part, rest, after);
      assert before + Flatten(parts) == before + part + Flatten(rest);
      PlacedCons(parts, path, |before|, |before|, |before + Flatten(parts)|);
    }
  }

  /** With an end anchor the matcher accepts the path exactly when the whole of it matches. */
  ghost predicate ExactOn(p: string, path: string) { Matches(p + "$", path) <==> Glob(p, path) }

  /**
   An anchored pattern is matched exactly on every path if and only if it is not the bare "$" and has either
   no '*' or a '*' just before the anchor.
   */
  lemma AnchoredIsExactIff(p: string)
    ensures (forall path :: ExactOn(p, path)) <==> p != "" && ('*' !in p || p[|p| - 1] == '*')
  {
    var parts := Parts(p);
    LastPart(p);
    if p == "" {
      BareAnchorMatchesAll("a");
      assert "" + "$" == "$";
      assert !ExactOn(p, "a");
    } else if |parts| == 1 || parts[|parts| - 1] == "" {
      forall path ensures ExactOn(p, path) {
        AnchoredIsExactUnless(p, path);
      }
    } else {
      var path := TwiceLast(p);
      assert !ExactOn(p, path);
    }
  }

  /** The shape of the pattern, read off its parts. */
  lemma {:induction false} LastPart(p: string)
    ensures '*' !in p <==> |Parts(p)| == 1
    ensures |Parts(p)| > 1 ==> (Parts(p)[|Parts(p)| - 1] == "" <==> p[|p| - 1] == '*')
  {
    if p != "" {
      LastPart(p[1..]);
    }
  }

  /** A path on which the matcher fails: the pattern's literals end to end, and the last one once more. */
  lemma TwiceLast(p: string) returns (path: string)
    requires |Parts(p)| > 1 && Parts(p)[|Parts(p)| - 1] != ""
    ensures Glob(p, path) && !Matches(p + "$", path)
  {
    var parts := Parts(p);
    var first, rest, last := parts[0], parts[1..], parts[|parts| - 1];
    var once := first + Flatten(rest);
    path := once + last;
    FlattenPlaced(first, rest, last);
    assert rest == parts[1..|parts| - 1] + [last];
    AppendedLast(path, parts[1..|parts| - 1], last, |first|, |once|);
    assert path[0..|first|] == first;
    GreedyEndsFirst(rest, path, |first|, |first|, |once|);
    AnchoredMatches(p, path);
    GlobWhole(parts, path);
  }

  lemma AppendedLast(path: string, init: seq<string>, last: string, pos: nat, once: nat)
    requires once + |last| == |path| && path[once..] == last && pos <= once
    requires Placed(init + [last], path, pos, once)
    ensures Placed(init + [last], path, pos, |path|)
  {
    var q := PlacedUnsnoc(init, last, path, pos, once);
    assert path[once..|path|] == path[once..];
    PlacedSnoc(init, last, path, pos, q, |path|);
  }
}
