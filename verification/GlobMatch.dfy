/**
 Path globs of the file sandbox: `matchGlob` with its recursive "**", and `globWalkRoot`, the directory
 a walk for a glob may start from. Go's `path.Match` is a parameter: all that is assumed of it is that it
 takes the literal start of a pattern literally.
 */
module GlobMatch {
  import opened Sequences
  import opened Strings

  // ----- path.Match -----

  /** Whether a pattern, given first, matches a text. */
  type PathMatch = (string, string) -> bool

  /** The text holds none of the characters that end a walk root. */
  predicate Literal(s: string) { '*' !in s && '?' !in s && '[' !in s }

  /** A pattern that starts with plain text matches what starts with that text and goes on as the pattern does. */
  predicate LiteralFirst(m: PathMatch, lit: string, rest: string, t: string) {
    m(lit + rest, t) ==> lit <= t && m(rest, t[|lit|..])
  }

  ghost predicate TakesLiterals(m: PathMatch) {
    && (forall lit, rest, t :: Literal(lit) && '\\' !in lit ==> LiteralFirst(m, lit, rest, t))
    && (forall t :: m("", t) ==> t == "")
  }

  /** Patterns of literals, '*' for any sequence without '/', and '?' for any one rune but '/'. */
  predicate StarMatch(p: string, t: string)
    decreases |p|
  {
    if p == "" then t == ""
    else if p[0] == '*' then exists k :: 0 <= k <= |t| && '/' !in t[..k] && StarMatch(p[1..], t[k..])
    else t != "" && (if p[0] == '?' then t[0] != '/' else t[0] == p[0]) && StarMatch(p[1..], t[1..])
  }

  /** The assumption is met by the matching of literals, '*' and '?'. */
  lemma StarMatchTakesLiterals()
    ensures TakesLiterals(StarMatch)
  {
    forall lit, rest, t | Literal(lit) && '\\' !in lit ensures LiteralFirst(StarMatch, lit, rest, t) {
      if StarMatch(lit + rest, t) {
        LiteralPrefixMatches(lit, rest, t);
      }
    }
  }

  lemma {:induction false} LiteralPrefixMatches(lit: string, rest: string, t: string)
    requires Literal(lit) && StarMatch(lit + rest, t)
    ensures lit <= t && StarMatch(rest, t[|lit|..])
  {
    if lit == "" {
      assert lit + rest == rest && t[0..] == t;
    } else {
      assert lit[0] in lit;
      TailOfConcat(lit, rest);
      LiteralPrefixMatches(lit[1..], rest, t[1..]);
      PrefixOfTails(lit, t);
    }
  }

  // ----- matchGlob -----

  function JoinSegments(segs: seq<string>): string {
    if segs == [] then "" else Join(segs, '/')
  }

  /** The text before the first "**", the text after it, and the slash on either side taken off. */
  function Prefix(pattern: string): string
    requires Contains(pattern, "**")
  {
    TrimSuffix(pattern[..IndexFrom(pattern, "**", 0)], "/")
  }

  function Suffix(pattern: string): string
    requires Contains(pattern, "**")
  {
    TrimPrefix(pattern[IndexFrom(pattern, "**", 0) + 2..], "/")
  }

  predicate UnderPrefix(prefix: string, candidate: string) {
    prefix == "" || prefix + "/" <= candidate || candidate == prefix
  }

  /** The segments of the candidate after the prefix. */
  function Rest(prefix: string, candidate: string): seq<string> {
    Split(TrimPrefix(TrimPrefix(candidate, prefix), "/"), '/')
  }

  predicate SomeTailMatches(m: PathMatch, suffix: string, segs: seq<string>) {
    exists i :: 0 <= i <= |segs| && m(suffix, JoinSegments(segs[i..]))
  }

  predicate Matches(m: PathMatch, pattern: string, candidate: string) {
    if !Contains(pattern, "**") then m(pattern, candidate)
    else
      && UnderPrefix(Prefix(pattern), candidate)
      && (Suffix(pattern) == "" || SomeTailMatches(m, Suffix(pattern), Rest(Prefix(pattern), candidate)))
  }

  method MatchGlob(m: PathMatch, pattern: string, candidate: string) returns (ok: bool)
    ensures ok == Matches(m, pattern, candidate)
  {
    if !Contains(pattern, "**") {
      return m(pattern, candidate);
    }
    var prefix, suffix := Prefix(pattern), Suffix(pattern);
    if prefix != "" && !(prefix + "/" <= candidate) && candidate != prefix {
      return false;
    }
    if suffix == "" {
      return true;
    }
    ok := MatchSomeTail(m, suffix, Rest(prefix, candidate));
  }

  method MatchSomeTail(m: PathMatch, suffix: string, segs: seq<string>) returns (ok: bool)
    ensures ok == SomeTailMatches(m, suffix, segs)
  {
    for i := 0 to |segs| + 1
      invariant forall j :: 0 <= j < i ==> !m(suffix, JoinSegments(segs[j..]))
    {
      var matched := m(suffix, JoinSegments(segs[i..]));
      if matched {
        return true;
      }
    }
    ok := false;
  }

  method MatchesAllowed(m: PathMatch, allowed: seq<string>, relPath: string) returns (ok: bool)
    ensures ok <==> exists g <- allowed :: Matches(m, g, relPath)
  {
    for i := 0 to |allowed|
      invariant forall j :: 0 <= j < i ==> !Matches(m, allowed[j], relPath)
    {
      var matched := MatchGlob(m, allowed[i], relPath);
      if matched {
        return true;
      }
    }
    ok := false;
  }

  // ----- what a glob matches, on path segments -----

  /** Segments of a path that a walk reports: none is empty or holds a slash. */
  predicate AreSegments(q: seq<string>) { forall s <- q :: s != "" && '/' !in s }

  /** The glob's first "**" is right after this text. */
  predicate FirstStarsAfter(head: string, glob: string) {
    head + "**" <= glob && forall k :: 0 <= k < |head| ==> !At(glob, "**", k)
  }

  predicate Optional(slash: string) { slash == "" || slash == "/" }

  /** The text of a glob around its first "**". */
  lemma PartsOfGlob(head: string, tail: string)
    requires FirstStarsAfter(head, head + "**" + tail)
    ensures var glob := head + "**" + tail;
            Contains(glob, "**") && Prefix(glob) == TrimSuffix(head, "/") && Suffix(glob) == TrimPrefix(tail, "/")
  {
    var glob := head + "**" + tail;
    var idx := IndexFrom(glob, "**", 0);
    assert glob[|head|..|head| + 2] == "**";
    IndexIsLeast(glob, "**", 0, |head|);
    IndexIsAt(glob, "**", 0);
    assert glob[..|head|] == head && glob[|head| + 2..] == tail;
  }

  lemma TrimsOneSlash(s: string, slash: string)
    requires Optional(slash)
    ensures !HasSuffix(s, "/") ==> TrimSuffix(s + slash, "/") == s
    ensures !("/" <= s) || slash == "/" ==> TrimPrefix(slash + s, "/") == s
  {
    PartsOfConcat(s, slash);
    PartsOfConcat(slash, s);
    ConcatNothing(s);
  }

  lemma SegmentsEndWithoutSlash(segs: seq<string>)
    requires AreSegments(segs)
    ensures !HasSuffix(JoinSegments(segs), "/") && !("/" <= JoinSegments(segs))
  {
    if segs != [] {
      JoinEnds(segs);
    }
  }

  lemma {:induction false} JoinEnds(segs: seq<string>)
    requires segs != [] && AreSegments(segs)
    ensures var p := Join(segs, '/'); p != "" && p[0] != '/' && p[|p| - 1] != '/'
  {
    assert segs[0] in segs && segs[0][0] in segs[0] && segs[0][|segs[0]| - 1] in segs[0];
    if |segs| > 1 {
      assert forall s <- segs[1..] :: s in segs;
      JoinEnds(segs[1..]);
    }
  }

  /** Splitting tells paths apart: a path text at or below a root is a path whose segments start with the root's. */
  lemma {:induction false} BelowRootIsPrefix(root: seq<string>, q: seq<string>)
    requires forall s <- root :: '/' !in s
    requires q != [] && forall s <- q :: s != "" && '/' !in s
    requires AtOrBelow(root, JoinSegments(q))
    ensures root <= q
  {
    if root != [] {
      var r, p := JoinSegments(root), JoinSegments(q);
      SplitOfJoin(root, '/');
      SplitOfJoin(q, '/');
      assert root == Split(r, '/') && q == Split(p, '/');
      if p != r {
        PrefixAndRest(r + "/", p);
        SplitConcat(r, p[|r + "/"|..]);
        PartsOfConcat(root, Split(p[|r + "/"|..], '/'));
      }
    }
  }

  lemma SplitConcat(a: string, b: string)
    ensures Split(a + "/" + b, '/') == Split(a, '/') + Split(b, '/')
  {
    SplitParts(a, '/');
    SplitParts(b, '/');
    JoinConcat(Split(a, '/'), Split(b, '/'), '/');
    ConcatIsAssociative(a, "/", b);
    SplitOfJoin(Split(a, '/') + Split(b, '/'), '/');
  }

  /** The text after a prefix and a slash. */
  lemma AfterPrefix(r: string, rest: string)
    ensures UnderPrefix(r, r + ("/" + rest)) && Rest(r, r + ("/" + rest)) == Split(rest, '/')
  {
    var p := r + ("/" + rest);
    PartsOfConcat(r, "/" + rest);
    PartsOfConcat("/", rest);
    ConcatIsAssociative(r, "/", rest);
    PartsOfConcat(r + "/", rest);
  }

  lemma NothingAfterPrefix(r: string)
    ensures UnderPrefix(r, r) && Rest(r, r) == [""]
  {
    WholeSlice(r, |r|);
  }

  /** And a path whose segments start with the root's is at or below it, and the others follow. */
  lemma PrefixIsBelow(root: seq<string>, q: seq<string>)
    requires AreSegments(q) && q != [] && root <= q
    ensures UnderPrefix(JoinSegments(root), JoinSegments(q))
    ensures Rest(JoinSegments(root), JoinSegments(q)) == if |root| == |q| then [""] else q[|root|..]
  {
    PrefixAndRest(root, q);
    if |root| == |q| {
      WholeSlice(q, |q|);
      ConcatNothing(root);
      NothingAfterPrefix(JoinSegments(q));
    } else if root == [] {
      SegmentsEndWithoutSlash(q);
      SplitOfJoin(q, '/');
    } else {
      TailAreSegments(q, |root|);
      TailIsBelow(root, q[|root|..]);
    }
  }

  lemma TailAreSegments(q: seq<string>, n: nat)
    requires AreSegments(q) && n <= |q|
    ensures AreSegments(q[n..])
  {
    forall s <- q[n..] ensures s in q {
    }
  }

  lemma TailIsBelow(root: seq<string>, rest: seq<string>)
    requires AreSegments(rest) && root != [] && rest != []
    ensures UnderPrefix(JoinSegments(root), JoinSegments(root + rest))
    ensures Rest(JoinSegments(root), JoinSegments(root + rest)) == rest
  {
    JoinConcat(root, rest, '/');
    AfterPrefix(JoinSegments(root), Join(rest, '/'));
    SplitOfJoin(rest, '/');
  }

  /** Some tail of the path that leaves out at least its first `n` segments, and perhaps all, matches. */
  ghost predicate SomeTailAfter(m: PathMatch, suf: string, q: seq<string>, n: nat) {
    exists i :: n <= i <= |q| && m(suf, JoinSegments(q[i..]))
  }

  lemma TailsOfRest(m: PathMatch, suf: string, q: seq<string>, n: nat)
    requires n <= |q|
    ensures SomeTailMatches(m, suf, q[n..]) <==> SomeTailAfter(m, suf, q, n)
  {
    if SomeTailAfter(m, suf, q, n) {
      var i :| n <= i <= |q| && m(suf, JoinSegments(q[i..]));
      TailOfRest(q, n, i - n, i);
    }
    if SomeTailMatches(m, suf, q[n..]) {
      var i :| 0 <= i <= |q[n..]| && m(suf, JoinSegments(q[n..][i..]));
      TailOfRest(q, n, i, n + i);
    }
  }

  lemma TailOfRest(q: seq<string>, n: nat, i: nat, k: nat)
    requires k == n + i <= |q|
    ensures |q[n..]| == |q| - n && JoinSegments(q[n..][i..]) == JoinSegments(q[k..])
  {
    SuffixOfSuffix(q, n, i);
  }

  /** The one empty segment that splitting nothing gives is as good as none. */
  lemma NoSegments(m: PathMatch, suf: string)
    ensures SomeTailMatches(m, suf, [""]) <==> SomeTailMatches(m, suf, [])
  {
    assert [""][0..] == [""] && [""][1..] == [];
    assert JoinSegments([""]) == "";
    assert JoinSegments([""][1..]) == "" && JoinSegments([][0..]) == "";
  }

  /**
   A glob with "**" matches a path if and only if the segments before it start the path's and the glob after it matches
   some tail of the others, or nothing follows it. Either slash around the "**" may be missing.
   */
  lemma DeepGlobIff(m: PathMatch, pre: seq<string>, x: string, y: string, suf: string, q: seq<string>)
    requires AreSegments(pre) && AreSegments(q) && q != [] && Optional(x) && Optional(y) && ("/" <= suf ==> y == "/")
    requires FirstStarsAfter(JoinSegments(pre) + x, JoinSegments(pre) + x + "**" + (y + suf))
    ensures Matches(m, JoinSegments(pre) + x + "**" + (y + suf), JoinSegments(q))
       <==> pre <= q && (suf == "" || SomeTailAfter(m, suf, q, |pre|))
  {
    var p := JoinSegments(pre);
    PartsOfGlob(p + x, y + suf);
    SegmentsEndWithoutSlash(pre);
    TrimsOneSlash(p, x);
    TrimsOneSlash(suf, y);
    if UnderPrefix(p, JoinSegments(q)) {
      BelowIsPrefix(pre, q);
    }
    if pre <= q {
      PrefixIsBelow(pre, q);
      TailsOfRest(m, suf, q, |pre|);
      NoSegments(m, suf);
      WholeSlice(q, |q|);
    }
  }

  lemma BelowIsPrefix(pre: seq<string>, q: seq<string>)
    requires AreSegments(pre) && AreSegments(q) && q != [] && UnderPrefix(JoinSegments(pre), JoinSegments(q))
    ensures pre <= q
  {
    if pre != [] {
      JoinEnds(pre);
      BelowRootIsPrefix(pre, q);
    }
  }

  /** A glob without "**" matches what `path.Match` says. */
  lemma FlatGlobIff(m: PathMatch, glob: string, p: string)
    requires !Occurs(glob, "**")
    ensures Matches(m, glob, p) <==> m(glob, p)
  {
    ContainsIff(glob, "**");
  }

  // ----- globWalkRoot -----

  function LiteralSegments(parts: seq<string>): seq<string> {
    if parts == [] || !Literal(parts[0]) then [] else [parts[0]] + LiteralSegments(parts[1..])
  }

  /** The directory, as segments under the repository root, that a walk for the glob starts from. */
  function WalkRoot(glob: string): seq<string> {
    LiteralSegments(Split(glob, '/'))
  }

  method GlobWalkRoot(glob: string) returns (prefixParts: seq<string>)
    ensures prefixParts == WalkRoot(glob)
  {
    var parts := Split(glob, '/');
    prefixParts := [];
    for i := 0 to |parts|
      invariant prefixParts + LiteralSegments(parts[i..]) == LiteralSegments(parts)
    {
      if !Literal(parts[i]) {
        break;
      }
      SuffixShrinks(parts, i, i + 1);
      prefixParts := prefixParts + [parts[i]];
    }
  }

  /** The walk root is the longest run of segments without wildcards that the glob starts with. */
  lemma {:induction false} WalkRootIsLongest(parts: seq<string>)
    ensures var root := LiteralSegments(parts);
            && root <= parts && (forall s <- root :: '*' !in s && '?' !in s && '[' !in s)
            && (|root| < |parts| ==> '*' in parts[|root|] || '?' in parts[|root|] || '[' in parts[|root|])
  {
    if parts != [] && Literal(parts[0]) {
      WalkRootIsLongest(parts[1..]);
    }
  }

  /** `p` is the root itself or lies below it; every path lies below the repository root. */
  predicate AtOrBelow(root: seq<string>, p: string) {
    root == [] || p == JoinSegments(root) || JoinSegments(root) + "/" <= p
  }

  /** A glob that `filepath.Join` leaves alone, and that escapes nothing. */
  predicate Clean(glob: string) {
    && '\\' !in glob
    && forall part <- Split(glob, '/') :: part != "" && part != "." && part != ".."
  }

  /** The walk root is literal text at the start of the glob, up to a slash or the glob's end. */
  lemma {:induction false} RootStartsGlob(parts: seq<string>)
    requires parts != [] && forall part <- parts :: part != ""
    ensures var root := LiteralSegments(parts);
            && Literal(JoinSegments(root))
            && (root != [] ==> JoinSegments(root) != "")
            && (root == [] || JoinSegments(root) == Join(parts, '/') || JoinSegments(root) + "/" <= Join(parts, '/'))
  {
    var root := LiteralSegments(parts);
    if root != [] {
      assert parts[0] in parts;
      if |parts| > 1 {
        forall part <- parts[1..] ensures part != "" { assert part in parts; }
        RootStartsGlob(parts[1..]);
        assert Join(parts, '/') == parts[0] + ['/'] + Join(parts[1..], '/');
        if |root| == 1 {
          assert parts[0] + "/" <= Join(parts, '/');
        } else {
          assert root[1..] == LiteralSegments(parts[1..]);
          assert JoinSegments(root) == parts[0] + ['/'] + JoinSegments(root[1..]);
          PrefixUnderPrefix(parts[0] + ['/'], JoinSegments(root[1..]) + "/", Join(parts[1..], '/'));
          assert JoinSegments(root) + "/" == parts[0] + ['/'] + (JoinSegments(root[1..]) + "/");
        }
      }
    }
  }

  lemma PrefixUnderPrefix(a: string, b: string, c: string)
    ensures b <= c ==> a + b <= a + c
  {
    if b <= c {
      assert (a + c)[..|a + b|] == a + c[..|b|];
    }
  }

  /** Whatever matches a clean glob is at or below the glob's walk root. */
  lemma MatchIsBelowRoot(m: PathMatch, glob: string, p: string)
    requires TakesLiterals(m) && Clean(glob) && Matches(m, glob, p)
    ensures AtOrBelow(WalkRoot(glob), p)
  {
    var r := JoinSegments(WalkRoot(glob));
    SplitParts(glob, '/');
    RootStartsGlob(Split(glob, '/'));
    if WalkRoot(glob) != [] {
      if Contains(glob, "**") {
        DeepMatchIsBelow(m, glob, r, p);
      } else {
        FlatMatchIsBelow(m, glob, r, p);
      }
    }
  }

  lemma DeepMatchIsBelow(m: PathMatch, glob: string, r: string, p: string)
    requires Contains(glob, "**") && Matches(m, glob, p)
    requires r != "" && Literal(r) && (r == glob || r + "/" <= glob)
    ensures p == r || r + "/" <= p
  {
    var idx := IndexFrom(glob, "**", 0);
    IndexIsAt(glob, "**", 0);
    assert glob[idx..idx + 2][0] == glob[idx] == '*';
    StarIsAfterRoot(glob, r, idx);
    PrefixIsBelowRoot(r, glob[..idx], p);
  }

  lemma FlatMatchIsBelow(m: PathMatch, glob: string, r: string, p: string)
    requires TakesLiterals(m) && m(glob, p) && '\\' !in glob
    requires Literal(r) && (r == glob || r + "/" <= glob)
    ensures p == r || r + "/" <= p
  {
    if r == glob {
      assert r + "" == glob;
      assert LiteralFirst(m, r, "", p);
      assert p[..|r|] == r && p[|r|..] == "";
    } else {
      var lit, rest := r + "/", glob[|r| + 1..];
      assert glob == lit + rest;
      assert LiteralFirst(m, lit, rest, p);
    }
  }

  lemma StarIsAfterRoot(glob: string, r: string, idx: nat)
    requires Literal(r) && idx < |glob| && glob[idx] == '*'
    requires r == glob || r + "/" <= glob
    ensures idx > |r| && r + "/" <= glob[..idx]
  {
    assert forall k :: 0 <= k < |r| ==> glob[k] == r[k] && r[k] in r;
    assert r != glob ==> glob[|r|] == (r + "/")[|r|] == '/';
    assert glob[..idx][..|r| + 1] == glob[..|r| + 1];
  }

  lemma PrefixIsBelowRoot(r: string, head: string, p: string)
    requires r != "" && r + "/" <= head
    requires UnderPrefix(TrimSuffix(head, "/"), p)
    ensures p == r || r + "/" <= p
  {
    var prefix := TrimSuffix(head, "/");
    assert r + "/" == head[..|r| + 1];
    if prefix == r {
    } else {
      assert |prefix| >= |r| + 1 by {
        assert head[..|r|] == r;
      }
      assert prefix[..|r| + 1] == r + "/";
      assert prefix + "/" <= p ==> p[..|prefix|] == (prefix + "/")[..|prefix|] == prefix;
      assert prefix <= p;
      assert p[..|r| + 1] == prefix[..|r| + 1];
    }
  }
}
