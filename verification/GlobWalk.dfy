/**
 `walkAllowedFiltered`: a walk that starts from each allowed glob's own root and never enters an
 excluded directory, against a full filter over all files of the repository. The file system is a tree.
 */
module GlobWalk {
  import opened Options
  import opened Sequences
  import opened Strings
  import opened GlobMatch

  datatype Node = File | Dir(entries: Entries)

  /** Directory entries in the order a walk reads them. */
  datatype Entries = NoEntries | Entry(name: string, node: Node, rest: Entries)

  predicate IsExcludedDir(name: string) {
    name in {".git", "node_modules", "target", "gospel-library", "vendor", "dist", "build", ".venv", ".next"}
  }

  function Names(es: Entries): set<string> {
    match es
    case NoEntries => {}
    case Entry(name, _, rest) => {name} + Names(rest)
  }

  /** Names are non-empty, hold no slash, and are distinct within a directory. */
  predicate WellFormed(n: Node) {
    match n
    case File => true
    case Dir(es) => WellFormedEntries(es)
  }

  predicate WellFormedEntries(es: Entries) {
    match es
    case NoEntries => true
    case Entry(name, node, rest) =>
      name != "" && '/' !in name && name !in Names(rest) && WellFormed(node) && WellFormedEntries(rest)
  }

  function Find(es: Entries, name: string): Option<Node> {
    match es
    case NoEntries => None
    case Entry(n, node, rest) => if n == name then Some(node) else Find(rest, name)
  }

  function Lookup(n: Node, segs: seq<string>): Option<Node>
    decreases |segs|
  {
    if segs == [] then Some(n)
    else
      match n
      case File => None
      case Dir(es) =>
        match Find(es, segs[0])
        case None => None
        case Some(child) => Lookup(child, segs[1..])
  }

  // ----- the files a walk visits -----

  /** The files visited from a node at path `segs`, in walk order, as segments under the repository root. */
  function Visited(name: string, n: Node, segs: seq<string>): seq<seq<string>>
    decreases n
  {
    match n
    case File => [segs]
    case Dir(es) => if IsExcludedDir(name) then [] else VisitedIn(es, segs)
  }

  function VisitedIn(es: Entries, segs: seq<string>): seq<seq<string>>
    decreases es
  {
    match es
    case NoEntries => []
    case Entry(name, node, rest) => Visited(name, node, segs + [name]) + VisitedIn(rest, segs)
  }

  /** The base name of a path: what the walk's directory entry is called. */
  function BaseName(rootName: string, segs: seq<string>): string {
    if segs == [] then rootName else segs[|segs| - 1]
  }

  /** From the directory `root` down to the one that holds file `q`, no directory is an excluded one. */
  ghost predicate NoExcluded(rootName: string, root: seq<string>, q: seq<string>) {
    && (|root| < |q| ==> !NeverEntered(if root == [] then rootName else root[|root| - 1]))
    && forall e :: |root| <= e < |q| - 1 ==> !NeverEntered(q[e])
  }

  /** Dependency caches, build output, version control and the large corpus. */
  predicate NeverEntered(name: string) {
    || name in {"node_modules", "vendor", ".venv"} || name in {"target", "dist", "build", ".next"}
    || name == ".git" || name == "gospel-library"
  }

  lemma {:induction false} VisitedIff(name: string, n: Node, segs: seq<string>, q: seq<string>)
    requires WellFormed(n)
    ensures q in Visited(name, n, segs) <==>
            && segs <= q && Lookup(n, q[|segs|..]) == Some(File)
            && (|segs| < |q| ==> !IsExcludedDir(name))
            && forall e :: |segs| <= e < |q| - 1 ==> !IsExcludedDir(q[e])
    decreases n, 1
  {
    match n
    case File =>
      if segs <= q {
        assert |segs| < |q| ==> Lookup(n, q[|segs|..]) == None;
        assert |segs| == |q| ==> segs == q && q[|segs|..] == [];
      }
    case Dir(es) =>
      VisitedInIff(es, segs, q);
      if segs <= q && |segs| == |q| {
        assert q[|segs|..] == [];
      }
  }

  lemma {:induction false} VisitedInIff(es: Entries, segs: seq<string>, q: seq<string>)
    requires WellFormedEntries(es)
    ensures q in VisitedIn(es, segs) <==>
            && segs <= q && |segs| < |q| && Lookup(Dir(es), q[|segs|..]) == Some(File)
            && forall e :: |segs| <= e < |q| - 1 ==> !IsExcludedDir(q[e])
    decreases es, 0
  {
    match es
    case NoEntries =>
    case Entry(name, node, rest) =>
      var k := |segs|;
      VisitedIff(name, node, segs + [name], q);
      VisitedInIff(rest, segs, q);
      if segs <= q && k < |q| {
        var tail := q[k..];
        assert tail[0] == q[k] && tail[1..] == q[k + 1..];
        if q[k] == name {
          FindIsNamed(rest, name);
          assert segs + [name] <= q;
        } else {
          assert !(segs + [name] <= q);
          assert Lookup(Dir(es), tail) == Lookup(Dir(rest), tail);
        }
      }
  }

  lemma {:induction false} FindIsNamed(es: Entries, name: string)
    ensures Find(es, name).Some? <==> name in Names(es)
  {
    if es.Entry? {
      FindIsNamed(es.rest, name);
    }
  }

  // ----- candidates, and collecting them -----

  predicate Wanted(m: PathMatch, allowedGlob: string, userGlob: string, rel: string) {
    Matches(m, allowedGlob, rel) && (userGlob == "" || Matches(m, userGlob, rel))
  }

  function Candidates(m: PathMatch, files: seq<seq<string>>, allowedGlob: string, userGlob: string): seq<string> {
    FlatMap(Picker(m, allowedGlob, userGlob), files)
  }

  /** Reports a file if it is wanted. */
  function Picker(m: PathMatch, allowedGlob: string, userGlob: string): seq<string> -> seq<string> {
    (file: seq<string>) => Pick(m, JoinSegments(file), allowedGlob, userGlob)
  }

  function Pick(m: PathMatch, rel: string, allowedGlob: string, userGlob: string): seq<string> {
    if Wanted(m, allowedGlob, userGlob, rel) then [rel] else []
  }

  /** Appends the candidates not there yet until there are `limit` of them; no limit when it is 0. */
  function Collect(out: seq<string>, cands: seq<string>, limit: nat): seq<string>
    decreases |cands|
  {
    if cands == [] || (limit > 0 && |out| >= limit) then out
    else Collect(if cands[0] in out then out else out + [cands[0]], cands[1..], limit)
  }

  /** Everything the walk for one allowed glob would report, in order. */
  function CandidatesFor(m: PathMatch, rootName: string, tree: Node, allowedGlob: string, userGlob: string): seq<string> {
    var root := WalkRoot(allowedGlob);
    match Lookup(tree, root)
    case None => []
    case Some(n) => Candidates(m, Visited(BaseName(rootName, root), n, root), allowedGlob, userGlob)
  }

  function AllCandidates(m: PathMatch, rootName: string, tree: Node, allowed: seq<string>, userGlob: string): seq<string> {
    if allowed == [] then []
    else CandidatesFor(m, rootName, tree, allowed[0], userGlob) + AllCandidates(m, rootName, tree, allowed[1..], userGlob)
  }

  // ----- the walk -----

  class Walk {
    var out: seq<string>
    var seen: set<string>
    /** How many more times the context is found alive before it has ended. */
    var lifetime: nat
    var stopped: bool
    const m: PathMatch
    const userGlob: string
    const softLimit: nat

    constructor (m: PathMatch, userGlob: string, softLimit: nat, lifetime: nat)
      ensures out == [] && seen == {} && this.lifetime == lifetime && !stopped
      ensures this.m == m && this.userGlob == userGlob && this.softLimit == softLimit
    {
      out, seen, stopped := [], {}, false;
      this.m, this.userGlob, this.softLimit, this.lifetime := m, userGlob, softLimit, lifetime;
    }

    ghost predicate Valid()
      reads this
    {
      forall rel :: rel in seen <==> rel in out
    }

    predicate Full()
      reads this
    {
      softLimit > 0 && |out| >= softLimit
    }

    /** The output after reporting candidates: all of them, or the first ones when the context ended before. */
    ghost predicate Reported(before: seq<string>, cands: seq<string>)
      reads this
    {
      if stopped then out <= Collect(before, cands, softLimit) else out == Collect(before, cands, softLimit)
    }

    /** Notes whether the context has ended. */
    method CheckContext()
      requires Valid() && !stopped
      modifies this`lifetime, this`stopped
      ensures Valid() && stopped == (old(lifetime) == 0)
    {
      if lifetime == 0 {
        stopped := true;
      } else {
        lifetime := lifetime - 1;
      }
    }

    /** The callback on one file. */
    method File(segs: seq<string>, allowedGlob: string)
      requires Valid() && !Full() && !stopped
      modifies this
      ensures Valid()
      ensures Reported(old(out), Candidates(m, [segs], allowedGlob, userGlob))
    {
      var rel := JoinSegments(segs);
      FlatMapOne(Picker(m, allowedGlob, userGlob), segs);
      CheckContext();
      if stopped {
        CollectGrows(out, Candidates(m, [segs], allowedGlob, userGlob), softLimit);
        return;
      }
      var matched := MatchGlob(m, allowedGlob, rel);
      if !matched {
        return;
      }
      if userGlob != "" {
        matched := MatchGlob(m, userGlob, rel);
        if !matched {
          return;
        }
      }
      if rel in seen {
        return;
      }
      seen := seen + {rel};
      out := out + [rel];
    }

    method WalkDir(name: string, n: Node, segs: seq<string>, allowedGlob: string)
      requires Valid() && !Full() && !stopped
      modifies this
      ensures Valid()
      ensures Reported(old(out), Candidates(m, Visited(name, n, segs), allowedGlob, userGlob))
      decreases n
    {
      match n {
        case File =>
          File(segs, allowedGlob);
        case Dir(es) =>
          if IsExcludedDir(name) {
            return;
          }
          WalkEntries(es, segs, allowedGlob);
      }
    }

    method WalkEntries(es: Entries, segs: seq<string>, allowedGlob: string)
      requires Valid() && !Full() && !stopped
      modifies this
      ensures Valid()
      ensures Reported(old(out), Candidates(m, VisitedIn(es, segs), allowedGlob, userGlob))
      decreases es
    {
      match es {
        case NoEntries =>
        case Entry(name, node, rest) =>
          ghost var first := Candidates(m, Visited(name, node, segs + [name]), allowedGlob, userGlob);
          ghost var others := Candidates(m, VisitedIn(rest, segs), allowedGlob, userGlob);
          FlatMapConcat(Picker(m, allowedGlob, userGlob), Visited(name, node, segs + [name]), VisitedIn(rest, segs));
          CollectSplits(out, first, others, softLimit);
          WalkDir(name, node, segs + [name], allowedGlob);
          if !Full() && !stopped {
            WalkEntries(rest, segs, allowedGlob);
          }
      }
    }
  }

  /**
   Walks from each allowed glob's own root until the limit is reached or the context ends, `lifetime` checks
   from the start; an ended walk returns the first results of the full one.
   */
  method WalkAllowedFiltered(m: PathMatch, rootName: string, tree: Node, allowed: seq<string>, userGlob: string,
                             softLimit: nat, lifetime: nat)
    returns (out: seq<string>, ended: bool)
    ensures ended ==> out <= Collect([], AllCandidates(m, rootName, tree, allowed, userGlob), softLimit)
    ensures !ended ==> out == Collect([], AllCandidates(m, rootName, tree, allowed, userGlob), softLimit)
  {
    var walk := new Walk(m, userGlob, softLimit, lifetime);
    ghost var all := AllCandidates(m, rootName, tree, allowed, userGlob);
    for i := 0 to |allowed|
      invariant walk.Valid() && fresh(walk) && walk.m == m && walk.userGlob == userGlob && walk.softLimit == softLimit
      invariant !walk.Full() && !walk.stopped
      invariant Collect([], all, softLimit) ==
                Collect(walk.out, AllCandidates(m, rootName, tree, allowed[i..], userGlob), softLimit)
    {
      var g := allowed[i];
      ghost var rest := AllCandidates(m, rootName, tree, allowed[i + 1..], userGlob);
      SuffixShrinks(allowed, i, i + 1);
      CollectSplits(walk.out, CandidatesFor(m, rootName, tree, g, userGlob), rest, softLimit);
      walk.CheckContext();
      if walk.stopped {
        return walk.out, true;
      }
      var root := GlobWalkRoot(g);
      match Lookup(tree, root) {
        case None =>
        case Some(n) => walk.WalkDir(BaseName(rootName, root), n, root, g);
      }
      if walk.stopped || walk.Full() {
        return walk.out, walk.stopped;
      }
    }
    WholeSlice(allowed, |allowed|);
    out, ended := walk.out, false;
  }

  lemma {:induction false} CollectConcat(out: seq<string>, a: seq<string>, b: seq<string>, limit: nat)
    ensures Collect(out, a + b, limit) == Collect(Collect(out, a, limit), b, limit)
    decreases |a|
  {
    if a == [] {
      ConcatNothing(b);
    } else if !(limit > 0 && |out| >= limit) {
      TailOfConcat(a, b);
      CollectConcat(if a[0] in out then out else out + [a[0]], a[1..], b, limit);
    }
  }

  /** Collecting some candidates and then others is collecting them all, and each part only adds to the output. */
  lemma CollectSplits(out: seq<string>, a: seq<string>, b: seq<string>, limit: nat)
    ensures Collect(out, a + b, limit) == Collect(Collect(out, a, limit), b, limit)
    ensures out <= Collect(out, a, limit) <= Collect(out, a + b, limit)
  {
    CollectConcat(out, a, b, limit);
    CollectGrows(out, a, limit);
    CollectGrows(Collect(out, a, limit), b, limit);
  }

  // ----- what the walk returns -----

  predicate Distinct(s: seq<string>) {
    forall i, j :: 0 <= i < j < |s| ==> s[i] != s[j]
  }

  lemma {:induction false} CollectElements(out: seq<string>, cands: seq<string>, p: string)
    requires Distinct(out)
    ensures Distinct(Collect(out, cands, 0))
    ensures p in Collect(out, cands, 0) <==> p in out || p in cands
    decreases |cands|
  {
    if cands != [] {
      var out' := if cands[0] in out then out else out + [cands[0]];
      HeadAndTail(cands);
      CollectElements(out', cands[1..], p);
    }
  }

  /** A limited walk returns the first results of the unlimited one. */
  lemma {:induction false} LimitTakesPrefix(out: seq<string>, cands: seq<string>, limit: nat)
    requires limit > 0 && |out| <= limit
    ensures var all := Collect(out, cands, 0);
            out <= all && Collect(out, cands, limit) == if |all| <= limit then all else all[..limit]
    decreases |cands|
  {
    if cands != [] {
      var out' := if cands[0] in out then out else out + [cands[0]];
      if |out| < limit {
        LimitTakesPrefix(out', cands[1..], limit);
      } else {
        CollectGrows(out, cands, 0);
      }
    }
  }

  lemma {:induction false} CollectGrows(out: seq<string>, cands: seq<string>, limit: nat)
    ensures out <= Collect(out, cands, limit)
    decreases |cands|
  {
    if cands != [] && !(limit > 0 && |out| >= limit) {
      CollectGrows(if cands[0] in out then out else out + [cands[0]], cands[1..], limit);
    }
  }

  lemma {:induction false} CandidatesIff(m: PathMatch, files: seq<seq<string>>, allowedGlob: string, userGlob: string, p: string)
    ensures p in Candidates(m, files, allowedGlob, userGlob) <==>
            Wanted(m, allowedGlob, userGlob, p) && exists q :: q in files && JoinSegments(q) == p
  {
    if files != [] {
      HeadAndTail(files);
      CandidatesIff(m, files[1..], allowedGlob, userGlob, p);
    }
  }

  lemma {:induction false} LookupNames(n: Node, q: seq<string>)
    requires WellFormed(n) && Lookup(n, q).Some?
    ensures forall s <- q :: s != "" && '/' !in s
    decreases |q|
  {
    if q != [] {
      FindIsWellFormed(n.entries, q[0]);
      LookupNames(Find(n.entries, q[0]).value, q[1..]);
      HeadAndTail(q);
    }
  }

  lemma {:induction false} FindIsWellFormed(es: Entries, name: string)
    requires WellFormedEntries(es) && Find(es, name).Some?
    ensures WellFormed(Find(es, name).value) && name != "" && '/' !in name
  {
    if es.name != name {
      FindIsWellFormed(es.rest, name);
    }
  }

  lemma {:induction false} LookupConcat(n: Node, a: seq<string>, b: seq<string>)
    ensures Lookup(n, a + b) == match Lookup(n, a) case None => None case Some(m) => Lookup(m, b)
    decreases |a|
  {
    if a == [] {
      ConcatNothing(b);
    } else if n.Dir? && Find(n.entries, a[0]).Some? {
      TailOfConcat(a, b);
      LookupConcat(Find(n.entries, a[0]).value, a[1..], b);
    }
  }

  lemma {:induction false} LookupIsWellFormed(n: Node, q: seq<string>)
    requires WellFormed(n) && Lookup(n, q).Some?
    ensures WellFormed(Lookup(n, q).value)
    decreases |q|
  {
    if q != [] {
      FindIsWellFormed(n.entries, q[0]);
      LookupIsWellFormed(Find(n.entries, q[0]).value, q[1..]);
    }
  }

  /** `q` is a file that the full filter keeps for one allowed glob. */
  ghost predicate Kept(m: PathMatch, rootName: string, tree: Node, allowedGlob: string, userGlob: string, q: seq<string>) {
    && Lookup(tree, q) == Some(File)
    && Matches(m, allowedGlob, JoinSegments(q)) && (userGlob != "" ==> Matches(m, userGlob, JoinSegments(q)))
    && NoExcluded(rootName, WalkRoot(allowedGlob), q)
  }

  lemma {:induction false} RootSegmentsHaveNoSlash(parts: seq<string>)
    requires forall s <- parts :: '/' !in s
    ensures forall s <- LiteralSegments(parts) :: '/' !in s
  {
    if parts != [] {
      assert parts[0] in parts;
      RootSegmentsHaveNoSlash(parts[1..]);
    }
  }

  /** For one allowed glob, the pruned walk reports exactly what the full filter keeps. */
  lemma CandidatesForIff(m: PathMatch, rootName: string, tree: Node, allowedGlob: string, userGlob: string, p: string)
    requires TakesLiterals(m) && WellFormed(tree) && tree.Dir? && Clean(allowedGlob)
    ensures p in CandidatesFor(m, rootName, tree, allowedGlob, userGlob) <==>
            exists q :: Kept(m, rootName, tree, allowedGlob, userGlob, q) && JoinSegments(q) == p
  {
    var root := WalkRoot(allowedGlob);
    if p in CandidatesFor(m, rootName, tree, allowedGlob, userGlob) {
      var n := Lookup(tree, root).value;
      CandidatesIff(m, Visited(BaseName(rootName, root), n, root), allowedGlob, userGlob, p);
      var q :| q in Visited(BaseName(rootName, root), n, root) && JoinSegments(q) == p;
      VisitedIsKept(rootName, tree, root, n, q);
    }
    if q :| Kept(m, rootName, tree, allowedGlob, userGlob, q) && JoinSegments(q) == p {
      MatchIsBelowRoot(m, allowedGlob, p);
      LookupNames(tree, q);
      SplitParts(allowedGlob, '/');
      RootSegmentsHaveNoSlash(Split(allowedGlob, '/'));
      BelowRootIsPrefix(root, q);
      KeptIsVisited(rootName, tree, root, q);
      CandidatesIff(m, Visited(BaseName(rootName, root), Lookup(tree, root).value, root), allowedGlob, userGlob, p);
    }
  }

  lemma VisitedIsKept(rootName: string, tree: Node, root: seq<string>, n: Node, q: seq<string>)
    requires WellFormed(tree) && Lookup(tree, root) == Some(n)
    requires q in Visited(BaseName(rootName, root), n, root)
    ensures Lookup(tree, q) == Some(File) && NoExcluded(rootName, root, q)
  {
    LookupIsWellFormed(tree, root);
    VisitedIff(BaseName(rootName, root), n, root, q);
    LookupConcat(tree, root, q[|root|..]);
    PrefixAndRest(root, q);
  }

  lemma KeptIsVisited(rootName: string, tree: Node, root: seq<string>, q: seq<string>)
    requires WellFormed(tree) && root <= q && Lookup(tree, q) == Some(File) && NoExcluded(rootName, root, q)
    ensures Lookup(tree, root).Some?
    ensures q in Visited(BaseName(rootName, root), Lookup(tree, root).value, root)
  {
    LookupConcat(tree, root, q[|root|..]);
    PrefixAndRest(root, q);
    LookupIsWellFormed(tree, root);
    VisitedIff(BaseName(rootName, root), Lookup(tree, root).value, root, q);
  }

  lemma {:induction false} AllCandidatesIff(m: PathMatch, rootName: string, tree: Node, allowed: seq<string>, userGlob: string, p: string)
    ensures p in AllCandidates(m, rootName, tree, allowed, userGlob) <==>
            exists g <- allowed :: p in CandidatesFor(m, rootName, tree, g, userGlob)
  {
    if allowed != [] {
      HeadAndTail(allowed);
      AllCandidatesIff(m, rootName, tree, allowed[1..], userGlob, p);
    }
  }

  /**
   The pruned walk loses nothing: without a limit it returns, each once, exactly the files that match an
   allowed glob and the user's glob and have no excluded directory from that allowed glob's root down.
   */
  lemma WalkIsFullFilter(m: PathMatch, rootName: string, tree: Node, allowed: seq<string>, userGlob: string, p: string)
    requires TakesLiterals(m) && WellFormed(tree) && tree.Dir? && forall g <- allowed :: Clean(g)
    ensures var out := Collect([], AllCandidates(m, rootName, tree, allowed, userGlob), 0);
            && Distinct(out)
            && (p in out <==>
                exists g, q :: g in allowed && Kept(m, rootName, tree, g, userGlob, q) && JoinSegments(q) == p)
  {
    var cands := AllCandidates(m, rootName, tree, allowed, userGlob);
    CollectElements([], cands, p);
    AllCandidatesIff(m, rootName, tree, allowed, userGlob, p);
    forall g <- allowed
      ensures p in CandidatesFor(m, rootName, tree, g, userGlob) <==>
              exists q :: Kept(m, rootName, tree, g, userGlob, q) && JoinSegments(q) == p
    {
      CandidatesForIff(m, rootName, tree, g, userGlob, p);
    }
  }
}
