/**
 robots.txt rules: parsing a text into the rules that govern a product (RFC 9309, sections 2.2.1 and
 2.2.2) and the verdict on a path.
 */
module RobotsRules {
  import opened RobotsMatch
  import opened Sequences
  import opened Strings

  datatype Rule = Rule(allow: bool, path: string)

  // ----- the verdict -----

  predicate Applies(r: Rule, path: string) { Matches(r.path, path) }

  /** `r` is a longest rule among those that apply. */
  ghost predicate Longest(r: Rule, rules: seq<Rule>, path: string) {
    r in rules && Applies(r, path) && forall q <- rules :: Applies(q, path) ==> |q.path| <= |r.path|
  }

  /** Nothing applies, or a longest rule that applies is an Allow. */
  ghost predicate Allowed(rules: seq<Rule>, path: string) {
    (forall r <- rules :: !Applies(r, path)) || exists r :: Longest(r, rules, path) && r.allow
  }

  /** What the loop knows after some rules: the greatest length that applied, and what the longest ones say. */
  ghost predicate Best(rules: seq<Rule>, path: string, bestLen: int, allowed: bool, rule: string) {
    if bestLen == -1 then allowed && forall r <- rules :: !Applies(r, path)
    else
      && (forall r <- rules :: Applies(r, path) ==> |r.path| <= bestLen)
      && (allowed <==> exists r <- rules :: Applies(r, path) && |r.path| == bestLen && r.allow)
      && (!allowed ==> Applies(Rule(false, rule), path) && Rule(false, rule) in rules && |rule| == bestLen)
      && bestLen >= 0
  }

  method RobotsVerdict(rules: seq<Rule>, path: string) returns (ok: bool, matched: string)
    ensures ok <==> Allowed(rules, path)
    ensures ok ==> matched == ""
    ensures !ok ==> Longest(Rule(false, matched), rules, path)
  {
    var bestLen, allowed, rule := -1, true, "";
    for i := 0 to |rules|
      invariant Best(rules[..i], path, bestLen, allowed, rule)
    {
      var r := rules[i];
      PrefixGrows(rules, i, i + 1);
      OneMoreRule(rules[..i], path, bestLen, allowed, rule, r);
      var applies := MatchRobotsPattern(r.path, path);
      if !applies {
        continue;
      }
      if |r.path| > bestLen {
        bestLen := |r.path|;
        allowed := r.allow;
        rule := r.path;
      } else if |r.path| == bestLen && r.allow && !allowed {
        allowed := true;
      }
    }
    WholeSlice(rules, |rules|);
    BestDecides(rules, path, bestLen, allowed, rule);
    if allowed {
      return true, "";
    }
    ok, matched := false, rule;
  }

  /** A longer rule takes over, and an Allow of the same length overrules. */
  lemma OneMoreRule(rules: seq<Rule>, path: string, bestLen: int, allowed: bool, rule: string, r: Rule)
    requires Best(rules, path, bestLen, allowed, rule)
    ensures if !Applies(r, path) then Best(rules + [r], path, bestLen, allowed, rule)
            else if |r.path| > bestLen then Best(rules + [r], path, |r.path|, r.allow, r.path)
            else Best(rules + [r], path, bestLen, allowed || (|r.path| == bestLen && r.allow), rule)
  {
    assert r == Rule(r.allow, r.path) && r in rules + [r] && forall q <- rules :: q in rules + [r];
  }

  lemma BestDecides(rules: seq<Rule>, path: string, bestLen: int, allowed: bool, rule: string)
    requires Best(rules, path, bestLen, allowed, rule)
    ensures allowed <==> Allowed(rules, path)
    ensures !allowed ==> Longest(Rule(false, rule), rules, path)
  {
    if bestLen != -1 && allowed {
      var r :| r in rules && Applies(r, path) && |r.path| == bestLen && r.allow;
      assert Longest(r, rules, path);
    }
  }

  /** The verdict depends only on which rules there are, not on their order or number. */
  lemma VerdictIsOrderFree(rules: seq<Rule>, rules': seq<Rule>, path: string)
    requires forall r :: r in rules <==> r in rules'
    ensures Allowed(rules, path) <==> Allowed(rules', path)
  {
    forall r ensures Longest(r, rules, path) <==> Longest(r, rules', path) {
    }
  }

  // ----- lines -----

  datatype Line = Skipped | Agent(value: string) | Path(allow: bool, value: string) | Other

  /** What one raw line says, once its comment is cut off. */
  function Classify(u: Unicode, raw: string): Line {
    var hash := IndexFrom(raw, "#", 0);
    Says(u, Trim(u, if hash >= 0 then raw[..hash] else raw))
  }

  function Says(u: Unicode, line: string): Line {
    var colon := IndexFrom(line, ":", 0);
    if line == "" || colon < 0 then Skipped
    else FieldSays(u, Lower(u, Trim(u, line[..colon])), Trim(u, line[colon + 1..]))
  }

  function FieldSays(u: Unicode, field: string, value: string): Line {
    if field == "user-agent" then Agent(Lower(u, value))
    else if field == "allow" then Path(true, value)
    else if field == "disallow" then Path(false, value)
    else Other
  }

  function Lines(u: Unicode, body: string): seq<Line> {
    ClassifyAll(u, Split(body, '\n'))
  }

  function ClassifyAll(u: Unicode, raw: seq<string>): seq<Line> {
    seq(|raw|, i requires 0 <= i < |raw| => Classify(u, raw[i]))
  }

  // ----- groups -----

  datatype Group = Group(agents: seq<string>, rules: seq<Rule>)

  /** The groups read so far, and whether the last line read was one of a run of agent lines. */
  datatype Reading = Reading(groups: seq<Group>, inAgents: bool)

  function Feed(st: Reading, line: Line): Reading {
    match line
    case Skipped => st
    case Agent(value) =>
      var groups := if st.inAgents && st.groups != [] then st.groups else st.groups + [Group([], [])];
      Reading(AddAgent(groups, value), true)
    case Path(allow, value) =>
      if st.groups == [] || value == "" then st.(inAgents := false)
      else Reading(AddRule(st.groups, Rule(allow, value)), false)
    case Other => st.(inAgents := false)
  }

  function AddAgent(groups: seq<Group>, value: string): seq<Group>
    requires groups != []
  {
    var last := groups[|groups| - 1];
    groups[..|groups| - 1] + [last.(agents := last.agents + [value])]
  }

  function AddRule(groups: seq<Group>, rule: Rule): seq<Group>
    requires groups != []
  {
    var last := groups[|groups| - 1];
    groups[..|groups| - 1] + [last.(rules := last.rules + [rule])]
  }

  function ReadFrom(st: Reading, lines: seq<Line>): Reading
    decreases |lines|
  {
    if lines == [] then st else ReadFrom(Feed(st, lines[0]), lines[1..])
  }

  const START := Reading([], false)

  // ----- the governing rules -----

  predicate IsSpecific(g: Group, product: string) {
    exists i :: 0 <= i < |g.agents| && g.agents[i] != "*" && Contains(product, g.agents[i])
  }

  predicate IsWild(g: Group) { "*" in g.agents }

  /** The rules of the groups that name the product, in order. */
  function SpecificRules(groups: seq<Group>, product: string): seq<Rule> {
    if groups == [] then []
    else
      var last := groups[|groups| - 1];
      SpecificRules(groups[..|groups| - 1], product) + (if IsSpecific(last, product) then last.rules else [])
  }

  /** The rules of the other groups that say '*', in order. */
  function WildRules(groups: seq<Group>, product: string): seq<Rule> {
    if groups == [] then []
    else
      var last := groups[|groups| - 1];
      WildRules(groups[..|groups| - 1], product)
      + (if !IsSpecific(last, product) && IsWild(last) then last.rules else [])
  }

  /** The '*' groups govern when no matching specific group carries a rule. */
  function Governing(groups: seq<Group>, product: string): seq<Rule> {
    var specific := SpecificRules(groups, product);
    if specific != [] then specific else WildRules(groups, product)
  }

  method ParseRobots(u: Unicode, body: string, product: string) returns (rules: seq<Rule>)
    ensures rules == Governing(ReadFrom(START, Lines(u, body)).groups, product)
  {
    var raw := Split(body, '\n');
    ghost var lines := Lines(u, body);
    var groups: seq<Group>, inAgents := [], false;
    for i := 0 to |raw|
      invariant inAgents ==> groups != []
      invariant ReadFrom(START, lines) == ReadFrom(Reading(groups, inAgents), lines[i..])
    {
      ghost var before := Reading(groups, inAgents);
      var line := Classify(u, raw[i]);
      match line {
        case Skipped =>
        case Agent(value) =>
          if !inAgents {
            groups := groups + [Group([], [])];
            inAgents := true;
          }
          groups := AddAgent(groups, value);
        case Path(allow, value) =>
          inAgents := false;
          if groups != [] && value != "" {
            groups := AddRule(groups, Rule(allow, value));
          }
        case Other =>
          inAgents := false;
      }
      assert Reading(groups, inAgents) == Feed(before, lines[i]);
      SuffixShrinks(lines, i, i + 1);
    }
    WholeSlice(lines, |raw|);
    var specific: seq<Rule>, wildcard: seq<Rule> := [], [];
    for i := 0 to |groups|
      invariant specific == SpecificRules(groups[..i], product) && wildcard == WildRules(groups[..i], product)
    {
      PrefixOfPrefix(groups, i + 1, i);
      if IsSpecific(groups[i], product) {
        specific := specific + groups[i].rules;
      } else if IsWild(groups[i]) {
        wildcard := wildcard + groups[i].rules;
      }
    }
    WholeSlice(groups, |groups|);
    rules := if specific != [] then specific else wildcard;
  }

  // ----- which rules govern, whatever the order of the groups -----

  ghost predicate SpecificRule(groups: seq<Group>, product: string, r: Rule) {
    exists g <- groups :: IsSpecific(g, product) && r in g.rules
  }

  ghost predicate WildRule(groups: seq<Group>, product: string, r: Rule) {
    exists g <- groups :: !IsSpecific(g, product) && IsWild(g) && r in g.rules
  }

  lemma {:induction false} RulesOfGroups(groups: seq<Group>, product: string, r: Rule)
    ensures r in SpecificRules(groups, product) <==> SpecificRule(groups, product, r)
    ensures r in WildRules(groups, product) <==> WildRule(groups, product, r)
  {
    if groups != [] {
      var init, last := groups[..|groups| - 1], groups[|groups| - 1];
      InitAndLast(groups);
      RulesOfGroups(init, product, r);
    }
  }

  lemma GoverningIsOrderFree(groups: seq<Group>, groups': seq<Group>, product: string, r: Rule)
    requires forall g :: g in groups <==> g in groups'
    ensures r in Governing(groups, product) <==> r in Governing(groups', product)
  {
    forall q ensures q in SpecificRules(groups, product) <==> q in SpecificRules(groups', product) {
      RulesOfGroups(groups, product, q);
      RulesOfGroups(groups', product, q);
    }
    RulesOfGroups(groups, product, r);
    RulesOfGroups(groups', product, r);
    assert SpecificRules(groups, product) == [] <==> SpecificRules(groups', product) == [] by {
      var s, s' := SpecificRules(groups, product), SpecificRules(groups', product);
      if s != [] { assert s[0] in s'; }
      if s' != [] { assert s'[0] in s; }
    }
  }

  // ----- blank and comment lines -----

  function Significant(lines: seq<Line>): seq<Line> {
    if lines == [] then []
    else (if lines[0].Skipped? then [] else [lines[0]]) + Significant(lines[1..])
  }

  /** Lines that say nothing change nothing. */
  lemma {:induction false} SkippedLinesDoNotMatter(st: Reading, lines: seq<Line>)
    ensures ReadFrom(st, lines) == ReadFrom(st, Significant(lines))
    decreases |lines|
  {
    if lines != [] {
      SkippedLinesDoNotMatter(Feed(st, lines[0]), lines[1..]);
      ConcatNothing(Significant(lines[1..]));
      PartsOfConcat([lines[0]], Significant(lines[1..]));
    }
  }

  /** The line is blank up to its comment, if it has one. */
  ghost predicate NothingBeforeComment(u: Unicode, raw: string) {
    exists n :: 0 <= n <= |raw| && (forall k :: 0 <= k < n ==> u.isSpace(raw[k]) && raw[k] != '#')
                && (n < |raw| ==> raw[n] == '#')
  }

  /** A line with nothing before its comment says nothing. */
  lemma CommentOnlyIsSkipped(u: Unicode, raw: string)
    requires NothingBeforeComment(u, raw)
    ensures Classify(u, raw) == Skipped
  {
    var n :| 0 <= n <= |raw| && (forall k :: 0 <= k < n ==> u.isSpace(raw[k]) && raw[k] != '#')
             && (n < |raw| ==> raw[n] == '#');
    FirstHash(raw, n);
    WholeSlice(raw, |raw|);
    forall c <- raw[..n] ensures u.isSpace(c) {
      var k :| 0 <= k < n && raw[k] == c;
    }
    ConcatNothing(raw[..n]);
    TrimOfPadded(u, raw[..n], "", "");
  }

  lemma FirstHash(raw: string, n: nat)
    requires n <= |raw| && (forall k :: 0 <= k < n ==> raw[k] != '#') && (n < |raw| ==> raw[n] == '#')
    ensures IndexFrom(raw, "#", 0) == if n < |raw| then n else -1
  {
    var hash := IndexFrom(raw, "#", 0);
    if hash >= 0 {
      IndexIsAt(raw, "#", 0);
      AtIsChar(raw, '#', hash);
    }
    if n < |raw| {
      AtIsChar(raw, '#', n);
      IndexIsLeast(raw, "#", 0, n);
    }
  }

  lemma {:induction false} SignificantConcat(a: seq<Line>, b: seq<Line>)
    ensures Significant(a + b) == Significant(a) + Significant(b)
  {
    if a == [] {
      ConcatNothing(b);
    } else {
      TailOfConcat(a, b);
      SignificantConcat(a[1..], b);
      ConcatIsAssociative(if a[0].Skipped? then [] else [a[0]], Significant(a[1..]), Significant(b));
    }
  }

  lemma SkippedLineDeleted(a: seq<Line>, b: seq<Line>)
    ensures Significant(a + [Skipped] + b) == Significant(a + b)
  {
    SignificantConcat(a + [Skipped], b);
    SignificantConcat(a, [Skipped]);
    SignificantConcat(a, b);
    assert Significant([Skipped]) == [];
  }

  /** Deleting a blank or comment-only line from a text leaves the governing rules as they were. */
  lemma BlankLineDeleted(u: Unicode, before: seq<string>, blank: string, after: seq<string>, product: string)
    requires before + after != [] && NothingBeforeComment(u, blank)
    requires forall raw <- before + [blank] + after :: '\n' !in raw
    ensures Governing(ReadFrom(START, Lines(u, Join(before + [blank] + after, '\n'))).groups, product)
         == Governing(ReadFrom(START, Lines(u, Join(before + after, '\n'))).groups, product)
  {
    CommentOnlyIsSkipped(u, blank);
    var with, without := before + [blank] + after, before + after;
    forall raw <- without ensures '\n' !in raw { assert raw in with; }
    SplitOfJoin(with, '\n');
    SplitOfJoin(without, '\n');
    var a, b := ClassifyAll(u, before), ClassifyAll(u, after);
    ClassifyAround(u, before, blank, after);
    SkippedLineDeleted(a, b);
    SkippedLinesDoNotMatter(START, a + [Skipped] + b);
    SkippedLinesDoNotMatter(START, a + b);
  }

  lemma ClassifyAround(u: Unicode, before: seq<string>, line: string, after: seq<string>)
    ensures ClassifyAll(u, before + after) == ClassifyAll(u, before) + ClassifyAll(u, after)
    ensures ClassifyAll(u, before + [line] + after)
         == ClassifyAll(u, before) + [Classify(u, line)] + ClassifyAll(u, after)
  {
  }

  // ----- reordering whole groups -----

  /** A run of agent lines followed by at least one other line: one group of a robots text. */
  datatype Block = Block(agents: seq<string>, rest: seq<Line>)

  predicate IsBlock(b: Block) {
    b.agents != [] && b.rest != [] && forall line <- b.rest :: line.Path? || line.Other?
  }

  function AgentLines(agents: seq<string>): seq<Line> {
    seq(|agents|, i requires 0 <= i < |agents| => Agent(agents[i]))
  }

  function BlockLines(blocks: seq<Block>): seq<Line> {
    if blocks == [] then [] else AgentLines(blocks[0].agents) + blocks[0].rest + BlockLines(blocks[1..])
  }

  function RulesIn(lines: seq<Line>): seq<Rule> {
    if lines == [] then []
    else RuleOf(lines[0]) + RulesIn(lines[1..])
  }

  function GroupOf(b: Block): Group { Group(b.agents, RulesIn(b.rest)) }

  function GroupsOf(blocks: seq<Block>): seq<Group> {
    seq(|blocks|, i requires 0 <= i < |blocks| => GroupOf(blocks[i]))
  }

  lemma {:induction false} ReadConcat(st: Reading, a: seq<Line>, b: seq<Line>)
    ensures ReadFrom(st, a + b) == ReadFrom(ReadFrom(st, a), b)
    decreases |a|
  {
    if a == [] {
      ConcatNothing(b);
    } else {
      TailOfConcat(a, b);
      ReadConcat(Feed(st, a[0]), a[1..], b);
    }
  }

  lemma {:induction false} ReadAgents(groups: seq<Group>, seen: seq<string>, agents: seq<string>)
    ensures ReadFrom(Reading(groups + [Group(seen, [])], true), AgentLines(agents))
         == Reading(groups + [Group(seen + agents, [])], true)
    decreases |agents|
  {
    if agents == [] {
      ConcatNothing(seen);
    } else {
      var st := Reading(groups + [Group(seen, [])], true);
      assert AgentLines(agents)[1..] == AgentLines(agents[1..]);
      assert Feed(st, Agent(agents[0])).groups == groups + [Group(seen + [agents[0]], [])];
      ReadAgents(groups, seen + [agents[0]], agents[1..]);
      ConcatIsAssociative(seen, [agents[0]], agents[1..]);
      HeadAndTail(agents);
    }
  }

  /** The rule a line adds to the group being read, if any. */
  function RuleOf(line: Line): seq<Rule> {
    if line.Path? && line.value != "" then [Rule(line.allow, line.value)] else []
  }

  lemma FeedRule(groups: seq<Group>, agents: seq<string>, rules: seq<Rule>, inAgents: bool, line: Line)
    requires line.Path? || line.Other?
    ensures Feed(Reading(groups + [Group(agents, rules)], inAgents), line)
         == Reading(groups + [Group(agents, rules + RuleOf(line))], false)
  {
    var all := groups + [Group(agents, rules)];
    PartsOfConcat(groups, [Group(agents, rules)]);
    ConcatNothing(rules);
  }

  lemma {:induction false} ReadRules(groups: seq<Group>, agents: seq<string>, rules: seq<Rule>, inAgents: bool,
                                     lines: seq<Line>)
    requires forall line <- lines :: line.Path? || line.Other?
    ensures ReadFrom(Reading(groups + [Group(agents, rules)], inAgents), lines)
         == Reading(groups + [Group(agents, rules + RulesIn(lines))], inAgents && lines == [])
    decreases |lines|
  {
    if lines == [] {
      ConcatNothing(rules);
    } else {
      var line, rest := lines[0], lines[1..];
      assert line in lines;
      FeedRule(groups, agents, rules, inAgents, line);
      ReadRules(groups, agents, rules + RuleOf(line), false, rest);
      ConcatIsAssociative(rules, RuleOf(line), RulesIn(rest));
    }
  }

  /** Every block is read as one group of its own. */
  lemma {:induction false} BlocksAreGroups(groups: seq<Group>, blocks: seq<Block>)
    requires forall b <- blocks :: IsBlock(b)
    ensures ReadFrom(Reading(groups, false), BlockLines(blocks)) == Reading(groups + GroupsOf(blocks), false)
    decreases |blocks|
  {
    if blocks == [] {
      ConcatNothing(groups);
    } else {
      var b, tail := blocks[0], BlockLines(blocks[1..]);
      assert b in blocks;
      BlockIsGroup(groups, b);
      ReadConcat(Reading(groups, false), AgentLines(b.agents) + b.rest, tail);
      BlocksAreGroups(groups + [GroupOf(b)], blocks[1..]);
      GroupsOfCons(blocks);
      ConcatIsAssociative(groups, [GroupOf(b)], GroupsOf(blocks[1..]));
    }
  }

  lemma GroupsOfCons(blocks: seq<Block>)
    requires blocks != []
    ensures GroupsOf(blocks) == [GroupOf(blocks[0])] + GroupsOf(blocks[1..])
  {
  }

  lemma BlockIsGroup(groups: seq<Group>, b: Block)
    requires IsBlock(b)
    ensures ReadFrom(Reading(groups, false), AgentLines(b.agents) + b.rest) == Reading(groups + [GroupOf(b)], false)
  {
    ReadConcat(Reading(groups, false), AgentLines(b.agents), b.rest);
    assert AgentLines(b.agents)[1..] == AgentLines(b.agents[1..]);
    ConcatNothing([b.agents[0]]);
    assert Feed(Reading(groups, false), Agent(b.agents[0])).groups == groups + [Group([b.agents[0]], [])];
    ReadAgents(groups, [b.agents[0]], b.agents[1..]);
    HeadAndTail(b.agents);
    ReadRules(groups, b.agents, [], true, b.rest);
    ConcatNothing(RulesIn(b.rest));
  }

  /** Before the first agent line nothing is kept. */
  lemma {:induction false} PreambleIsIgnored(lines: seq<Line>)
    requires forall line <- lines :: line.Path? || line.Other?
    ensures ReadFrom(START, lines) == START
  {
    if lines != [] {
      assert lines[0] in lines;
      PreambleIsIgnored(lines[1..]);
    }
  }

  /** A text whose significant lines are a preamble without agents and then the given blocks. */
  ghost predicate IsText(u: Unicode, body: string, preamble: seq<Line>, blocks: seq<Block>) {
    && (forall line <- preamble :: line.Path? || line.Other?)
    && (forall b <- blocks :: IsBlock(b))
    && Significant(Lines(u, body)) == preamble + BlockLines(blocks)
  }

  lemma TextGroups(u: Unicode, body: string, preamble: seq<Line>, blocks: seq<Block>)
    requires IsText(u, body, preamble, blocks)
    ensures ReadFrom(START, Lines(u, body)).groups == GroupsOf(blocks)
  {
    SkippedLinesDoNotMatter(START, Lines(u, body));
    BlocksAfterPreamble(preamble, blocks);
  }

  lemma BlocksAfterPreamble(preamble: seq<Line>, blocks: seq<Block>)
    requires (forall line <- preamble :: line.Path? || line.Other?) && forall b <- blocks :: IsBlock(b)
    ensures ReadFrom(START, preamble + BlockLines(blocks)) == Reading(GroupsOf(blocks), false)
  {
    ReadConcat(START, preamble, BlockLines(blocks));
    PreambleIsIgnored(preamble);
    BlocksAreGroups([], blocks);
    ConcatNothing(GroupsOf(blocks));
  }

  /** Reordering whole groups, and adding or deleting lines that say nothing, leaves every verdict as it was. */
  lemma GroupOrderDoesNotMatter(u: Unicode, body: string, body': string, preamble: seq<Line>, preamble': seq<Line>,
                                blocks: seq<Block>, blocks': seq<Block>, product: string, path: string)
    requires IsText(u, body, preamble, blocks) && IsText(u, body', preamble', blocks')
    requires multiset(blocks) == multiset(blocks')
    ensures Allowed(Governing(ReadFrom(START, Lines(u, body)).groups, product), path) <==>
            Allowed(Governing(ReadFrom(START, Lines(u, body')).groups, product), path)
  {
    TextGroups(u, body, preamble, blocks);
    TextGroups(u, body', preamble', blocks');
    SameBlocksSameGroups(blocks, blocks');
    SameBlocksSameGroups(blocks', blocks);
    forall r ensures r in Governing(GroupsOf(blocks), product) <==> r in Governing(GroupsOf(blocks'), product) {
      GoverningIsOrderFree(GroupsOf(blocks), GroupsOf(blocks'), product, r);
    }
    VerdictIsOrderFree(Governing(GroupsOf(blocks), product), Governing(GroupsOf(blocks'), product), path);
  }

  lemma SameBlocksSameGroups(blocks: seq<Block>, blocks': seq<Block>)
    requires multiset(blocks) == multiset(blocks')
    ensures forall g :: g in GroupsOf(blocks) ==> g in GroupsOf(blocks')
  {
    forall g | g in GroupsOf(blocks) ensures g in GroupsOf(blocks') {
      var i :| 0 <= i < |blocks| && g == GroupOf(blocks[i]);
      assert blocks[i] in multiset(blocks');
      var j :| 0 <= j < |blocks'| && blocks'[j] == blocks[i];
      assert GroupsOf(blocks')[j] == g;
    }
  }
}
