/**
 robots.txt as text: groups printed with any white space, letter case and comments are read back as those groups, and
 the rules that govern a product are those its groups say (RFC 9309, section 2.2).
 */
module RobotsText {
  import opened RobotsRules
  import opened Sequences
  import opened Strings

  datatype Field = UserAgent | Allow | Disallow | Unknown

  /** One line: a directive with whatever is printed around it, or a line that says nothing. */
  datatype Printed =
    | Directive(before: string, name: string, beforeColon: string, afterColon: string, value: string, after: string,
                comment: string, field: Field)
    | Silent(text: string, comment: string)

  function NameOf(field: Field): string {
    match field
    case UserAgent => "user-agent"
    case Allow => "allow"
    case Disallow => "disallow"
    case Unknown => ""
  }

  predicate Blank(u: Unicode, s: string) { forall c <- s :: u.isSpace(c) && c !in {'#', '\n'} }

  predicate IsComment(s: string) { s == "" || (s[0] == '#' && '\n' !in s) }

  predicate OnOneLine(s: string) { '#' !in s && '\n' !in s }

  /** A text that trimming leaves as it is. */
  predicate Tight(u: Unicode, s: string) { s != "" ==> !u.isSpace(s[0]) && !u.isSpace(s[|s| - 1]) }

  /** The field's name in any letter case, or for an unknown field anything that is none of the three. */
  predicate IsName(u: Unicode, name: string, field: Field) {
    && name != "" && Tight(u, name) && OnOneLine(name) && ':' !in name
    && if field.Unknown? then Lower(u, name) !in {"user-agent", "allow", "disallow"} else Lower(u, name) == NameOf(field)
  }

  predicate IsPrinted(u: Unicode, p: Printed) {
    match p
    case Directive(before, name, beforeColon, afterColon, value, after, comment, field) =>
      && Blank(u, before) && IsName(u, name, field) && Blank(u, beforeColon) && ':' !in before && ':' !in beforeColon
      && Blank(u, afterColon) && OnOneLine(value) && Tight(u, value) && Blank(u, after) && IsComment(comment)
    case Silent(text, comment) => OnOneLine(text) && ':' !in text && IsComment(comment)
  }

  function Content(p: Printed): string {
    match p
    case Directive(before, name, beforeColon, afterColon, value, after, _, _) =>
      (before + name + beforeColon) + (":" + (afterColon + value + after))
    case Silent(text, _) => text
  }

  function Text(p: Printed): string { Content(p) + p.comment }

  /** What the line means. */
  function Meaning(u: Unicode, p: Printed): Line {
    match p
    case Directive(_, _, _, _, value, _, _, UserAgent) => Agent(Lower(u, value))
    case Directive(_, _, _, _, value, _, _, Allow) => Path(true, value)
    case Directive(_, _, _, _, value, _, _, Disallow) => Path(false, value)
    case Directive(_, _, _, _, _, _, _, Unknown) => Other
    case Silent(_, _) => Skipped
  }

  // ----- one line -----

  /** A line says what its content says without the comment. */
  lemma CommentIsCut(u: Unicode, content: string, comment: string)
    requires '#' !in content && IsComment(comment)
    ensures Classify(u, content + comment) == Says(u, Trim(u, content))
  {
    var raw := content + comment;
    if comment == "" {
      ConcatNothing(content);
      NoPlace(raw, '#');
    } else {
      HeadAndTail(comment);
      FirstPlace(raw, '#', content, comment[1..]);
    }
  }

  /** A directive's content without the white space around it. */
  lemma ContentTrims(u: Unicode, p: Printed)
    requires IsPrinted(u, p) && p.Directive? && !u.isSpace(':')
    ensures Trim(u, Content(p))
         == (p.name + p.beforeColon) + (":" + if p.value == "" then "" else p.afterColon + p.value)
  {
    var tight := (p.name + p.beforeColon) + (":" + if p.value == "" then "" else p.afterColon + p.value);
    var tail := if p.value == "" then p.afterColon + p.after else p.after;
    assert Content(p) == p.before + tight + tail;
    assert tight[0] == p.name[0];
    assert tight[|tight| - 1] == if p.value == "" then ':' else p.value[|p.value| - 1];
    TrimOfPadded(u, p.before, tight, tail);
  }

  lemma NameTrims(u: Unicode, p: Printed)
    requires IsPrinted(u, p) && p.Directive?
    ensures Trim(u, p.name + p.beforeColon) == p.name
  {
    ConcatNothing(p.name);
    TrimOfPadded(u, "", p.name, p.beforeColon);
  }

  lemma ValueTrims(u: Unicode, p: Printed)
    requires IsPrinted(u, p) && p.Directive?
    ensures Trim(u, if p.value == "" then "" else p.afterColon + p.value) == p.value
  {
    if p.value == "" {
      TrimOfPadded(u, "", "", "");
    } else {
      ConcatNothing(p.afterColon + p.value);
      TrimOfPadded(u, p.afterColon, p.value, "");
    }
  }

  lemma SaysField(u: Unicode, left: string, right: string)
    requires ':' !in left
    ensures Says(u, left + (":" + right)) == FieldSays(u, Lower(u, Trim(u, left)), Trim(u, right))
  {
    FirstPlace(left + (":" + right), ':', left, right);
  }

  lemma FieldMeans(u: Unicode, p: Printed)
    requires p.Directive? && IsName(u, p.name, p.field)
    ensures FieldSays(u, Lower(u, p.name), p.value) == Meaning(u, p)
  {
  }

  lemma DirectiveIsRead(u: Unicode, p: Printed)
    requires IsPrinted(u, p) && p.Directive? && !u.isSpace(':')
    ensures Says(u, Trim(u, Content(p))) == Meaning(u, p)
  {
    var value := if p.value == "" then "" else p.afterColon + p.value;
    ContentTrims(u, p);
    NoColon(p.name, p.beforeColon);
    SaysField(u, p.name + p.beforeColon, value);
    NameTrims(u, p);
    ValueTrims(u, p);
    FieldMeans(u, p);
  }

  lemma NoColon(a: string, b: string)
    ensures ':' in a + b <==> ':' in a || ':' in b
  {
  }

  lemma SilentIsRead(u: Unicode, text: string)
    requires ':' !in text
    ensures Says(u, Trim(u, text)) == Skipped
  {
    TrimIsTrimmed(u, text);
    NoPlace(Trim(u, text), ':');
  }

  /** Every printed line is read as what it means: Allow and Disallow are told apart, and agents lose their letter case. */
  lemma LineRoundTrip(u: Unicode, p: Printed)
    requires IsPrinted(u, p) && !u.isSpace(':')
    ensures Classify(u, Text(p)) == Meaning(u, p)
  {
    CommentIsCut(u, Content(p), p.comment);
    match p
    case Directive(_, _, _, _, _, _, _, _) => DirectiveIsRead(u, p);
    case Silent(text, _) => SilentIsRead(u, text);
  }

  // ----- a whole text -----

  function TextOf(lines: seq<Printed>): string
    requires lines != []
  {
    Join(seq(|lines|, i requires 0 <= i < |lines| => Text(lines[i])), '\n')
  }

  function Meanings(u: Unicode, lines: seq<Printed>): seq<Line> {
    seq(|lines|, i requires 0 <= i < |lines| => Meaning(u, lines[i]))
  }

  lemma TextIsOneLine(u: Unicode, p: Printed)
    requires IsPrinted(u, p)
    ensures '\n' !in Text(p)
  {
  }

  lemma LinesRoundTrip(u: Unicode, lines: seq<Printed>)
    requires lines != [] && !u.isSpace(':') && forall p <- lines :: IsPrinted(u, p)
    ensures Lines(u, TextOf(lines)) == Meanings(u, lines)
  {
    var raw := seq(|lines|, i requires 0 <= i < |lines| => Text(lines[i]));
    forall text <- raw ensures '\n' !in text {
      var i :| 0 <= i < |raw| && raw[i] == text;
      TextIsOneLine(u, lines[i]);
    }
    SplitOfJoin(raw, '\n');
    forall i | 0 <= i < |lines| ensures Classify(u, raw[i]) == Meaning(u, lines[i]) {
      LineRoundTrip(u, lines[i]);
    }
  }

  // ----- printed groups -----

  /** The agent lines of a group and the lines after them, with silent lines anywhere. */
  datatype PrintedGroup = PrintedGroup(agents: seq<Printed>, rest: seq<Printed>)

  predicate IsAgentPart(u: Unicode, lines: seq<Printed>) {
    (forall p <- lines :: IsPrinted(u, p) && (p.Directive? ==> p.field.UserAgent?)) && exists p <- lines :: p.Directive?
  }

  predicate IsOther(u: Unicode, lines: seq<Printed>) {
    forall p <- lines :: IsPrinted(u, p) && (p.Directive? ==> !p.field.UserAgent?)
  }

  predicate IsGroup(u: Unicode, g: PrintedGroup) {
    IsAgentPart(u, g.agents) && IsOther(u, g.rest) && exists p <- g.rest :: p.Directive?
  }

  function GroupLines(groups: seq<PrintedGroup>): seq<Printed> {
    if groups == [] then [] else groups[0].agents + groups[0].rest + GroupLines(groups[1..])
  }

  function AgentsSaid(u: Unicode, lines: seq<Printed>): seq<string> {
    if lines == [] then []
    else (if lines[0].Directive? then [Lower(u, lines[0].value)] else []) + AgentsSaid(u, lines[1..])
  }

  function BlockOf(u: Unicode, g: PrintedGroup): Block {
    Block(AgentsSaid(u, g.agents), Significant(Meanings(u, g.rest)))
  }

  function BlocksOf(u: Unicode, groups: seq<PrintedGroup>): seq<Block> {
    seq(|groups|, i requires 0 <= i < |groups| => BlockOf(u, groups[i]))
  }

  lemma MeaningsConcat(u: Unicode, a: seq<Printed>, b: seq<Printed>)
    ensures Significant(Meanings(u, a + b)) == Significant(Meanings(u, a)) + Significant(Meanings(u, b))
  {
    assert Meanings(u, a + b) == Meanings(u, a) + Meanings(u, b);
    SignificantConcat(Meanings(u, a), Meanings(u, b));
  }

  lemma {:induction false} AgentsAreLines(u: Unicode, lines: seq<Printed>)
    requires forall p <- lines :: IsPrinted(u, p) && (p.Directive? ==> p.field.UserAgent?)
    ensures Significant(Meanings(u, lines)) == AgentLines(AgentsSaid(u, lines))
  {
    if lines != [] {
      AgentsAreLines(u, lines[1..]);
      assert Meanings(u, lines)[1..] == Meanings(u, lines[1..]);
      assert lines[0] in lines;
      if lines[0].Directive? {
        AgentLinesCons(Lower(u, lines[0].value), AgentsSaid(u, lines[1..]));
      }
    }
  }

  lemma AgentLinesCons(a: string, agents: seq<string>)
    ensures AgentLines([a] + agents) == [Agent(a)] + AgentLines(agents)
  {
  }

  lemma {:induction false} AgentsAreSaid(u: Unicode, lines: seq<Printed>, a: string)
    ensures a in AgentsSaid(u, lines) <==> exists p <- lines :: p.Directive? && a == Lower(u, p.value)
  {
    if lines != [] {
      AgentsAreSaid(u, lines[1..], a);
      HeadAndTail(lines);
    }
  }

  lemma {:induction false} LinesAreSaid(u: Unicode, lines: seq<Line>, line: Line)
    ensures line in Significant(lines) <==> line in lines && line != Skipped
  {
    if lines != [] {
      LinesAreSaid(u, lines[1..], line);
      HeadAndTail(lines);
    }
  }

  /** The lines of a group that are not its agents'. */
  lemma OthersAreSaid(u: Unicode, lines: seq<Printed>)
    requires IsOther(u, lines)
    ensures forall line <- Significant(Meanings(u, lines)) :: line.Path? || line.Other?
    ensures (exists p <- lines :: p.Directive?) ==> Significant(Meanings(u, lines)) != []
  {
    forall line <- Significant(Meanings(u, lines)) ensures line.Path? || line.Other? {
      LinesAreSaid(u, Meanings(u, lines), line);
      var i :| 0 <= i < |lines| && Meaning(u, lines[i]) == line;
      assert lines[i] in lines;
    }
    if p :| p in lines && p.Directive? {
      var i :| 0 <= i < |lines| && lines[i] == p;
      assert Meanings(u, lines)[i] == Meaning(u, p);
      LinesAreSaid(u, Meanings(u, lines), Meaning(u, p));
    }
  }

  lemma SomeAgentIsSaid(u: Unicode, lines: seq<Printed>)
    requires IsAgentPart(u, lines)
    ensures AgentsSaid(u, lines) != []
  {
    var p :| p in lines && p.Directive?;
    AgentsAreSaid(u, lines, Lower(u, p.value));
  }

  lemma BlockIsOf(u: Unicode, g: PrintedGroup)
    requires IsGroup(u, g)
    ensures IsBlock(BlockOf(u, g))
    ensures Significant(Meanings(u, g.agents + g.rest)) == AgentLines(BlockOf(u, g).agents) + BlockOf(u, g).rest
  {
    AgentsAreLines(u, g.agents);
    SomeAgentIsSaid(u, g.agents);
    OthersAreSaid(u, g.rest);
    MeaningsConcat(u, g.agents, g.rest);
  }

  lemma BlockLinesCons(b: Block, blocks: seq<Block>)
    ensures BlockLines([b] + blocks) == AgentLines(b.agents) + b.rest + BlockLines(blocks)
  {
    PartsOfConcat([b], blocks);
  }

  lemma BlocksOfCons(u: Unicode, groups: seq<PrintedGroup>)
    requires groups != []
    ensures BlocksOf(u, groups) == [BlockOf(u, groups[0])] + BlocksOf(u, groups[1..])
  {
  }

  lemma {:induction false} GroupsAreBlocks(u: Unicode, groups: seq<PrintedGroup>)
    requires forall g <- groups :: IsGroup(u, g)
    ensures Significant(Meanings(u, GroupLines(groups))) == BlockLines(BlocksOf(u, groups))
  {
    if groups != [] {
      var g, rest := groups[0], groups[1..];
      GroupsAreBlocks(u, rest);
      BlockIsOf(u, g);
      MeaningsConcat(u, g.agents + g.rest, GroupLines(rest));
      BlocksOfCons(u, groups);
      BlockLinesCons(BlockOf(u, g), BlocksOf(u, rest));
    }
  }

  lemma AllAreBlocks(u: Unicode, groups: seq<PrintedGroup>)
    requires forall g <- groups :: IsGroup(u, g)
    ensures forall b <- BlocksOf(u, groups) :: IsBlock(b)
  {
    forall b <- BlocksOf(u, groups) ensures IsBlock(b) {
      var i :| 0 <= i < |groups| && BlockOf(u, groups[i]) == b;
      BlockIsOf(u, groups[i]);
    }
  }

  // ----- which rules govern -----

  /** The group has an agent line, other than for everybody, whose value occurs in the product's name. */
  ghost predicate Names(u: Unicode, g: PrintedGroup, product: string) {
    exists p <- g.agents :: p.Directive? && Lower(u, p.value) != "*" && Occurs(product, Lower(u, p.value))
  }

  ghost predicate NamesAll(u: Unicode, g: PrintedGroup) { exists p <- g.agents :: p.Directive? && Lower(u, p.value) == "*" }

  /** The group has an allow line, or a disallow line, for the path. */
  predicate SaysRule(g: PrintedGroup, r: Rule) {
    r.path != "" && exists p <- g.rest :: p.Directive? && p.value == r.path && p.field == if r.allow then Allow else Disallow
  }

  /** A group that names the product says the rule. */
  ghost predicate SaidFor(u: Unicode, groups: seq<PrintedGroup>, product: string, r: Rule) {
    exists g <- groups :: Names(u, g, product) && SaysRule(g, r)
  }

  /** A group for everybody, which does not name the product too, says the rule. */
  ghost predicate SaidForAll(u: Unicode, groups: seq<PrintedGroup>, product: string, r: Rule) {
    exists g <- groups :: NamesAll(u, g) && !Names(u, g, product) && SaysRule(g, r)
  }

  /** A rule governs when a group that names the product says it, or one for everybody if none of those says any. */
  ghost predicate Governs(u: Unicode, groups: seq<PrintedGroup>, product: string, r: Rule) {
    if exists other: Rule :: SaidFor(u, groups, product, other) then SaidFor(u, groups, product, r)
    else SaidForAll(u, groups, product, r)
  }

  lemma {:induction false} RulesInIff(lines: seq<Line>, r: Rule)
    ensures r in RulesIn(lines) <==> r.path != "" && Path(r.allow, r.path) in lines
  {
    if lines != [] {
      RulesInIff(lines[1..], r);
      HeadAndTail(lines);
    }
  }

  lemma SpecificIff(g: Group, product: string)
    ensures IsSpecific(g, product) <==> exists a <- g.agents :: a != "*" && Occurs(product, a)
  {
    if IsSpecific(g, product) {
      var i :| 0 <= i < |g.agents| && g.agents[i] != "*" && Contains(product, g.agents[i]);
      ContainsIff(product, g.agents[i]);
      assert g.agents[i] in g.agents;
    }
    if a :| a in g.agents && a != "*" && Occurs(product, a) {
      ContainsIff(product, a);
      var i :| 0 <= i < |g.agents| && g.agents[i] == a;
    }
  }

  /** What a printed group becomes. */
  lemma AgentsAreRead(u: Unicode, g: PrintedGroup, product: string)
    requires IsGroup(u, g)
    ensures IsSpecific(GroupOf(BlockOf(u, g)), product) <==> Names(u, g, product)
    ensures IsWild(GroupOf(BlockOf(u, g))) <==> NamesAll(u, g)
  {
    forall a ensures a in AgentsSaid(u, g.agents) <==> exists p <- g.agents :: p.Directive? && a == Lower(u, p.value) {
      AgentsAreSaid(u, g.agents, a);
    }
    SpecificIff(GroupOf(BlockOf(u, g)), product);
  }

  lemma RulesAreRead(u: Unicode, g: PrintedGroup, r: Rule)
    requires IsGroup(u, g)
    ensures r in GroupOf(BlockOf(u, g)).rules <==> SaysRule(g, r)
  {
    RulesInIff(BlockOf(u, g).rest, r);
    LinesAreSaid(u, Meanings(u, g.rest), Path(r.allow, r.path));
    PathMeant(u, g.rest, r);
  }

  lemma PathMeant(u: Unicode, lines: seq<Printed>, r: Rule)
    ensures Path(r.allow, r.path) in Meanings(u, lines) <==>
            exists p <- lines :: p.Directive? && p.value == r.path && p.field == if r.allow then Allow else Disallow
  {
    if Path(r.allow, r.path) in Meanings(u, lines) {
      var i :| 0 <= i < |lines| && Meaning(u, lines[i]) == Path(r.allow, r.path);
      assert lines[i] in lines;
    }
    if p :| p in lines && p.Directive? && p.value == r.path && p.field == if r.allow then Allow else Disallow {
      var i :| 0 <= i < |lines| && lines[i] == p;
      assert Meanings(u, lines)[i] == Path(r.allow, r.path);
    }
  }

  lemma {:induction false} GoverningIff(groups: seq<Group>, product: string, r: Rule)
    ensures r in Governing(groups, product) <==>
            if exists q :: SpecificRule(groups, product, q) then SpecificRule(groups, product, r)
            else WildRule(groups, product, r)
  {
    var specific := SpecificRules(groups, product);
    RulesOfGroups(groups, product, r);
    if specific != [] {
      RulesOfGroups(groups, product, specific[0]);
      assert specific[0] in specific;
    }
    forall q ensures q in specific <==> SpecificRule(groups, product, q) {
      RulesOfGroups(groups, product, q);
    }
  }

  /**
   The rules read from printed groups, after lines that belong to none, are those that govern: said by a group that
   names the product, or else by one for everybody; each as the Allow or the Disallow it was printed as.
   */
  lemma RobotsRoundTrip(u: Unicode, preamble: seq<Printed>, groups: seq<PrintedGroup>, product: string, r: Rule)
    requires !u.isSpace(':') && preamble + GroupLines(groups) != []
    requires IsOther(u, preamble) && forall g <- groups :: IsGroup(u, g)
    ensures r in Governing(ReadFrom(START, Lines(u, TextOf(preamble + GroupLines(groups)))).groups, product)
       <==> Governs(u, groups, product, r)
  {
    var lines := preamble + GroupLines(groups);
    PrintedGroupsAreLines(u, groups);
    LinesRoundTrip(u, lines);
    MeaningsConcat(u, preamble, GroupLines(groups));
    GroupsAreBlocks(u, groups);
    AllAreBlocks(u, groups);
    OthersAreSaid(u, preamble);
    TextGroups(u, TextOf(lines), Significant(Meanings(u, preamble)), BlocksOf(u, groups));
    GovernsIff(u, groups, product, r);
  }

  lemma {:induction false} PrintedGroupsAreLines(u: Unicode, groups: seq<PrintedGroup>)
    requires forall g <- groups :: IsGroup(u, g)
    ensures forall p <- GroupLines(groups) :: IsPrinted(u, p)
  {
    if groups != [] {
      assert groups[0] in groups;
      PrintedGroupsAreLines(u, groups[1..]);
    }
  }

  /** The groups read from printed groups say the same rules. */
  lemma GovernsIff(u: Unicode, groups: seq<PrintedGroup>, product: string, r: Rule)
    requires forall g <- groups :: IsGroup(u, g)
    ensures r in Governing(GroupsOf(BlocksOf(u, groups)), product) <==> Governs(u, groups, product, r)
  {
    var read := GroupsOf(BlocksOf(u, groups));
    GoverningIff(read, product, r);
    RulesAreSaid(u, groups, product, r);
    forall q: Rule ensures SpecificRule(read, product, q) <==> SaidFor(u, groups, product, q) {
      RulesAreSaid(u, groups, product, q);
    }
  }

  lemma RulesAreSaid(u: Unicode, groups: seq<PrintedGroup>, product: string, q: Rule)
    requires forall g <- groups :: IsGroup(u, g)
    ensures var read := GroupsOf(BlocksOf(u, groups));
            && (SpecificRule(read, product, q) <==> SaidFor(u, groups, product, q))
            && (WildRule(read, product, q) <==> SaidForAll(u, groups, product, q))
  {
    var read := GroupsOf(BlocksOf(u, groups));
    forall i | 0 <= i < |groups|
      ensures read[i] == GroupOf(BlockOf(u, groups[i]))
      ensures IsSpecific(read[i], product) <==> Names(u, groups[i], product)
      ensures IsWild(read[i]) <==> NamesAll(u, groups[i])
      ensures q in read[i].rules <==> SaysRule(groups[i], q)
    {
      AgentsAreRead(u, groups[i], product);
      RulesAreRead(u, groups[i], q);
    }
    forall g <- groups ensures exists i :: 0 <= i < |read| && groups[i] == g && read[i] in read {
      var i :| 0 <= i < |groups| && groups[i] == g;
      assert read[i] in read;
    }
    forall g <- read ensures exists i :: 0 <= i < |groups| && read[i] == g && groups[i] in groups {
      var i :| 0 <= i < |read| && read[i] == g;
      assert groups[i] in groups;
    }
  }
}
