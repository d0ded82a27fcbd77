/**
 The citation oracle `checkCitation`: does a claimed quote appear in the cited text? The verdict is
 tied to a statement about the original text that mentions neither the offset map nor the search.
 */
module Citation {
  import opened Options
  import opened Sequences
  import opened Normalize
  import opened Lcs
  import opened Strings

  const QUOTE_CAP := 1000
  const BODY_CAP := 400000
  const EXCERPT := 160

  datatype Section = Section(ref: string, heading: string, charStart: int, charEnd: int)

  /** A stretch [start, end) of the body that is checked, with the section address it stands for. */
  datatype Scope = Scope(ref: string, start: int, end: int)

  datatype Location = Location(sectionRef: string, charStart: int, charEnd: int)

  datatype Verdict = Verdict(
    verified: bool,
    foundAt: Option<Location>,
    nearestSectionRef: string,
    nearestExcerpt: string,
    overlapChars: int)

  const UNVERIFIED := Verdict(false, None, "", "", 0)

  // ----- normalization -----

  function Rebase(offs: seq<nat>, base: int): seq<int> {
    seq(|offs|, j requires 0 <= j < |offs| => base + offs[j])
  }

  /** The output of the loop for the offsets kept so far. */
  predicate Built(u: Unicode, s: string, kept: seq<nat>, base: int, norm: string, offs: seq<int>) {
    && (forall j :: 0 <= j < |kept| ==> kept[j] < |s|)
    && norm == Glyphs(u, s, kept) && offs == Rebase(kept, base)
  }

  lemma EmitOne(u: Unicode, s: string, kept: seq<nat>, base: int, norm: string, offs: seq<int>, k: nat, c: char)
    requires k < |s| && c == Glyph(u, s[k]) && Built(u, s, kept, base, norm, offs)
    ensures Built(u, s, kept + [k], base, norm + [c], offs + [base + k])
  {
  }

  /** The normal form of `runes` and, for each of its runes, the original offset it came from. */
  method NormalizeCitationText(u: Unicode, runes: string, baseOffset: int) returns (norm: string, offs: seq<int>)
    ensures norm == Norm(u, runes)
    ensures offs == Rebase(Offsets(u, runes, |runes|), baseOffset)
  {
    norm, offs := "", [];
    var inSpace, spaceStart := false, -1;
    ghost var kept: seq<nat>, run: nat := [], 0;
    for i := 0 to |runes|
      invariant kept == Offsets(u, runes[..i], i)
      invariant Built(u, runes, kept, baseOffset, norm, offs)
      invariant run == if inSpace then spaceStart else i
      invariant SpaceRun(u, runes, run, i) && (inSpace ==> run < i)
    {
      RunContinues(u, runes, run, i, i + 1);
      var r := Ascii(runes[i]);
      if u.isSpace(r) {
        SpaceEmitsNothing(u, runes, i);
        if !inSpace {
          inSpace := true;
          spaceStart := i;
        }
      } else {
        RuneEmits(u, runes, i, run);
        if inSpace {
          NothingEmittedYet(u, runes, i, run);
          if |norm| > 0 {
            EmitOne(u, runes, kept, baseOffset, norm, offs, spaceStart, ' ');
            norm := norm + [' '];
            offs := offs + [baseOffset + spaceStart];
            kept := kept + [spaceStart];
          }
          inSpace := false;
        }
        EmitOne(u, runes, kept, baseOffset, norm, offs, i, u.toLower(r));
        norm := norm + [u.toLower(r)];
        offs := offs + [baseOffset + i];
        kept := kept + [i];
        run := i + 1;
      }
    }
    WholeSlice(runes, |runes|);
  }

  // ----- the declarative statement -----

  /** The text of [a, b) normalizes to `text`. */
  ghost predicate SpanReads(u: Unicode, body: string, a: int, b: int, text: string) {
    0 <= a <= b <= |body| && Norm(u, body[a..b]) == text
  }

  /** The span that the i-th to the j-th rune of the normal form came from reads as the text. */
  ghost predicate StretchReads(u: Unicode, s: string, i: int, j: int, text: string) {
    var offs := Offsets(u, s, |s|);
    0 <= i <= j < |offs| && SpanReads(u, s, offs[i], offs[j] + 1, text)
  }

  ghost predicate IsSpanOf(u: Unicode, body: string, sc: Scope, a: int, b: int, text: string) {
    sc.start <= a && b <= sc.end && SpanReads(u, body, a, b, text)
  }

  ghost predicate ScopeReads(u: Unicode, body: string, sc: Scope, text: string) {
    exists a, b :: IsSpanOf(u, body, sc, a, b, text)
  }

  /** The part of the quote that is matched. */
  ghost function Needle(u: Unicode, quote: string): string {
    var q := Norm(u, quote);
    if |q| > QUOTE_CAP then q[..QUOTE_CAP] else q
  }

  /** What is matched is the quote's normal form, or its first thousand runes. */
  lemma NeedleIsFirstThousand(u: Unicode, quote: string)
    ensures Needle(u, quote) <= Norm(u, quote)
    ensures |Needle(u, quote)| == if |Norm(u, quote)| < 1000 then |Norm(u, quote)| else 1000
  {
  }

  ghost predicate EndsInWord(text: string) { text != "" && text[|text| - 1] != ' ' }

  /** Only a quote beyond the cap can be cut after a space. */
  lemma NeedleEndsInWord(u: Unicode, quote: string)
    requires WellBehaved(u) && 0 < |Norm(u, quote)| <= 1000
    ensures Needle(u, quote) == Norm(u, quote) && EndsInWord(Needle(u, quote))
  {
    var q := Norm(u, quote);
    NormEndsAreKept(u, quote);
    NormSpaces(u, quote, |q| - 1);
  }

  lemma NeedleStartsWithWord(u: Unicode, quote: string)
    requires WellBehaved(u) && Norm(u, quote) != ""
    ensures Needle(u, quote) != "" && Needle(u, quote)[0] != ' '
  {
    NormEndsAreKept(u, quote);
    NormSpaces(u, quote, 0);
  }

  /** What an exact search of the normalized scope finds, said about the original text. */
  lemma FoundSpanReads(u: Unicode, s: string, text: string, idx: nat)
    requires WellBehaved(u) && EndsInWord(text) && text[0] != ' '
    requires At(Norm(u, s), text, idx)
    ensures StretchReads(u, s, idx, idx + |text| - 1, text)
  {
    var y := idx + |text|;
    assert Norm(u, s)[idx..y][0] == Norm(u, s)[idx] && Norm(u, s)[idx..y][|text| - 1] == Norm(u, s)[y - 1];
    NormSpaces(u, s, idx);
    NormSpaces(u, s, y - 1);
    PieceIsSpan(u, s, idx, y);
  }

  /** A text occurs in a normalized stretch exactly when some span of the stretch reads as it. */
  lemma OccursIffSpanReads(u: Unicode, s: string, text: string)
    requires WellBehaved(u) && EndsInWord(text) && text[0] != ' '
    ensures Occurs(Norm(u, s), text) <==> exists a, b :: SpanReads(u, s, a, b, text)
  {
    if Occurs(Norm(u, s), text) {
      var idx :| At(Norm(u, s), text, idx);
      FoundSpanReads(u, s, text, idx);
      var offs := Offsets(u, s, |s|);
      assert SpanReads(u, s, offs[idx], offs[idx + |text| - 1] + 1, text);
    }
    if a, b :| SpanReads(u, s, a, b, text) {
      var x := SubSpanIsPiece(u, s, a, b);
      assert At(Norm(u, s), text, x);
    }
  }

  /** A span of a stretch of the body reads as the same span counted from the body's start. */
  lemma SpanOfStretch(u: Unicode, body: string, start: nat, end: nat, a: int, b: int, text: string)
    requires start <= end <= |body| && 0 <= a <= b <= end - start
    ensures SpanReads(u, body[start..end], a, b, text) <==> SpanReads(u, body, start + a, start + b, text)
  {
    SliceOfSlice(body, start, end, a, b);
  }

  /** The same for a scope of a body. */
  lemma OccursIffScopeReads(u: Unicode, body: string, sc: Scope, text: string)
    requires WellBehaved(u) && EndsInWord(text) && text[0] != ' '
    requires 0 <= sc.start <= sc.end <= |body|
    ensures Occurs(Norm(u, body[sc.start..sc.end]), text) <==> ScopeReads(u, body, sc, text)
  {
    var s := body[sc.start..sc.end];
    OccursIffSpanReads(u, s, text);
    if Occurs(Norm(u, s), text) {
      var a, b :| SpanReads(u, s, a, b, text);
      SpanIsOfScope(u, body, sc, a, b, sc.start + a, sc.start + b, text);
    }
    if ScopeReads(u, body, sc, text) {
      var a, b :| IsSpanOf(u, body, sc, a, b, text);
      SpanIsOfScope(u, body, sc, a - sc.start, b - sc.start, a, b, text);
    }
  }

  lemma SpanIsOfScope(u: Unicode, body: string, sc: Scope, a: int, b: int, a': int, b': int, text: string)
    requires 0 <= sc.start <= sc.end <= |body| && a' == sc.start + a && b' == sc.start + b
    ensures SpanReads(u, body[sc.start..sc.end], a, b, text) <==> IsSpanOf(u, body, sc, a', b', text)
  {
    if 0 <= a <= b <= sc.end - sc.start {
      SpanOfStretch(u, body, sc.start, sc.end, a, b, text);
    }
  }

  // ----- quotes cut after a space -----

  /** The needle without the space it may have been cut after. */
  ghost function Shown(needle: string): string {
    if needle != "" && !EndsInWord(needle) then needle[..|needle| - 1] else needle
  }

  /** A needle is a text that starts and ends in a word, or such a text and one space. */
  ghost predicate IsNeedle(needle: string, shown: string) {
    EndsInWord(shown) && shown[0] != ' ' && (needle == shown || needle == shown + " ")
  }

  lemma NeedleShape(u: Unicode, quote: string)
    requires WellBehaved(u) && Needle(u, quote) != ""
    ensures IsNeedle(Needle(u, quote), Shown(Needle(u, quote)))
  {
    var needle := Needle(u, quote);
    NeedleStartsWithWord(u, quote);
    if !EndsInWord(needle) {
      NormSpaceIsBetweenWords(u, quote, |needle| - 1);
    }
  }

  lemma AtExtends(hay: string, text: string, idx: nat, c: char)
    ensures At(hay, text + [c], idx) <==>
            At(hay, text, idx) && idx + |text| < |hay| && hay[idx + |text|] == c
  {
    var n := |text|;
    if idx + n < |hay| {
      assert hay[idx..idx + n + 1] == hay[idx..idx + n] + [hay[idx + n]];
      if At(hay, text + [c], idx) {
        assert hay[idx..idx + n] == (text + [c])[..n] == text;
        assert hay[idx + n] == (text + [c])[n];
      }
    }
  }

  /** Where a cut quote occurs, the space it was cut after stands between two words. */
  lemma CutQuoteFollowed(u: Unicode, s: string, shown: string, idx: nat)
    requires WellBehaved(u) && At(Norm(u, s), shown + " ", idx)
    ensures At(Norm(u, s), shown, idx)
    ensures idx + |shown| + 1 < |Norm(u, s)| && Norm(u, s)[idx + |shown|] == ' '
    ensures Norm(u, s)[idx + |shown| + 1] != ' '
  {
    AtExtends(Norm(u, s), shown, idx, ' ');
    assert [' '] == " ";
    NormSpaceIsBetweenWords(u, s, idx + |shown|);
  }

  /** The span reads as the text and one more word rune. */
  ghost predicate SpanContinues(u: Unicode, body: string, a: int, b: int, c: char, text: string) {
    c != ' ' && SpanReads(u, body, a, b, text + [c])
  }

  ghost predicate ScopeContinues(u: Unicode, body: string, sc: Scope, text: string) {
    exists a, b, c :: sc.start <= a && b <= sc.end && SpanContinues(u, body, a, b, c, text)
  }

  /** A cut quote is found exactly when some span of the scope reads as it and one word rune more. */
  lemma CutQuoteOccursIff(u: Unicode, body: string, sc: Scope, shown: string)
    requires WellBehaved(u) && IsNeedle(shown + " ", shown) && 0 <= sc.start <= sc.end <= |body|
    ensures Occurs(Norm(u, body[sc.start..sc.end]), shown + " ") <==> ScopeContinues(u, body, sc, shown + " ")
  {
    var s, text := body[sc.start..sc.end], shown + " ";
    if Occurs(Norm(u, s), text) {
      var idx :| At(Norm(u, s), text, idx);
      CutQuoteFollowed(u, s, shown, idx);
      var c := Norm(u, s)[idx + |text|];
      AtExtends(Norm(u, s), text, idx, c);
      OccursIffScopeReads(u, body, sc, text + [c]);
      var a, b :| IsSpanOf(u, body, sc, a, b, text + [c]);
      assert SpanContinues(u, body, a, b, c, text);
    }
    if ScopeContinues(u, body, sc, text) {
      var a, b, c :| sc.start <= a && b <= sc.end && SpanContinues(u, body, a, b, c, text);
      assert IsSpanOf(u, body, sc, a, b, text + [c]);
      OccursIffScopeReads(u, body, sc, text + [c]);
      var idx :| At(Norm(u, s), text + [c], idx);
      AtExtends(Norm(u, s), text, idx, c);
    }
  }

  lemma TrailingSpaceIgnored(u: Unicode, s: string, a: nat, b: nat)
    requires a <= b < |s| && Space(u, s[b])
    ensures Norm(u, s[a..b + 1]) == Norm(u, s[a..b])
  {
    var t := s[a..b + 1];
    assert t[..|t|] == t && t[..|t| - 1] == s[a..b];
    SpaceEmitsNothing(u, t, |t| - 1);
    OffsetsInRange(u, t, |t|);
  }

  /** The space after a word of the normalized text comes from the rune just after the word. */
  lemma SpaceOffset(u: Unicode, s: string, j: nat)
    requires WellBehaved(u) && j < |Norm(u, s)| && Norm(u, s)[j] == ' '
    ensures var offs := Offsets(u, s, |s|);
            0 < j < |offs| && offs[j - 1] + 1 == offs[j] < |s| && Space(u, s[offs[j]])
  {
    OffsetAt(u, s, j);
    NormSpaces(u, s, j);
    SeparatorNeighbours(u, s, j);
  }

  /** The span reported for a cut quote, which ends with the space it was cut after, reads as the rest. */
  lemma CutSpanReads(u: Unicode, s: string, shown: string, idx: nat, j: nat)
    requires WellBehaved(u) && EndsInWord(shown) && shown[0] != ' ' && j == idx + |shown|
    requires At(Norm(u, s), shown, idx) && j < |Norm(u, s)| && Norm(u, s)[j] == ' '
    ensures StretchReads(u, s, idx, j, shown)
  {
    FoundSpanReads(u, s, shown, idx);
    SpaceOffset(u, s, j);
    var a, b := Offsets(u, s, |s|)[idx], Offsets(u, s, |s|)[j];
    TrailingSpaceIgnored(u, s, a, b);
  }

  /** What the span reported for an occurrence reads as. */
  lemma FoundReads(u: Unicode, s: string, needle: string, shown: string, idx: nat)
    requires WellBehaved(u) && IsNeedle(needle, shown) && At(Norm(u, s), needle, idx)
    ensures StretchReads(u, s, idx, idx + |needle| - 1, shown)
  {
    if needle == shown {
      FoundSpanReads(u, s, shown, idx);
    } else {
      CutQuoteFollowed(u, s, shown, idx);
      CutSpanReads(u, s, shown, idx, idx + |shown|);
    }
  }

  // ----- scopes -----

  function Clamp(v: int, length: nat): int {
    if v < 0 then 0 else if v > length then length else v
  }

  function ScopeOf(s: Section, length: nat): Scope {
    Scope(s.ref, Clamp(s.charStart, length), Clamp(s.charEnd, length))
  }

  function WithRef(sections: seq<Section>, ref: string): seq<Section> {
    if sections == [] then [] else if sections[0].ref == ref then [sections[0]] else WithRef(sections[1..], ref)
  }

  function WithHeading(u: Unicode, sections: seq<Section>, want: string): seq<Section> {
    if sections == [] then []
    else
      var rest := WithHeading(u, sections[1..], want);
      var h := sections[0].heading;
      if h != "" && Contains(Lower(u, h), want) then [sections[0]] + rest else rest
  }

  /** The scopes to check, in priority order: the named section, every section under a matching heading, or the whole. */
  function Scopes(u: Unicode, sectionRef: string, heading: string, length: nat, sections: seq<Section>): (scopes: seq<Scope>)
    ensures scopes != []
    ensures sectionRef == "" && heading == "" ==> scopes == [Scope("", 0, length)]
    ensures forall sc <- scopes :: 0 <= sc.start <= length && 0 <= sc.end <= length
  {
    var matched :=
      if sectionRef != "" then WithRef(sections, sectionRef)
      else if heading != "" then WithHeading(u, sections, Lower(u, Trim(u, heading)))
      else [];
    ScopesOf(matched, length)
  }

  /** What the sections cover, or the whole when there are none. */
  function ScopesOf(matched: seq<Section>, length: nat): seq<Scope> {
    if matched == [] then [Scope("", 0, length)]
    else seq(|matched|, i requires 0 <= i < |matched| => ScopeOf(matched[i], length))
  }

  // ----- which scopes were asked for -----

  /** The offset moved into the document, if it lies outside. */
  predicate IsClamped(v: int, length: nat, x: int) {
    if v < 0 then x == 0 else if v <= length then x == v else x == length
  }

  /** The scope is what the section covers of the document. */
  predicate IsScopeOf(s: Section, length: nat, sc: Scope) {
    sc.ref == s.ref && IsClamped(s.charStart, length, sc.start) && IsClamped(s.charEnd, length, sc.end)
  }

  predicate SameLettersAt(u: Unicode, heading: string, text: string, k: int) {
    && 0 <= k && k + |text| <= |heading|
    && forall j :: 0 <= j < |text| ==> u.toLower(heading[k + j]) == u.toLower(text[j])
  }

  /** The heading contains the text, whatever the case of either. */
  ghost predicate IsUnder(u: Unicode, heading: string, text: string) {
    heading != "" && exists k :: SameLettersAt(u, heading, text, k)
  }

  /** The positions are, in order, those of the sections under the heading. */
  ghost predicate ArePositions(u: Unicode, sections: seq<Section>, text: string, positions: seq<nat>) {
    && (forall i, j :: 0 <= i < j < |positions| ==> positions[i] < positions[j])
    && forall i: nat :: i in positions <==> i < |sections| && IsUnder(u, sections[i].heading, text)
  }

  /** The scope of each section at the positions. */
  predicate AreScopesOf(sections: seq<Section>, length: nat, positions: seq<nat>, scopes: seq<Scope>) {
    && |scopes| == |positions|
    && forall k :: 0 <= k < |scopes| ==> positions[k] < |sections| && IsScopeOf(sections[positions[k]], length, scopes[k])
  }

  predicate IsFirst(sections: seq<Section>, ref: string, i: int) {
    && 0 <= i < |sections| && sections[i].ref == ref
    && forall j :: 0 <= j < i ==> sections[j].ref != ref
  }

  lemma {:induction false} WithRefIsFirst(sections: seq<Section>, ref: string)
    ensures if WithRef(sections, ref) == [] then forall s <- sections :: s.ref != ref
            else exists i :: IsFirst(sections, ref, i) && WithRef(sections, ref) == [sections[i]]
  {
    if sections != [] {
      if sections[0].ref == ref {
        assert IsFirst(sections, ref, 0);
      } else {
        var rest := sections[1..];
        WithRefIsFirst(rest, ref);
        if WithRef(rest, ref) != [] {
          var i :| IsFirst(rest, ref, i) && WithRef(rest, ref) == [rest[i]];
          assert IsFirst(sections, ref, i + 1);
        }
      }
    }
  }

  lemma LowerAtIff(u: Unicode, heading: string, text: string, k: int)
    ensures At(Lower(u, heading), Lower(u, text), k) <==> SameLettersAt(u, heading, text, k)
  {
    var hay, needle := Lower(u, heading), Lower(u, text);
    if 0 <= k && k + |text| <= |heading| {
      forall j | 0 <= j < |text| ensures hay[k..k + |text|][j] == u.toLower(heading[k + j]) && needle[j] == u.toLower(text[j]) {
      }
    }
  }

  lemma LowerOccursIff(u: Unicode, heading: string, text: string)
    ensures heading != "" && Contains(Lower(u, heading), Lower(u, text)) <==> IsUnder(u, heading, text)
  {
    var hay, needle := Lower(u, heading), Lower(u, text);
    if IsUnder(u, heading, text) {
      var k :| SameLettersAt(u, heading, text, k);
      LowerAtIff(u, heading, text, k);
      IndexIsLeast(hay, needle, 0, k);
    }
    if heading != "" && Contains(hay, needle) {
      IndexIsAt(hay, needle, 0);
      LowerAtIff(u, heading, text, IndexFrom(hay, needle, 0));
    }
  }

  lemma {:induction false} WithHeadingIs(u: Unicode, sections: seq<Section>, text: string) returns (positions: seq<nat>)
    ensures ArePositions(u, sections, text, positions)
    ensures AreAt(sections, positions, WithHeading(u, sections, Lower(u, text)))
  {
    positions := [];
    if sections != [] {
      var rest := WithHeadingIs(u, sections[1..], text);
      HeadingUnfolds(u, sections, text);
      positions := Grown(IsUnder(u, sections[0].heading, text), rest);
      PositionsGrow(u, sections, text, rest, positions);
      GrownAreAt(sections, IsUnder(u, sections[0].heading, text), rest, WithHeading(u, sections[1..], Lower(u, text)));
    }
  }

  lemma HeadingUnfolds(u: Unicode, sections: seq<Section>, text: string)
    requires sections != []
    ensures WithHeading(u, sections, Lower(u, text))
         == (if IsUnder(u, sections[0].heading, text) then [sections[0]] else [])
            + WithHeading(u, sections[1..], Lower(u, text))
  {
    LowerOccursIff(u, sections[0].heading, text);
    ConcatNothing(WithHeading(u, sections[1..], Lower(u, text)));
  }

  predicate AreAt(sections: seq<Section>, positions: seq<nat>, matched: seq<Section>) {
    |matched| == |positions|
    && forall k :: 0 <= k < |matched| ==> positions[k] < |sections| && matched[k] == sections[positions[k]]
  }

  /** The positions in a list that is one longer in front. */
  function Grown(first: bool, rest: seq<nat>): seq<nat> {
    (if first then [0] else []) + seq(|rest|, k requires 0 <= k < |rest| => rest[k] + 1)
  }

  lemma GrownAreAt(sections: seq<Section>, first: bool, rest: seq<nat>, matched: seq<Section>)
    requires sections != [] && AreAt(sections[1..], rest, matched)
    ensures AreAt(sections, Grown(first, rest), (if first then [sections[0]] else []) + matched)
  {
  }

  /** The positions of a list with one more section in front. */
  lemma PositionsGrow(u: Unicode, sections: seq<Section>, text: string, rest: seq<nat>, positions: seq<nat>)
    requires sections != [] && ArePositions(u, sections[1..], text, rest)
    requires positions == Grown(IsUnder(u, sections[0].heading, text), rest)
    ensures ArePositions(u, sections, text, positions)
  {
    var shifted := seq(|rest|, k requires 0 <= k < |rest| => rest[k] + 1);
    forall i: nat ensures i in shifted <==> i > 0 && i - 1 in rest {
      if i > 0 && i - 1 in rest {
        var k :| 0 <= k < |rest| && rest[k] == i - 1;
        assert shifted[k] == i;
      }
    }
  }

  /** The scopes that a citation asks for, by a section's address or by the text of a heading. */
  ghost predicate AreAskedFor(u: Unicode, sectionRef: string, text: Option<string>, length: nat, sections: seq<Section>,
                              scopes: seq<Scope>)
  {
    if sectionRef != "" && exists i :: IsFirst(sections, sectionRef, i) then
      exists i :: IsFirst(sections, sectionRef, i) && |scopes| == 1 && IsScopeOf(sections[i], length, scopes[0])
    else if sectionRef == "" && text.Some? && exists s <- sections :: IsUnder(u, s.heading, text.value) then
      exists positions :: ArePositions(u, sections, text.value, positions)
                          && AreScopesOf(sections, length, positions, scopes)
    else scopes == [Scope("", 0, length)]
  }

  lemma ScopesOfAre(sections: seq<Section>, positions: seq<nat>, matched: seq<Section>, length: nat)
    requires AreAt(sections, positions, matched) && matched != []
    ensures AreScopesOf(sections, length, positions, ScopesOf(matched, length))
  {
  }

  lemma RefIsAskedFor(u: Unicode, sectionRef: string, text: Option<string>, length: nat, sections: seq<Section>)
    requires sectionRef != ""
    ensures AreAskedFor(u, sectionRef, text, length, sections, ScopesOf(WithRef(sections, sectionRef), length))
  {
    WithRefIsFirst(sections, sectionRef);
  }

  lemma HeadingIsAskedFor(u: Unicode, text: string, length: nat, sections: seq<Section>)
    ensures AreAskedFor(u, "", Some(text), length, sections, ScopesOf(WithHeading(u, sections, Lower(u, text)), length))
  {
    var positions := WithHeadingIs(u, sections, text);
    SomeIsUnderIff(u, sections, text, positions);
    if positions != [] {
      ScopesOfAre(sections, positions, WithHeading(u, sections, Lower(u, text)), length);
    }
  }

  lemma SomeIsUnderIff(u: Unicode, sections: seq<Section>, text: string, positions: seq<nat>)
    requires ArePositions(u, sections, text, positions)
    ensures positions != [] <==> exists s <- sections :: IsUnder(u, s.heading, text)
  {
    if positions != [] {
      assert positions[0] in positions;
    }
    if s :| s in sections && IsUnder(u, s.heading, text) {
      var i :| 0 <= i < |sections| && sections[i] == s;
      assert i in positions;
    }
  }

  /**
   What a citation asks for is what is checked: of a section address, the first section that has it; of a heading,
   in order all sections whose heading contains it; and the whole document if and only if there is no such section.
   */
  lemma ScopesAreAskedFor(u: Unicode, sectionRef: string, heading: string, text: string, length: nat, sections: seq<Section>)
    requires IsTrimmed(u, heading, text)
    ensures AreAskedFor(u, sectionRef, if heading == "" then None else Some(text), length, sections,
                        Scopes(u, sectionRef, heading, length, sections))
  {
    if sectionRef != "" {
      RefIsAskedFor(u, sectionRef, if heading == "" then None else Some(text), length, sections);
    } else if heading != "" {
      TrimIsTrimmed(u, heading);
      TrimmedIsUnique(u, heading, text, Trim(u, heading));
      HeadingIsAskedFor(u, text, length, sections);
    }
  }

  // ----- section addresses and excerpts -----

  predicate Covers(s: Section, off: int) { s.charStart <= off < s.charEnd }

  /** The address of the first section that covers the offset. */
  function SectionAt(sections: seq<Section>, off: int, fallback: string): string {
    if sections == [] then fallback
    else if Covers(sections[0], off) then sections[0].ref
    else SectionAt(sections[1..], off, fallback)
  }

  method SectionRefForOffset(sections: seq<Section>, off: int, fallback: string) returns (ref: string)
    ensures ref == SectionAt(sections, off, fallback)
  {
    for i := 0 to |sections|
      invariant SectionAt(sections, off, fallback) == SectionAt(sections[i..], off, fallback)
    {
      if Covers(sections[i], off) {
        return sections[i].ref;
      }
      SuffixShrinks(sections, i, i + 1);
    }
    ref := fallback;
  }

  /** The address of an offset is that of the first section that covers it, or the fallback if and only if none does. */
  lemma {:induction false} SectionAtIsFirst(sections: seq<Section>, off: int, fallback: string)
    ensures (forall s <- sections :: !Covers(s, off)) ==> SectionAt(sections, off, fallback) == fallback
    ensures forall i :: 0 <= i < |sections| && sections[i].charStart <= off < sections[i].charEnd
                        && (forall j :: 0 <= j < i ==> !Covers(sections[j], off))
                        ==> SectionAt(sections, off, fallback) == sections[i].ref
  {
    if sections != [] {
      SectionAtIsFirst(sections[1..], off, fallback);
      forall i | 0 <= i < |sections| && Covers(sections[i], off) && forall j :: 0 <= j < i ==> !Covers(sections[j], off)
        ensures SectionAt(sections, off, fallback) == sections[i].ref
      {
        if i > 0 {
          assert sections[1..][i - 1] == sections[i] && !Covers(sections[0], off);
        }
      }
    }
  }

  /** Non-overlapping sections have at most one address for an offset, whatever order they are listed in. */
  lemma {:induction false} SectionAtIsCovering(sections: seq<Section>, off: int, fallback: string, i: nat)
    requires i < |sections| && Covers(sections[i], off)
    requires forall j, k :: 0 <= j < k < |sections| ==> !(Covers(sections[j], off) && Covers(sections[k], off))
    ensures SectionAt(sections, off, fallback) == sections[i].ref
  {
    if i > 0 {
      assert !Covers(sections[0], off);
      SectionAtIsCovering(sections[1..], off, fallback, i - 1);
    }
  }

  const ELLIPSIS := "\U{2026}"

  function Excerpt(body: string, start: int, end: int): string
    requires 0 <= start <= end <= |body|
  {
    var lo := if start - EXCERPT < 0 then 0 else start - EXCERPT;
    var hi := if end + EXCERPT > |body| then |body| else end + EXCERPT;
    (if lo > 0 then ELLIPSIS else "") + body[lo..hi] + (if hi < |body| then ELLIPSIS else "")
  }

  /** The text is the body's stretch [lo, hi), with dots where the body goes on. */
  predicate Shows(body: string, lo: int, hi: int, text: string) {
    && 0 <= lo <= hi <= |body|
    && text == (if lo > 0 then ELLIPSIS else "") + body[lo..hi] + (if hi < |body| then ELLIPSIS else "")
  }

  /** The text shows the stretch with 160 runes before and after it, or as many as there are. */
  ghost predicate ShowsAround(body: string, start: int, end: int, text: string) {
    exists lo, hi :: Shows(body, lo, hi, text)
      && start - 160 <= lo <= start && end <= hi <= end + 160
      && (lo > start - 160 ==> lo == 0) && (hi < end + 160 ==> hi == |body|)
  }

  lemma ExcerptShowsAround(body: string, start: int, end: int)
    requires 0 <= start <= end <= |body|
    ensures ShowsAround(body, start, end, Excerpt(body, start, end))
  {
    var lo, hi := if start < 160 then 0 else start - 160, if |body| - end < 160 then |body| else end + 160;
    assert Shows(body, lo, hi, Excerpt(body, start, end));
  }

  // ----- the verdict -----

  ghost predicate Holds(u: Unicode, body: string, sc: Scope, needle: string) {
    0 <= sc.start <= sc.end <= |body| && Occurs(Norm(u, body[sc.start..sc.end]), needle)
  }

  /** The scope ends before it starts: cutting it out of the body panics. */
  predicate Inverted(sc: Scope) { sc.start > sc.end }

  /** No scope is inverted before one that holds the needle. */
  ghost predicate Reachable(u: Unicode, body: string, scopes: seq<Scope>, needle: string) {
    forall k :: 0 <= k < |scopes| && Inverted(scopes[k]) ==> exists j :: 0 <= j < k && Holds(u, body, scopes[j], needle)
  }

  /** The location is a span of the first scope, in priority order, that holds the needle, and reads as it. */
  ghost predicate Located(u: Unicode, body: string, sections: seq<Section>, scopes: seq<Scope>,
                          needle: string, loc: Location)
  {
    exists k :: 0 <= k < |scopes|
                && Holds(u, body, scopes[k], needle) && (forall j :: 0 <= j < k ==> !Holds(u, body, scopes[j], needle))
                && LocatedIn(u, body, sections, scopes[k], Shown(needle), loc)
  }

  ghost predicate LocatedIn(u: Unicode, body: string, sections: seq<Section>, sc: Scope,
                            text: string, loc: Location)
  {
    && IsSpanOf(u, body, sc, loc.charStart, loc.charEnd, text)
    && loc.sectionRef == SectionAt(sections, loc.charStart, sc.ref)
  }

  /** The nearest region of an unverified quote: a longest shared run, and the original text it came from. */
  ghost predicate Nearest(u: Unicode, body: string, sections: seq<Section>, needle: string, out: Verdict) {
    var all, offs := Norm(u, body), Offsets(u, body, |body|);
    var hay := if |all| > 400000 then all[..400000] else all;
    exists end ::
      && IsLongestShared(needle, hay, out.overlapChars, end)
      && (out.overlapChars == 0 ==> out.nearestSectionRef == "" && out.nearestExcerpt == "")
      && (out.overlapChars > 0 ==>
            && end <= |offs|
            && 0 <= offs[end - out.overlapChars] <= offs[end - 1] + 1 <= |body|
            && out.nearestSectionRef == SectionAt(sections, offs[end - out.overlapChars], "")
            && ShowsAround(body, offs[end - out.overlapChars], offs[end - 1] + 1, out.nearestExcerpt))
  }

  method CheckCitation(u: Unicode, quote: string, sectionRef: string, heading: string,
                       body: string, sections: seq<Section>) returns (out: Verdict)
    requires WellBehaved(u)
    requires Needle(u, quote) != "" ==>
               Reachable(u, body, Scopes(u, sectionRef, heading, |body|, sections), Needle(u, quote))
    ensures out.verified <==> out.foundAt.Some?
    ensures Needle(u, quote) == "" ==> out == UNVERIFIED
    ensures var needle, scopes := Needle(u, quote), Scopes(u, sectionRef, heading, |body|, sections);
            EndsInWord(needle) ==> (out.verified <==> exists sc <- scopes :: ScopeReads(u, body, sc, needle))
    ensures var needle, scopes := Needle(u, quote), Scopes(u, sectionRef, heading, |body|, sections);
            needle != "" && !EndsInWord(needle) ==>
              (out.verified <==> exists sc <- scopes :: ScopeContinues(u, body, sc, needle))
    ensures out.verified ==> Located(u, body, sections, Scopes(u, sectionRef, heading, |body|, sections),
                                     Needle(u, quote), out.foundAt.value)
    ensures !out.verified && Needle(u, quote) != "" ==> Nearest(u, body, sections, Needle(u, quote), out)
    ensures out.verified ==> out.nearestSectionRef == "" && out.nearestExcerpt == "" && out.overlapChars == 0
  {
    out := UNVERIFIED;
    var scopes := Scopes(u, sectionRef, heading, |body|, sections);
    var needle, _ := NormalizeCitationText(u, quote, 0);
    if |needle| == 0 {
      return;
    }
    if |needle| > QUOTE_CAP {
      needle := needle[..QUOTE_CAP];
    }
    NeedleShape(u, quote);
    SomeScopeHolds(u, body, scopes, needle, Shown(needle));
    var found, loc := FirstPass(u, body, sections, scopes, needle);
    if found {
      out := out.(verified := true, foundAt := Some(loc));
    } else {
      var overlap, ref, excerpt := NearestRegion(u, body, sections, needle);
      out := out.(nearestSectionRef := ref, nearestExcerpt := excerpt, overlapChars := overlap);
    }
  }

  ghost predicate NoneHolds(u: Unicode, body: string, scopes: seq<Scope>, needle: string, k: nat)
    requires k <= |scopes|
  {
    forall j :: 0 <= j < k ==> !Holds(u, body, scopes[j], needle)
  }

  /** The first pass: an exact search of each scope, in priority order. */
  method FirstPass(u: Unicode, body: string, sections: seq<Section>, scopes: seq<Scope>, needle: string)
    returns (found: bool, loc: Location)
    requires WellBehaved(u) && IsNeedle(needle, Shown(needle))
    requires forall sc <- scopes :: 0 <= sc.start <= |body| && 0 <= sc.end <= |body|
    requires Reachable(u, body, scopes, needle)
    ensures found <==> exists k :: 0 <= k < |scopes| && Holds(u, body, scopes[k], needle)
    ensures found ==> Located(u, body, sections, scopes, needle, loc)
  {
    ghost var shown := Shown(needle);
    for k := 0 to |scopes|
      invariant NoneHolds(u, body, scopes, needle, k)
    {
      assert !Inverted(scopes[k]);
      found, loc := SearchScope(u, body, sections, scopes[k], needle, shown);
      if found {
        FirstIsLocated(u, body, sections, scopes, needle, k, loc);
        return;
      }
    }
    found, loc := false, Location("", 0, 0);
  }

  lemma FirstIsLocated(u: Unicode, body: string, sections: seq<Section>, scopes: seq<Scope>, needle: string, k: nat,
                       loc: Location)
    requires k < |scopes| && NoneHolds(u, body, scopes, needle, k) && Holds(u, body, scopes[k], needle)
    requires LocatedIn(u, body, sections, scopes[k], Shown(needle), loc)
    ensures Located(u, body, sections, scopes, needle, loc)
  {
  }

  /** Where the offset map sends an occurrence: a span of the scope that reads as what the needle shows. */
  lemma FoundIsLocated(u: Unicode, body: string, sc: Scope, s: string, needle: string, shown: string, idx: nat, last: nat,
                       offMap: seq<int>)
    requires WellBehaved(u) && 0 <= sc.start <= sc.end <= |body| && s == body[sc.start..sc.end]
    requires IsNeedle(needle, shown) && At(Norm(u, s), needle, idx) && offMap == Rebase(Offsets(u, s, |s|), sc.start)
    requires last == idx + |needle| - 1
    ensures idx <= last < |offMap| && IsSpanOf(u, body, sc, offMap[idx], offMap[last] + 1, shown)
  {
    FoundReads(u, s, needle, shown, idx);
    MappedSpan(u, body, sc, s, idx, last, shown, offMap);
  }

  lemma MappedSpan(u: Unicode, body: string, sc: Scope, s: string, i: nat, j: nat, text: string, offMap: seq<int>)
    requires 0 <= sc.start <= sc.end <= |body| && s == body[sc.start..sc.end]
    requires StretchReads(u, s, i, j, text) && offMap == Rebase(Offsets(u, s, |s|), sc.start)
    ensures i <= j < |offMap| && IsSpanOf(u, body, sc, offMap[i], offMap[j] + 1, text)
  {
    var a, b := Offsets(u, s, |s|)[i], Offsets(u, s, |s|)[j] + 1;
    SpanOfStretch(u, body, sc.start, sc.end, a, b, text);
    assert offMap[i] == sc.start + a && offMap[j] + 1 == sc.start + b;
  }

  lemma SpanIsLocated(u: Unicode, body: string, sections: seq<Section>, sc: Scope, text: string, loc: Location)
    requires IsSpanOf(u, body, sc, loc.charStart, loc.charEnd, text)
    requires loc.sectionRef == SectionAt(sections, loc.charStart, sc.ref)
    ensures LocatedIn(u, body, sections, sc, text, loc)
  {
  }

  method SearchScope(u: Unicode, body: string, sections: seq<Section>, sc: Scope, needle: string, ghost shown: string)
    returns (found: bool, loc: Location)
    requires WellBehaved(u) && 0 <= sc.start <= sc.end <= |body| && IsNeedle(needle, shown)
    ensures found <==> Holds(u, body, sc, needle)
    ensures found ==> LocatedIn(u, body, sections, sc, shown, loc)
  {
    var text := body[sc.start..sc.end];
    var normBody, offMap := NormalizeCitationText(u, text, sc.start);
    var idx := IndexRunes(normBody, needle);
    found, loc := idx >= 0, Location("", 0, 0);
    if found {
      var last := idx + |needle| - 1;
      FoundIsLocated(u, body, sc, text, needle, shown, idx, last, offMap);
      var startOff, endOff := offMap[idx], offMap[last] + 1;
      var ref := SectionRefForOffset(sections, startOff, sc.ref);
      loc := Location(ref, startOff, endOff);
      SpanIsLocated(u, body, sections, sc, shown, loc);
    }
  }

  /** Some scope holds the needle exactly when the declarative statement is true of some scope. */
  lemma SomeScopeHolds(u: Unicode, body: string, scopes: seq<Scope>, needle: string, shown: string)
    requires WellBehaved(u) && IsNeedle(needle, shown)
    requires forall sc <- scopes :: 0 <= sc.start <= |body| && 0 <= sc.end <= |body|
    ensures needle == shown ==>
              ((exists k :: 0 <= k < |scopes| && Holds(u, body, scopes[k], needle))
                <==> exists sc <- scopes :: ScopeReads(u, body, sc, needle))
    ensures needle != shown ==>
              ((exists k :: 0 <= k < |scopes| && Holds(u, body, scopes[k], needle))
                <==> exists sc <- scopes :: ScopeContinues(u, body, sc, needle))
  {
    forall sc <- scopes
      ensures needle == shown ==> (Holds(u, body, sc, needle) <==> ScopeReads(u, body, sc, needle))
      ensures needle != shown ==> (Holds(u, body, sc, needle) <==> ScopeContinues(u, body, sc, needle))
    {
      if Inverted(sc) {
      } else if needle == shown {
        OccursIffScopeReads(u, body, sc, needle);
      } else {
        CutQuoteOccursIff(u, body, sc, shown);
      }
    }
    assert forall k :: 0 <= k < |scopes| ==> scopes[k] in scopes;
  }

  /** The second pass: the longest run the needle shares with the whole document. */
  method NearestRegion(u: Unicode, body: string, sections: seq<Section>, needle: string)
    returns (overlap: int, ref: string, excerpt: string)
    ensures Nearest(u, body, sections, needle, UNVERIFIED.(nearestSectionRef := ref, nearestExcerpt := excerpt,
                                                           overlapChars := overlap))
  {
    var normBody, offMap := NormalizeCitationText(u, body, 0);
    if |normBody| > BODY_CAP {
      normBody := normBody[..BODY_CAP];
      offMap := offMap[..BODY_CAP];
    }
    var bodyEnd;
    overlap, bodyEnd := LongestCommonSubstring(needle, normBody);
    ref, excerpt := "", "";
    if overlap > 0 {
      MappedRun(u, body, bodyEnd - overlap, bodyEnd - 1, offMap);
      var matchStart, matchEnd := offMap[bodyEnd - overlap], offMap[bodyEnd - 1] + 1;
      ref := SectionRefForOffset(sections, matchStart, "");
      excerpt := Excerpt(body, matchStart, matchEnd);
      ExcerptShowsAround(body, matchStart, matchEnd);
    }
  }

  /** Where the offset map, whole or cut short, sends a run of the normalized body. */
  lemma MappedRun(u: Unicode, body: string, i: nat, j: nat, offMap: seq<int>)
    requires i <= j < |offMap| && offMap <= Rebase(Offsets(u, body, |body|), 0)
    ensures var offs := Offsets(u, body, |body|);
            j < |offs| && offMap[i] == offs[i] <= offs[j] == offMap[j] < |body|
  {
    OffsetAt(u, body, j);
    OffsetsRise(u, body, i, j);
  }

  /**
   The contract for a quote within the cap: it is verified exactly when some span of a checked scope
   has the quote's normal form. With the whole document as scope, and the document within its cap, that
   is the same as the longest shared run being as long as the quote.
   */
  lemma VerdictIsExact(u: Unicode, quote: string, sectionRef: string, heading: string, body: string,
                       sections: seq<Section>)
    requires WellBehaved(u) && 0 < |Norm(u, quote)| <= 1000
    ensures var scopes := Scopes(u, sectionRef, heading, |body|, sections);
            (exists sc <- scopes :: Holds(u, body, sc, Needle(u, quote))) <==>
            (exists sc <- scopes :: ScopeReads(u, body, sc, Norm(u, quote)))
  {
    NeedleEndsInWord(u, quote);
    NeedleStartsWithWord(u, quote);
    var scopes := Scopes(u, sectionRef, heading, |body|, sections);
    forall sc <- scopes ensures Holds(u, body, sc, Needle(u, quote)) <==> ScopeReads(u, body, sc, Norm(u, quote)) {
      if !Inverted(sc) {
        OccursIffScopeReads(u, body, sc, Norm(u, quote));
      }
    }
  }

  lemma WholeDocumentVerdict(u: Unicode, quote: string, body: string, n: int, end: int)
    requires WellBehaved(u) && 0 < |Norm(u, quote)| <= 1000 && |Norm(u, body)| <= 400000
    requires IsLongestShared(Needle(u, quote), Norm(u, body), n, end)
    ensures ScopeReads(u, body, Scope("", 0, |body|), Norm(u, quote)) <==> n == |Norm(u, quote)|
  {
    NeedleEndsInWord(u, quote);
    NeedleStartsWithWord(u, quote);
    assert body[0..|body|] == body;
    OccursIffScopeReads(u, body, Scope("", 0, |body|), Norm(u, quote));
    OccursIffWholeIsShared(Norm(u, quote), Norm(u, body), n, end);
  }
}
