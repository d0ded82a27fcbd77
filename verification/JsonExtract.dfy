/**
 `extractJSONObject`: the first balanced {...} block of a text, and the proof that it undoes
 printing. A Go string that is scanned byte by byte is a sequence of characters here; the six
 characters that matter are ASCII, so multi-byte runes pass through as plain text.
 */
module JsonExtract {
  import opened Sequences

  // ----- what "balanced outside strings" means -----

  /** Where a reader of JSON text stands: outside strings, inside one, or after a backslash in one. */
  datatype Mode = Outside | InText | Escaped

  function NextMode(m: Mode, c: char): Mode {
    match m
    case Outside => if c == '"' then InText else Outside
    case InText => if c == '\\' then Escaped else if c == '"' then Outside else InText
    case Escaped => InText
  }

  function ModeAfter(t: string): Mode {
    if t == "" then Outside else NextMode(ModeAfter(t[..|t| - 1]), t[|t| - 1])
  }

  /** How many more braces `t` opens than it closes, counting only braces outside strings. */
  function Depth(t: string): int {
    if t == "" then 0
    else
      var before, c := t[..|t| - 1], t[|t| - 1];
      Depth(before) + Change(ModeAfter(before), c)
  }

  function Change(m: Mode, c: char): int {
    if m != Outside then 0 else if c == '{' then 1 else if c == '}' then -1 else 0
  }

  /** The position of the first brace, or the length when there is none. */
  function FirstBrace(s: string): (start: nat)
    ensures start <= |s|
  {
    if s == "" || s[0] == '{' then 0 else 1 + FirstBrace(s[1..])
  }

  lemma {:induction false} FirstBraceIs(s: string)
    ensures forall k :: 0 <= k < FirstBrace(s) ==> s[k] != '{'
    ensures FirstBrace(s) < |s| ==> s[FirstBrace(s)] == '{'
  {
    if s != "" && s[0] != '{' {
      FirstBraceIs(s[1..]);
      forall k | 0 <= k < FirstBrace(s) ensures s[k] != '{' {
        if k > 0 {
          assert s[1..][k - 1] != '{';
        }
      }
    }
  }

  /** `r` is the shortest balanced prefix of what follows the first brace, or "" when there is none. */
  ghost predicate Extracts(s: string, r: string) {
    var t := s[FirstBrace(s)..];
    if r == "" then forall n :: 0 < n <= |t| ==> Depth(t[..n]) != 0
    else r <= t && Depth(r) == 0 && forall n :: 0 < n < |r| ==> Depth(t[..n]) != 0
  }

  lemma ExtractsIsUnique(s: string, r: string, r': string)
    requires Extracts(s, r) && Extracts(s, r')
    ensures r == r'
  {
    var t := s[FirstBrace(s)..];
    assert r == t[..|r|] && r' == t[..|r'|];
  }

  // ----- the scan -----

  function ModeOf(inStr: bool, esc: bool): Mode {
    if esc then Escaped else if inStr then InText else Outside
  }

  /** What the loop's variables say after `k` characters, none of which closed the first brace. */
  ghost predicate Scanned(t: string, k: nat, depth: int, mode: Mode) {
    && k <= |t| && depth == Depth(t[..k]) && (k > 0 ==> depth >= 1) && ModeAfter(t[..k]) == mode
    && forall n :: 0 < n <= k ==> Depth(t[..n]) != 0
  }

  lemma ScanOne(t: string, k: nat, k': nat, depth: int, mode: Mode)
    requires k' == k + 1 <= |t| && Scanned(t, k, depth, mode)
    ensures var depth' := depth + Change(mode, t[k]);
            && Depth(t[..k']) == depth'
            && (depth' >= 1 ==> Scanned(t, k', depth', NextMode(mode, t[k])))
  {
    PrefixGrows(t, k, k');
    PartsOfConcat(t[..k], [t[k]]);
  }

  lemma ScanCloses(s: string, t: string, k: nat, depth: int, mode: Mode, r: string)
    requires t == s[FirstBrace(s)..] && Scanned(t, k, depth, mode)
    requires |r| == k + 1 <= |t| && r == t[..k + 1] && Depth(r) == 0
    ensures Extracts(s, r)
  {
  }

  lemma ScanEnds(s: string, t: string, k: nat, depth: int, mode: Mode)
    requires t == s[FirstBrace(s)..] && k == |t| && Scanned(t, k, depth, mode)
    ensures Extracts(s, "")
  {
  }

  method ExtractJSONObject(s: string) returns (r: string)
    ensures Extracts(s, r)
  {
    var start := FirstBrace(s);
    FirstBraceIs(s);
    if start == |s| {
      return "";
    }
    ghost var t := s[start..];
    var depth, inStr, esc := 0, false, false;
    var i := start;
    ghost var k: nat := 0;
    while i < |s|
      invariant i == start + k <= |s|
      invariant esc ==> inStr
      invariant Scanned(t, k, depth, ModeOf(inStr, esc))
    {
      var c := s[i];
      ghost var mode, depth' := ModeOf(inStr, esc), depth + Change(ModeOf(inStr, esc), c);
      ScanOne(t, k, k + 1, depth, mode);
      if inStr {
        if esc {
          esc := false;
        } else if c == '\\' {
          esc := true;
        } else if c == '"' {
          inStr := false;
        }
      } else if c == '"' {
        inStr := true;
      } else if c == '{' {
        depth := depth + 1;
      } else if c == '}' {
        depth := depth - 1;
        if depth == 0 {
          PrefixOfSuffix(s, start, i + 1);
          ScanCloses(s, t, k, depth' + 1, mode, s[start..i + 1]);
          return s[start..i + 1];
        }
      }
      assert ModeOf(inStr, esc) == NextMode(mode, c) && depth == depth';
      i, k := i + 1, k + 1;
    }
    ScanEnds(s, t, k, depth, ModeOf(inStr, esc));
    r := "";
  }

  // ----- JSON texts: RFC 8259, sections 2 to 7 -----

  datatype TextChar = Plain(c: char) | Short(letter: char) | Numbered(hex: string)

  /** A value together with every choice a printer has: white space, escapes and number spelling. */
  datatype Json =
    | Literal(text: string)
    | Text(chars: seq<TextChar>)
    | Array(open: string, elements: Elements)
    | Object(open: string, members: Members)

  datatype Elements = NoElements | Element(value: Json, after: string, before: string, rest: Elements)

  datatype Members = NoMembers | Member(key: seq<TextChar>, afterKey: string, beforeValue: string,
                                        value: Json, after: string, before: string, rest: Members)

  predicate IsSpace(ws: string) { forall c <- ws :: c == ' ' || c == '\t' || c == '\n' || c == '\r' }

  predicate IsEscapeLetter(c: char) {
    || c == '"' || c == '\\' || c == '/'
    || c == 'b' || c == 'f' || c == 'n' || c == 'r' || c == 't'
  }

  predicate IsHexDigit(c: char) { '0' <= c <= '9' || 'a' <= c <= 'f' || 'A' <= c <= 'F' }

  predicate IsNumberChar(c: char) { '0' <= c <= '9' || c == '+' || c == '-' || c == '.' || c == 'e' || c == 'E' }

  predicate IsTextChar(c: TextChar) {
    match c
    case Plain(c) => c >= ' ' && c != '"' && c != '\\'
    case Short(c) => IsEscapeLetter(c)
    case Numbered(hex) => |hex| == 4 && forall c <- hex :: IsHexDigit(c)
  }

  predicate IsLiteral(text: string) {
    text in {"true", "false", "null"} || (text != "" && forall c <- text :: IsNumberChar(c))
  }

  predicate IsJson(v: Json) {
    match v
    case Literal(text) => IsLiteral(text)
    case Text(chars) => forall c <- chars :: IsTextChar(c)
    case Array(open, elements) => IsSpace(open) && AreElements(elements)
    case Object(open, members) => IsSpace(open) && AreMembers(members)
  }

  predicate AreElements(es: Elements) {
    match es
    case NoElements => true
    case Element(v, after, before, rest) => IsJson(v) && IsSpace(after) && IsSpace(before) && AreElements(rest)
  }

  predicate AreMembers(ms: Members) {
    match ms
    case NoMembers => true
    case Member(key, afterKey, beforeValue, v, after, before, rest) =>
      (forall c <- key :: IsTextChar(c)) && IsSpace(afterKey) && IsSpace(beforeValue) && IsJson(v)
      && IsSpace(after) && IsSpace(before) && AreMembers(rest)
  }

  function PrintChar(c: TextChar): string {
    match c
    case Plain(c) => [c]
    case Short(c) => ['\\', c]
    case Numbered(hex) => "\\u" + hex
  }

  function PrintChars(cs: seq<TextChar>): string {
    FlatMap(PrintChar, cs)
  }

  function PrintText(cs: seq<TextChar>): string { "\"" + PrintChars(cs) + "\"" }

  function Print(v: Json): string {
    match v
    case Literal(text) => text
    case Text(chars) => PrintText(chars)
    case Array(open, elements) => "[" + open + PrintElements(elements) + "]"
    case Object(open, members) => "{" + open + PrintMembers(members) + "}"
  }

  function PrintElements(es: Elements): string {
    match es
    case NoElements => ""
    case Element(v, after, before, rest) =>
      Print(v) + after + (if rest.NoElements? then "" else "," + before + PrintElements(rest))
  }

  function PrintMembers(ms: Members): string {
    match ms
    case NoMembers => ""
    case Member(key, afterKey, beforeValue, v, after, before, rest) =>
      PrintText(key) + afterKey + ":" + beforeValue + Print(v) + after
      + (if rest.NoMembers? then "" else "," + before + PrintMembers(rest))
  }

  // ----- printed text is balanced -----

  /** A text that a scan crosses without leaving it below the depth it started at. */
  ghost predicate Neutral(t: string) {
    ModeAfter(t) == Outside && Depth(t) == 0 && forall n :: 0 <= n <= |t| ==> Depth(t[..n]) >= 0
  }

  lemma {:induction false} ScanConcat(a: string, b: string)
    requires ModeAfter(a) == Outside
    ensures ModeAfter(a + b) == ModeAfter(b)
    ensures Depth(a + b) == Depth(a) + Depth(b)
  {
    if b == "" {
      ConcatNothing(a);
    } else {
      InitOfConcat(a, b);
      ScanConcat(a, b[..|b| - 1]);
    }
  }

  lemma NeutralConcat(a: string, b: string)
    requires Neutral(a) && Neutral(b)
    ensures Neutral(a + b)
  {
    ScanConcat(a, b);
    forall n | 0 <= n <= |a + b| ensures Depth((a + b)[..n]) >= 0 {
      if n <= |a| {
        PrefixInFirst(a, b, n);
      } else {
        PrefixInSecond(a, b, n - |a|);
        ScanConcat(a, b[..n - |a|]);
      }
    }
  }

  /** Text without braces or quotes is crossed at depth zero. */
  lemma {:induction false} PlainIsNeutral(t: string)
    requires '{' !in t && '}' !in t && '"' !in t
    ensures Neutral(t)
  {
    if t != "" {
      var before := t[..|t| - 1];
      PlainIsNeutral(before);
      forall n | 0 <= n < |t| ensures Depth(t[..n]) >= 0 {
        PrefixOfPrefix(t, |t| - 1, n);
      }
      WholeSlice(t, |t|);
    }
  }

  /** A text that a scan leaves in mode `m` without ever changing depth. */
  ghost predicate Flat(t: string, m: Mode) {
    ModeAfter(t) == m && forall n :: 0 <= n <= |t| ==> Depth(t[..n]) == 0
  }

  lemma FlatSnoc(t: string, m: Mode, c: char)
    requires Flat(t, m) && (m != Outside || c == '"')
    ensures Flat(t + [c], NextMode(m, c))
  {
    FlatAfterOne(t, m, c);
    forall n | 0 <= n <= |t + [c]| ensures Depth((t + [c])[..n]) == 0 {
      if n <= |t| {
        PrefixInFirst(t, [c], n);
      } else {
        WholeSlice(t + [c], n);
      }
    }
  }

  lemma FlatAfterOne(t: string, m: Mode, c: char)
    requires Flat(t, m) && (m != Outside || c == '"')
    ensures Depth(t + [c]) == 0 && ModeAfter(t + [c]) == NextMode(m, c)
  {
    WholeSlice(t, |t|);
    PartsOfConcat(t, [c]);
  }

  lemma CharStaysInText(t: string, c: TextChar)
    requires Flat(t, InText) && IsTextChar(c)
    ensures Flat(t + PrintChar(c), InText)
  {
    match c
    case Plain(c) => FlatSnoc(t, InText, c);
    case Short(c) => EscapeStaysInText(t, c);
    case Numbered(hex) =>
      EscapeStaysInText(t, 'u');
      HexStaysInText(t + ['\\', 'u'], hex);
      ConcatIsAssociative(t, ['\\', 'u'], hex);
  }

  lemma EscapeStaysInText(t: string, letter: char)
    requires Flat(t, InText)
    ensures Flat(t + ['\\', letter], InText)
  {
    FlatSnoc(t, InText, '\\');
    FlatSnoc(t + ['\\'], Escaped, letter);
    ConcatIsAssociative(t, ['\\'], [letter]);
    assert ['\\'] + [letter] == ['\\', letter];
  }

  lemma {:induction false} HexStaysInText(t: string, hex: string)
    requires Flat(t, InText) && forall c <- hex :: IsHexDigit(c)
    ensures Flat(t + hex, InText)
    decreases |hex|
  {
    if hex == "" {
      ConcatNothing(t);
    } else {
      assert IsHexDigit(hex[0]) && NextMode(InText, hex[0]) == InText;
      FlatSnoc(t, InText, hex[0]);
      HexStaysInText(t + [hex[0]], hex[1..]);
      HeadAndTail(hex);
      ConcatIsAssociative(t, [hex[0]], hex[1..]);
    }
  }

  lemma {:induction false} CharsStayInText(t: string, cs: seq<TextChar>)
    requires Flat(t, InText) && forall c <- cs :: IsTextChar(c)
    ensures Flat(t + PrintChars(cs), InText)
    decreases |cs|
  {
    if cs == [] {
      ConcatNothing(t);
    } else {
      CharStaysInText(t, cs[0]);
      CharsStayInText(t + PrintChar(cs[0]), cs[1..]);
      ConcatIsAssociative(t, PrintChar(cs[0]), PrintChars(cs[1..]));
    }
  }

  lemma TextIsNeutral(cs: seq<TextChar>)
    requires forall c <- cs :: IsTextChar(c)
    ensures Neutral(PrintText(cs))
  {
    FlatSnoc("", Outside, '"');
    ConcatNothing("\"");
    CharsStayInText("\"", cs);
    FlatSnoc("\"" + PrintChars(cs), InText, '"');
    FlatIsNeutral(PrintText(cs));
  }

  lemma FlatIsNeutral(t: string)
    requires Flat(t, Outside)
    ensures Neutral(t)
  {
    WholeSlice(t, |t|);
  }

  /** The text opens with a brace that only its last character closes. */
  ghost predicate IsOneObject(t: string) {
    Neutral(t) && |t| >= 2 && t[0] == '{' && forall n :: 0 < n < |t| ==> Depth(t[..n]) >= 1
  }

  /** Neutral text put between braces opens a brace that only its last character closes. */
  lemma WrapIsOneObject(t: string)
    requires Neutral(t)
    ensures IsOneObject("{" + t + "}")
  {
    var w := "{" + t + "}";
    assert w[..|w| - 1] == "{" + t;
    assert Depth("{") == 1 && ModeAfter("{") == Outside;
    ScanConcat("{", t);
    forall n | 0 < n < |w| ensures Depth(w[..n]) >= 1 {
      assert w[..n] == "{" + t[..n - 1];
      ScanConcat("{", t[..n - 1]);
    }
    assert w[..|w|] == w && w[..0] == "";
  }

  lemma {:induction false} JsonIsNeutral(v: Json)
    requires IsJson(v)
    ensures Neutral(Print(v))
    decreases v, 1
  {
    match v
    case Literal(_) => AtomIsNeutral(v);
    case Text(_) => AtomIsNeutral(v);
    case Array(open, elements) =>
      ElementsAreNeutral(elements);
      ArrayIsNeutral(open, PrintElements(elements));
    case Object(open, members) =>
      ObjectIsOneObject(v);
  }

  lemma AtomIsNeutral(v: Json)
    requires IsJson(v) && (v.Literal? || v.Text?)
    ensures Neutral(Print(v))
  {
    if v.Literal? {
      PlainIsNeutral(v.text);
    } else {
      TextIsNeutral(v.chars);
    }
  }

  lemma ArrayIsNeutral(open: string, inner: string)
    requires IsSpace(open) && Neutral(inner)
    ensures Neutral("[" + open + inner + "]")
  {
    PlainIsNeutral("[");
    PlainIsNeutral(open);
    PlainIsNeutral("]");
    NeutralConcat("[", open);
    NeutralConcat("[" + open, inner);
    NeutralConcat("[" + open + inner, "]");
  }

  lemma ObjectIsOneObject(obj: Json)
    requires IsJson(obj) && obj.Object?
    ensures IsOneObject(Print(obj))
    decreases obj, 0
  {
    var open, members := obj.open, PrintMembers(obj.members);
    BodyIsNeutral(obj.open, obj.members);
    ConcatIsAssociative("{", open, members);
    WrapIsOneObject(open + members);
  }

  lemma BodyIsNeutral(open: string, members: Members)
    requires IsSpace(open) && AreMembers(members)
    ensures Neutral(open + PrintMembers(members))
    decreases members, 1
  {
    MembersAreNeutral(members);
    PlainIsNeutral(open);
    NeutralConcat(open, PrintMembers(members));
  }

  lemma {:induction false} ElementsAreNeutral(es: Elements)
    requires AreElements(es)
    ensures Neutral(PrintElements(es))
    decreases es, 0
  {
    match es
    case NoElements => PlainIsNeutral("");
    case Element(v, after, before, rest) =>
      JsonIsNeutral(v);
      ElementsAreNeutral(rest);
      PlainIsNeutral(after);
      PlainIsNeutral("," + before);
      PlainIsNeutral("");
      NeutralConcat(Print(v), after);
      NeutralConcat("," + before, PrintElements(rest));
      NeutralConcat(Print(v) + after, if rest.NoElements? then "" else "," + before + PrintElements(rest));
  }

  lemma {:induction false} MembersAreNeutral(ms: Members)
    requires AreMembers(ms)
    ensures Neutral(PrintMembers(ms))
    decreases ms, 0
  {
    match ms
    case NoMembers => PlainIsNeutral("");
    case Member(key, afterKey, beforeValue, v, after, before, rest) =>
      TextIsNeutral(key);
      JsonIsNeutral(v);
      MembersAreNeutral(rest);
      PlainIsNeutral(afterKey);
      PlainIsNeutral(":");
      PlainIsNeutral(beforeValue);
      PlainIsNeutral(after);
      PlainIsNeutral("," + before);
      PlainIsNeutral("");
      var tail := if rest.NoMembers? then "" else "," + before + PrintMembers(rest);
      NeutralConcat("," + before, PrintMembers(rest));
      NeutralConcat(PrintText(key), afterKey);
      NeutralConcat(PrintText(key) + afterKey, ":");
      NeutralConcat(PrintText(key) + afterKey + ":", beforeValue);
      NeutralConcat(PrintText(key) + afterKey + ":" + beforeValue, Print(v));
      NeutralConcat(PrintText(key) + afterKey + ":" + beforeValue + Print(v), after);
      NeutralConcat(PrintText(key) + afterKey + ":" + beforeValue + Print(v) + after, tail);
  }

  /** Extraction undoes printing: whatever prose surrounds a printed object, the object comes back. */
  lemma ExtractUndoesPrint(prefix: string, obj: Json, suffix: string)
    requires '{' !in prefix
    requires IsJson(obj) && obj.Object?
    ensures Extracts(prefix + Print(obj) + suffix, Print(obj))
  {
    var r := Print(obj);
    ObjectIsOneObject(obj);
    FirstBraceSkips(prefix, r + suffix);
    ConcatIsAssociative(prefix, r, suffix);
    PartsOfConcat(prefix, r + suffix);
    PartsOfConcat(r, suffix);
    var t := r + suffix;
    forall n | 0 < n < |r| ensures Depth(t[..n]) != 0 {
      assert t[..n] == r[..n];
    }
  }

  lemma {:induction false} FirstBraceSkips(prefix: string, t: string)
    requires '{' !in prefix && t != "" && t[0] == '{'
    ensures FirstBrace(prefix + t) == |prefix|
  {
    if prefix == "" {
      assert prefix + t == t;
    } else {
      TailOfConcat(prefix, t);
      FirstBraceSkips(prefix[1..], t);
    }
  }
}
