/**
 The few functions of Go's `strings` package that the program relies on. Unicode's tables are the two uninterpreted
 functions of `Unicode`.
 */
module Strings {
  import opened Sequences

  function HasSuffix(s: string, suffix: string): bool {
    |suffix| <= |s| && s[|s| - |suffix|..] == suffix
  }

  /** The least index at which `needle` occurs in `hay` from `from` on; -1 when there is none. */
  function IndexFrom(hay: string, needle: string, from: nat): (idx: int)
    requires from <= |hay|
    ensures idx == -1 || from <= idx <= |hay| - |needle|
    decreases |hay| - from
  {
    if At(hay, needle, from) then from else if from == |hay| then -1 else IndexFrom(hay, needle, from + 1)
  }

  lemma {:induction false} IndexIsAt(hay: string, needle: string, from: nat)
    requires from <= |hay| && IndexFrom(hay, needle, from) >= 0
    ensures At(hay, needle, IndexFrom(hay, needle, from))
    decreases |hay| - from
  {
    if !At(hay, needle, from) {
      IndexIsAt(hay, needle, from + 1);
    }
  }

  lemma {:induction false} IndexIsLeast(hay: string, needle: string, from: nat, k: int)
    requires from <= k && At(hay, needle, k)
    ensures 0 <= IndexFrom(hay, needle, from) <= k
    decreases k - from
  {
    if !At(hay, needle, from) {
      IndexIsLeast(hay, needle, from + 1, k);
    }
  }

  /** `needle` occurs in `hay` at index `k`. */
  predicate At(hay: string, needle: string, k: int) {
    0 <= k && k + |needle| <= |hay| && hay[k..k + |needle|] == needle
  }

  function Split(s: string, sep: char): (parts: seq<string>)
    ensures parts != []
  {
    if s == "" then [""]
    else
      var rest := Split(s[1..], sep);
      if s[0] == sep then [""] + rest else [[s[0]] + rest[0]] + rest[1..]
  }

  lemma {:induction false} SplitParts(s: string, sep: char)
    ensures forall part <- Split(s, sep) :: sep !in part
    ensures Join(Split(s, sep), sep) == s
  {
    if s != "" {
      SplitParts(s[1..], sep);
    }
  }

  lemma SplitCons(c: char, s: string, sep: char)
    ensures Split([c] + s, sep)
         == if c == sep then [""] + Split(s, sep) else [[c] + Split(s, sep)[0]] + Split(s, sep)[1..]
  {
    PartsOfConcat([c], s);
  }

  function Join(parts: seq<string>, sep: char): string
    requires parts != []
  {
    if |parts| == 1 then parts[0] else parts[0] + [sep] + Join(parts[1..], sep)
  }

  function Contains(s: string, part: string): bool { IndexFrom(s, part, 0) >= 0 }

  function TrimPrefix(s: string, prefix: string): string {
    if prefix <= s then s[|prefix|..] else s
  }

  function TrimSuffix(s: string, suffix: string): string {
    if HasSuffix(s, suffix) then s[..|s| - |suffix|] else s
  }

  lemma JoinUnfold(parts: seq<string>, sep: char)
    requires parts != []
    ensures Join(parts, sep) == if |parts| == 1 then parts[0] else parts[0] + ([sep] + Join(parts[1..], sep))
  {
    if |parts| > 1 {
      ConcatIsAssociative(parts[0], [sep], Join(parts[1..], sep));
    }
  }

  lemma JoinCons(first: string, rest: seq<string>, sep: char)
    ensures Join([first] + rest, sep) == if rest == [] then first else first + ([sep] + Join(rest, sep))
  {
    PartsOfConcat([first], rest);
    if rest != [] {
      ConcatIsAssociative(first, [sep], Join(rest, sep));
    }
  }

  lemma {:induction false} SplitOfJoin(parts: seq<string>, sep: char)
    requires parts != [] && forall part <- parts :: sep !in part
    ensures Split(Join(parts, sep), sep) == parts
    decreases |parts|
  {
    var first, rest := parts[0], parts[1..];
    HeadAndTail(parts);
    assert first in parts && forall part <- rest :: part in parts;
    JoinCons(first, rest, sep);
    if rest == [] {
      SplitOfPart(first, sep);
    } else {
      SplitOfJoin(rest, sep);
      SplitAfterPart(first, Join(rest, sep), sep);
    }
  }

  lemma {:induction false} SplitOfPart(part: string, sep: char)
    requires sep !in part
    ensures Split(part, sep) == [part]
  {
    if part != "" {
      HeadAndTail(part);
      assert part[0] in part && sep !in part[1..];
      SplitOfPart(part[1..], sep);
    }
  }

  lemma {:induction false} SplitAfterPart(part: string, s: string, sep: char)
    requires sep !in part
    ensures Split(part + ([sep] + s), sep) == [part] + Split(s, sep)
  {
    if part == "" {
      ConcatNothing([sep] + s);
      SplitCons(sep, s, sep);
    } else {
      HeadAndTail(part);
      assert part[0] in part && sep !in part[1..];
      ConcatIsAssociative([part[0]], part[1..], [sep] + s);
      SplitCons(part[0], part[1..] + ([sep] + s), sep);
      SplitAfterPart(part[1..], s, sep);
      PartsOfConcat([part[1..]], Split(s, sep));
    }
  }

  lemma {:induction false} JoinConcat(a: seq<string>, b: seq<string>, sep: char)
    requires a != [] && b != []
    ensures Join(a + b, sep) == Join(a, sep) + ([sep] + Join(b, sep))
    decreases |a|
  {
    var first, rest := a[0], a[1..];
    HeadAndTail(a);
    ConcatIsAssociative([first], rest, b);
    JoinCons(first, rest, sep);
    JoinCons(first, rest + b, sep);
    if rest == [] {
      ConcatNothing(b);
    } else {
      JoinConcat(rest, b, sep);
      ConcatIsAssociative(first, [sep] + Join(rest, sep), [sep] + Join(b, sep));
      ConcatIsAssociative([sep], Join(rest, sep), [sep] + Join(b, sep));
    }
  }

  // ----- where characters and parts stand -----

  ghost predicate Occurs(hay: string, needle: string) { exists i :: At(hay, needle, i) }

  lemma ContainsIff(s: string, part: string)
    ensures Contains(s, part) <==> Occurs(s, part)
  {
    if Contains(s, part) {
      IndexIsAt(s, part, 0);
    }
    if k :| At(s, part, k) {
      IndexIsLeast(s, part, 0, k);
    }
  }

  lemma AtIsChar(s: string, c: char, k: int)
    ensures At(s, [c], k) <==> 0 <= k < |s| && s[k] == c
  {
    if 0 <= k < |s| {
      assert s[k..k + 1][0] == s[k];
    }
  }

  /** The first place where a character stands. */
  lemma FirstPlace(s: string, c: char, before: string, after: string)
    requires c !in before && s == before + ([c] + after)
    ensures IndexFrom(s, [c], 0) == |before| && s[..|before|] == before && s[|before| + 1..] == after
  {
    var k := IndexFrom(s, [c], 0);
    PartsOfConcat(before, [c] + after);
    PartsOfConcat([c], after);
    SuffixOfSuffix(s, |before|, 1);
    AtIsChar(s, c, |before|);
    IndexIsLeast(s, [c], 0, |before|);
    IndexIsAt(s, [c], 0);
    AtIsChar(s, c, k);
    FirstHas(before, [c] + after, k);
  }

  lemma FirstHas(a: string, b: string, k: int)
    ensures 0 <= k < |a| ==> (a + b)[k] in a
  {
  }

  lemma NoPlace(s: string, c: char)
    requires c !in s
    ensures IndexFrom(s, [c], 0) == -1
  {
    if IndexFrom(s, [c], 0) >= 0 {
      IndexIsAt(s, [c], 0);
      AtIsChar(s, c, IndexFrom(s, [c], 0));
    }
  }

  // ----- letter case and white space -----

  /** Unicode's white-space test and its simple lower-case mapping. */
  datatype Unicode = Unicode(isSpace: char -> bool, toLower: char -> char)

  function Lower(u: Unicode, s: string): string { seq(|s|, i requires 0 <= i < |s| => u.toLower(s[i])) }

  function TrimLeft(u: Unicode, s: string): string {
    if s != "" && u.isSpace(s[0]) then TrimLeft(u, s[1..]) else s
  }

  function Trim(u: Unicode, s: string): string
    decreases |s|
  {
    if s != "" && u.isSpace(s[|s| - 1]) then Trim(u, s[..|s| - 1]) else TrimLeft(u, s)
  }

  /** All that is not white space is in [a, b), which starts and ends with something else, if it is not empty. */
  ghost predicate TrimsTo(u: Unicode, s: string, a: int, b: int) {
    && 0 <= a <= b <= |s| && (forall k :: 0 <= k < a || b <= k < |s| ==> u.isSpace(s[k]))
    && (a < b ==> !u.isSpace(s[a]) && !u.isSpace(s[b - 1]))
  }

  /** The text without the white space around it. */
  ghost predicate IsTrimmed(u: Unicode, s: string, t: string) { exists a, b :: TrimsTo(u, s, a, b) && t == s[a..b] }

  lemma {:induction false} TrimLeftIs(u: Unicode, s: string) returns (a: nat)
    ensures a <= |s| && TrimLeft(u, s) == s[a..]
    ensures (forall k :: 0 <= k < a ==> u.isSpace(s[k])) && (a < |s| ==> !u.isSpace(s[a]))
  {
    a := 0;
    if s != "" && u.isSpace(s[0]) {
      var rest := TrimLeftIs(u, s[1..]);
      a := rest + 1;
      SuffixOfSuffix(s, 1, rest);
      forall k | 0 <= k < a ensures u.isSpace(s[k]) {
        assert k > 0 ==> u.isSpace(s[1..][k - 1]);
      }
    }
  }

  lemma TrimsShorter(u: Unicode, s: string, n: nat, a: int, b: int)
    requires n + 1 == |s| && u.isSpace(s[n]) && TrimsTo(u, s[..n], a, b)
    ensures TrimsTo(u, s, a, b) && s[..n][a..b] == s[a..b]
  {
    SliceOfSlice(s, 0, n, a, b);
    assert s[0..n] == s[..n];
    forall k | 0 <= k < a || b <= k < |s| ensures u.isSpace(s[k]) {
      assert k < n ==> s[..n][k] == s[k];
    }
  }

  lemma {:induction false} TrimIsTrimmed(u: Unicode, s: string)
    ensures IsTrimmed(u, s, Trim(u, s))
    decreases |s|
  {
    if s != "" && u.isSpace(s[|s| - 1]) {
      var init := s[..|s| - 1];
      TrimIsTrimmed(u, init);
      var a, b :| TrimsTo(u, init, a, b) && Trim(u, init) == init[a..b];
      TrimsShorter(u, s, |s| - 1, a, b);
    } else {
      var a := TrimLeftIs(u, s);
      assert TrimsTo(u, s, a, |s|) && s[a..] == s[a..|s|];
    }
  }

  lemma TrimmedIsUnique(u: Unicode, s: string, t: string, t': string)
    requires IsTrimmed(u, s, t) && IsTrimmed(u, s, t')
    ensures t == t'
  {
    var a, b :| TrimsTo(u, s, a, b) && t == s[a..b];
    var a', b' :| TrimsTo(u, s, a', b') && t' == s[a'..b'];
    assert a < b || a' < b' ==> a == a' && b == b';
  }

  /** White space on either side of a text that neither starts nor ends with it is trimmed off. */
  lemma TrimOfPadded(u: Unicode, before: string, text: string, after: string)
    requires (forall c <- before :: u.isSpace(c)) && forall c <- after :: u.isSpace(c)
    requires text != "" ==> !u.isSpace(text[0]) && !u.isSpace(text[|text| - 1])
    ensures Trim(u, before + text + after) == text
  {
    var s, a, b := before + text + after, |before|, |before + text|;
    forall k | 0 <= k < a || b <= k < |s| ensures u.isSpace(s[k]) {
      assert if k < a then s[k] == before[k] && before[k] in before else s[k] == after[k - b] && after[k - b] in after;
    }
    assert s[a..b] == text && TrimsTo(u, s, a, b);
    TrimIsTrimmed(u, s);
    TrimmedIsUnique(u, s, text, Trim(u, s));
  }
}
