/**
 The citation oracle's text normalization: `normalizeCitationText`, the declarative meaning of the
 text and offsets it returns, and what normalizing a piece of a text has to do with normalizing
 the whole. Unicode's tables are the two uninterpreted functions of `Unicode`.
 */
module Normalize {
  import opened Sequences
  import opened Strings

  /** Curly single quotes and the prime, curly double quotes and the double prime, dashes and minus. */
  function Ascii(r: char): char {
    match r
    case '\U{2018}' => '\''
    case '\U{2019}' => '\''
    case '\U{201A}' => '\''
    case '\U{2032}' => '\''
    case '\U{201C}' => '"'
    case '\U{201D}' => '"'
    case '\U{201E}' => '"'
    case '\U{2033}' => '"'
    case '\U{2013}' => '-'
    case '\U{2014}' => '-'
    case '\U{2212}' => '-'
    case _ => r
  }

  /** Exactly the typographic quotes, primes, dashes and the minus read as their ASCII forms, and all else as itself. */
  lemma GlyphsRead(r: char)
    ensures Ascii(r) == '\'' <==> r in {'\'', '\U{2018}', '\U{2019}', '\U{201A}', '\U{2032}'}
    ensures Ascii(r) == '"' <==> r in {'"', '\U{201C}', '\U{201D}', '\U{201E}', '\U{2033}'}
    ensures Ascii(r) == '-' <==> r in {'-', '\U{2013}', '\U{2014}', '\U{2212}'}
    ensures Ascii(r) !in {'\'', '"', '-'} ==> Ascii(r) == r
  {
  }

  predicate Typographic(r: char) { Ascii(r) != r }

  /** What the proofs use of Unicode: lower-casing is stable, and keeps words words. */
  ghost predicate WellBehaved(u: Unicode) {
    && u.isSpace(' ')
    && (forall c :: u.toLower(u.toLower(c)) == u.toLower(c))
    && (forall c :: !u.isSpace(c) ==> !u.isSpace(u.toLower(c)))
    && (forall c :: !Typographic(c) ==> !Typographic(u.toLower(c)))
  }

  /** ASCII alone satisfies what the proofs use. */
  lemma AsciiIsWellBehaved()
    ensures WellBehaved(Unicode(c => c in {' ', '\t', '\n', '\r'},
                                c => if 'A' <= c <= 'Z' then (c as int + 32) as char else c))
  {
  }

  predicate Space(u: Unicode, r: char) { u.isSpace(Ascii(r)) }

  function Fold(u: Unicode, r: char): char { u.toLower(Ascii(r)) }

  function FoldAll(u: Unicode, s: string): string { seq(|s|, i requires 0 <= i < |s| => Fold(u, s[i])) }

  // ----- the meaning: which runes of a text survive -----

  ghost predicate Kept(u: Unicode, s: string, k: nat) {
    k < |s| && !Space(u, s[k])
  }

  /** The first space of a run that has words on both sides. */
  ghost predicate Separates(u: Unicode, s: string, k: nat) {
    0 < k < |s| && Space(u, s[k]) && Kept(u, s, k - 1) && exists m :: k < m && Kept(u, s, m)
  }

  ghost predicate Emits(u: Unicode, s: string, k: nat) {
    Kept(u, s, k) || Separates(u, s, k)
  }

  /** The surviving positions below `n`, in order. */
  ghost function Offsets(u: Unicode, s: string, n: nat): seq<nat> {
    if n == 0 then [] else Offsets(u, s, n - 1) + (if Emits(u, s, n - 1) then [n - 1] else [])
  }

  function Glyph(u: Unicode, r: char): char {
    if Space(u, r) then ' ' else Fold(u, r)
  }

  function Glyphs(u: Unicode, s: string, offs: seq<nat>): string
    requires forall j :: 0 <= j < |offs| ==> offs[j] < |s|
  {
    seq(|offs|, j requires 0 <= j < |offs| => Glyph(u, s[offs[j]]))
  }

  ghost function Norm(u: Unicode, s: string): string {
    OffsetsInRange(u, s, |s|);
    Glyphs(u, s, Offsets(u, s, |s|))
  }

  function Shift(offs: seq<nat>, d: nat): seq<nat> {
    seq(|offs|, j requires 0 <= j < |offs| => offs[j] + d)
  }

  lemma {:induction false} OffsetsInRange(u: Unicode, s: string, n: nat)
    ensures forall j :: 0 <= j < |Offsets(u, s, n)| ==>
              Offsets(u, s, n)[j] < n && Offsets(u, s, n)[j] < |s| && Emits(u, s, Offsets(u, s, n)[j])
    ensures forall i, j :: 0 <= i < j < |Offsets(u, s, n)| ==> Offsets(u, s, n)[i] < Offsets(u, s, n)[j]
    ensures forall k: nat :: k < n && Emits(u, s, k) ==> k in Offsets(u, s, n)
  {
    forall j | 0 <= j < |Offsets(u, s, n)|
      ensures Offsets(u, s, n)[j] < n && Offsets(u, s, n)[j] < |s| && Emits(u, s, Offsets(u, s, n)[j])
    {
      OffsetEmits(u, s, n, j);
    }
    forall i, j | 0 <= i < j < |Offsets(u, s, n)| ensures Offsets(u, s, n)[i] < Offsets(u, s, n)[j] {
      OffsetsAscend(u, s, n, i, j);
    }
    forall k: nat | k < n && Emits(u, s, k) ensures k in Offsets(u, s, n) {
      EmittedIsOffset(u, s, n, k);
    }
  }

  lemma {:induction false} OffsetEmits(u: Unicode, s: string, n: nat, j: nat)
    requires j < |Offsets(u, s, n)|
    ensures Offsets(u, s, n)[j] < n && Offsets(u, s, n)[j] < |s| && Emits(u, s, Offsets(u, s, n)[j])
  {
    if j < |Offsets(u, s, n - 1)| {
      OffsetEmits(u, s, n - 1, j);
    }
  }

  lemma {:induction false} OffsetsAscend(u: Unicode, s: string, n: nat, i: nat, j: nat)
    requires i < j < |Offsets(u, s, n)|
    ensures Offsets(u, s, n)[i] < Offsets(u, s, n)[j]
  {
    if j < |Offsets(u, s, n - 1)| {
      OffsetsAscend(u, s, n - 1, i, j);
    } else {
      OffsetEmits(u, s, n - 1, i);
    }
  }

  lemma {:induction false} EmittedIsOffset(u: Unicode, s: string, n: nat, k: nat)
    requires k < n && Emits(u, s, k)
    ensures k in Offsets(u, s, n)
  {
    if k < n - 1 {
      EmittedIsOffset(u, s, n - 1, k);
    }
  }

  /** One offset of the whole text. */
  lemma OffsetAt(u: Unicode, s: string, j: nat)
    requires j < |Offsets(u, s, |s|)|
    ensures var k := Offsets(u, s, |s|)[j]; k < |s| && Emits(u, s, k)
  {
    OffsetsInRange(u, s, |s|);
  }

  lemma OffsetsRise(u: Unicode, s: string, i: nat, j: nat)
    requires i <= j < |Offsets(u, s, |s|)|
    ensures Offsets(u, s, |s|)[i] <= Offsets(u, s, |s|)[j] && (i < j ==> Offsets(u, s, |s|)[i] < Offsets(u, s, |s|)[j])
  {
    OffsetsInRange(u, s, |s|);
  }

  // ----- offsets of a piece -----

  ghost predicate EmitsAlike(u: Unicode, s: string, t: string, d: nat, k: nat) {
    Emits(u, t, k) <==> Emits(u, s, d + k)
  }

  /** Where `t` emits exactly what `s` emits `d` places further on, so do their offsets. */
  lemma {:induction false} OffsetsAgree(u: Unicode, s: string, t: string, d: nat, n: nat)
    requires forall k: nat :: k < n ==> EmitsAlike(u, s, t, d, k)
    ensures Offsets(u, s, d + n) == Offsets(u, s, d) + Shift(Offsets(u, t, n), d)
  {
    if n > 0 {
      OffsetsAgree(u, s, t, d, n - 1);
      assert EmitsAlike(u, s, t, d, n - 1);
    }
  }

  lemma {:induction false} OffsetsSilent(u: Unicode, s: string, a: nat, b: nat)
    requires a <= b && forall k: nat :: a <= k < b ==> !Emits(u, s, k)
    ensures Offsets(u, s, b) == Offsets(u, s, a)
  {
    if a < b {
      OffsetsSilent(u, s, a, b - 1);
    }
  }

  lemma {:induction false} OffsetsGrow(u: Unicode, s: string, a: nat, b: nat)
    requires a <= b
    ensures Offsets(u, s, a) <= Offsets(u, s, b)
    ensures forall j :: |Offsets(u, s, a)| <= j < |Offsets(u, s, b)| ==> a <= Offsets(u, s, b)[j]
  {
    if a < b {
      OffsetsGrow(u, s, a, b - 1);
    }
  }

  /** The offsets below the x-th offset are the first x. */
  lemma {:induction false} OffsetsBelow(u: Unicode, s: string, n: nat, x: nat)
    requires x < |Offsets(u, s, n)|
    ensures Offsets(u, s, Offsets(u, s, n)[x]) == Offsets(u, s, n)[..x]
    ensures Offsets(u, s, Offsets(u, s, n)[x] + 1) == Offsets(u, s, n)[..x + 1]
  {
    var before, last := Offsets(u, s, n - 1), if Emits(u, s, n - 1) then [n - 1] else [];
    if x < |before| {
      OffsetsBelow(u, s, n - 1, x);
      PrefixInFirst(before, last, x);
      PrefixInFirst(before, last, x + 1);
    } else {
      PrefixInFirst(before, last, x);
      WholeSlice(before, x);
      WholeSlice(before + last, x + 1);
    }
  }

  lemma PieceEmits(u: Unicode, s: string, a: nat, b: nat, k: nat)
    requires a < b <= |s| && Kept(u, s, a) && Kept(u, s, b - 1) && k < b - a
    ensures Emits(u, s[a..b], k) <==> Emits(u, s, a + k)
  {
    var t := s[a..b];
    assert t[k] == s[a + k];
    if k > 0 { assert t[k - 1] == s[a + k - 1]; }
    if Space(u, s[a + k]) { assert Kept(u, t, b - a - 1) && Kept(u, s, b - 1); }
  }

  lemma PieceOffsets(u: Unicode, s: string, a: nat, b: nat, t: string, n: nat)
    requires a < b <= |s| && Kept(u, s, a) && Kept(u, s, b - 1) && t == s[a..b] && n == |t|
    ensures Offsets(u, s, b) == Offsets(u, s, a) + Shift(Offsets(u, t, n), a)
  {
    forall k: nat | k < n ensures EmitsAlike(u, s, t, a, k) {
      PieceEmits(u, s, a, b, k);
    }
    OffsetsAgree(u, s, t, a, n);
  }

  lemma GlyphsOfPiece(u: Unicode, s: string, t: string, a: nat, all: seq<nat>, before: seq<nat>, offs: seq<nat>,
                      x: nat, y: nat)
    requires a + |t| <= |s| && t == s[a..a + |t|]
    requires forall j :: 0 <= j < |all| ==> all[j] < |s|
    requires forall j :: 0 <= j < |offs| ==> offs[j] < |t|
    requires before + Shift(offs, a) <= all && x == |before| && y == x + |offs|
    ensures y <= |all| && Glyphs(u, s, all)[x..y] == Glyphs(u, t, offs)
  {
    forall j | 0 <= j < |offs| ensures Glyphs(u, s, all)[|before| + j] == Glyphs(u, t, offs)[j] {
      assert all[|before| + j] == (before + Shift(offs, a))[|before| + j];
    }
  }

  /** The core: a piece that starts and ends on a word normalizes to a piece of the normalized whole. */
  lemma PieceOfWhole(u: Unicode, s: string, a: nat, b: nat, t: string, x: nat, y: nat)
    requires a < b <= |s| && Kept(u, s, a) && Kept(u, s, b - 1)
    requires t == s[a..b] && x == |Offsets(u, s, a)| && y == |Offsets(u, s, b)|
    ensures x <= y <= |Norm(u, s)| && Norm(u, s)[x..y] == Norm(u, t)
  {
    PieceOffsets(u, s, a, b, t, |t|);
    OffsetsGrow(u, s, b, |s|);
    OffsetsInRange(u, s, |s|);
    OffsetsInRange(u, t, |t|);
    GlyphsOfPiece(u, s, t, a, Offsets(u, s, |s|), Offsets(u, s, a), Offsets(u, t, |t|), x, y);
  }

  /** A normalized text starts and ends on a word. */
  lemma NormEndsAreKept(u: Unicode, s: string)
    requires Norm(u, s) != ""
    ensures var offs := Offsets(u, s, |s|);
            |offs| == |Norm(u, s)| && Kept(u, s, offs[0]) && Kept(u, s, offs[|offs| - 1])
  {
    var offs := Offsets(u, s, |s|);
    OffsetsInRange(u, s, |s|);
    var first, last := offs[0], offs[|offs| - 1];
    if Separates(u, s, first) {
      assert Emits(u, s, first - 1);
      assert false;
    }
    if Separates(u, s, last) {
      var m :| last < m && Kept(u, s, m);
      assert Emits(u, s, m);
      assert false;
    }
  }

  /** A text normalizes to the same as the span from its first to its last word. */
  lemma TrimmedSpan(u: Unicode, t: string, n: nat) returns (lo: nat, hi: nat)
    requires n == |Norm(u, t)| > 0
    ensures lo < hi <= |t| && Kept(u, t, lo) && Kept(u, t, hi - 1)
    ensures Norm(u, t[lo..hi]) == Norm(u, t)
  {
    NormEndsAreKept(u, t);
    PieceIsSpan(u, t, 0, n);
    WholeSlice(Norm(u, t), n);
    var offs := Offsets(u, t, |t|);
    lo, hi := offs[0], offs[n - 1] + 1;
  }

  lemma WordSpanIsPiece(u: Unicode, s: string, a: nat, t: string, lo: nat, hi: nat) returns (x: nat)
    requires a + |t| <= |s| && t == s[a..a + |t|]
    requires lo < hi <= |t| && Kept(u, t, lo) && Kept(u, t, hi - 1)
    requires Norm(u, t[lo..hi]) == Norm(u, t)
    ensures x + |Norm(u, t)| <= |Norm(u, s)|
    ensures Norm(u, s)[x..x + |Norm(u, t)|] == Norm(u, t)
  {
    SliceOfSlice(s, a, a + |t|, lo, hi);
    assert t[lo] == s[a + lo] && t[hi - 1] == s[a + hi - 1];
    assert Kept(u, s, a + lo) && Kept(u, s, a + hi - 1);
    x := |Offsets(u, s, a + lo)|;
    PieceOfWhole(u, s, a + lo, a + hi, t[lo..hi], x, |Offsets(u, s, a + hi)|);
  }

  /** Normalizing any sub-span gives a contiguous piece of the normalized whole. */
  lemma SubSpanIsPiece(u: Unicode, s: string, a: nat, b: nat) returns (x: nat)
    requires a <= b <= |s|
    ensures x + |Norm(u, s[a..b])| <= |Norm(u, s)|
    ensures Norm(u, s)[x..x + |Norm(u, s[a..b])|] == Norm(u, s[a..b])
  {
    var t := s[a..b];
    if Norm(u, t) == "" {
      x := 0;
    } else {
      var lo, hi := TrimmedSpan(u, t, |Norm(u, t)|);
      x := WordSpanIsPiece(u, s, a, t, lo, hi);
    }
  }

  /** A piece of a normalized text that starts and ends on a word is the normal form of the span it came from. */
  lemma PieceIsSpan(u: Unicode, s: string, x: nat, y: nat)
    requires x < y <= |Norm(u, s)|
    requires Kept(u, s, Offsets(u, s, |s|)[x]) && Kept(u, s, Offsets(u, s, |s|)[y - 1])
    ensures var offs := Offsets(u, s, |s|);
            offs[x] < offs[y - 1] + 1 <= |s| && Norm(u, s[offs[x]..offs[y - 1] + 1]) == Norm(u, s)[x..y]
  {
    var offs := Offsets(u, s, |s|);
    OffsetAt(u, s, y - 1);
    OffsetsRise(u, s, x, y - 1);
    PieceBetween(u, s, x, y, offs[x], offs[y - 1] + 1);
  }

  lemma PieceBetween(u: Unicode, s: string, x: nat, y: nat, a: nat, b: nat)
    requires x < y <= |Offsets(u, s, |s|)| && a < b <= |s| && Kept(u, s, a) && Kept(u, s, b - 1)
    requires Offsets(u, s, |s|)[x] == a && Offsets(u, s, |s|)[y - 1] == b - 1
    ensures y <= |Norm(u, s)| && Norm(u, s[a..b]) == Norm(u, s)[x..y]
  {
    OffsetsBelow(u, s, |s|, x);
    OffsetsBelow(u, s, |s|, y - 1);
    PieceOfWhole(u, s, a, b, s[a..b], x, y);
  }

  // ----- spaces of a normalized text -----

  /** In a normalized text the only space is ' ', and it stands for a separator. */
  lemma NormSpaces(u: Unicode, s: string, j: nat)
    requires WellBehaved(u) && j < |Norm(u, s)|
    ensures Space(u, Norm(u, s)[j]) <==> Norm(u, s)[j] == ' '
    ensures Norm(u, s)[j] == ' ' <==> !Kept(u, s, Offsets(u, s, |s|)[j])
    ensures Norm(u, s)[j] != ' ' ==> Fold(u, Norm(u, s)[j]) == Norm(u, s)[j]
  {
    OffsetAt(u, s, j);
    var r := s[Offsets(u, s, |s|)[j]];
    assert !Typographic(Ascii(r));
    assert !Typographic(u.toLower(Ascii(r)));
    assert Ascii(u.toLower(Ascii(r))) == u.toLower(Ascii(r));
    assert Ascii(' ') == ' ';
  }

  /** The offset before a separator's is the word rune before it; the one after is not a separator. */
  lemma SeparatorNeighbours(u: Unicode, s: string, j: nat)
    requires j < |Offsets(u, s, |s|)| && !Kept(u, s, Offsets(u, s, |s|)[j])
    ensures 0 < j < |Offsets(u, s, |s|)| - 1
    ensures Kept(u, s, Offsets(u, s, |s|)[j - 1]) && Kept(u, s, Offsets(u, s, |s|)[j + 1])
    ensures Offsets(u, s, |s|)[j - 1] + 1 == Offsets(u, s, |s|)[j]
  {
    var offs := Offsets(u, s, |s|);
    OffsetsInRange(u, s, |s|);
    var k := offs[j];
    var m :| k < m && Kept(u, s, m);
    assert Emits(u, s, m) && m in offs;
    assert Emits(u, s, k - 1) && k - 1 in offs;
    assert offs[j - 1] == k - 1;
    var k' := offs[j + 1];
    if !Kept(u, s, k') {
      assert Emits(u, s, k' - 1);
      assert false;
    }
  }

  /** A space of a normalized text stands between two words. */
  lemma NormSpaceIsBetweenWords(u: Unicode, s: string, j: nat)
    requires WellBehaved(u) && j < |Norm(u, s)| && Norm(u, s)[j] == ' '
    ensures 0 < j < |Norm(u, s)| - 1
    ensures Norm(u, s)[j - 1] != ' ' && Norm(u, s)[j + 1] != ' '
  {
    NormSpaces(u, s, j);
    SeparatorNeighbours(u, s, j);
    NormSpaces(u, s, j - 1);
    NormSpaces(u, s, j + 1);
  }

  /** Normalizing twice is normalizing once. */
  lemma NormIsIdempotent(u: Unicode, s: string)
    requires WellBehaved(u)
    ensures Norm(u, Norm(u, s)) == Norm(u, s)
  {
    var q := Norm(u, s);
    forall j: nat | j < |q| ensures Emits(u, q, j) && Glyph(u, q[j]) == q[j] {
      NormSpaces(u, s, j);
      if q[j] == ' ' {
        NormSpaceIsBetweenWords(u, s, j);
        NormSpaces(u, s, j - 1);
        NormSpaces(u, s, j + 1);
        assert Kept(u, q, j + 1);
      }
    }
    AllEmitted(u, q, |q|);
  }

  lemma {:induction false} AllEmitted(u: Unicode, q: string, n: nat)
    requires forall j: nat :: j < n ==> Emits(u, q, j)
    ensures Offsets(u, q, n) == seq(n, i => i)
  {
    if n > 0 {
      AllEmitted(u, q, n - 1);
    }
  }

  // ----- the same meaning as words joined by spaces -----

  /** The length of the word or of the space run that `s` starts with. */
  function WordLength(u: Unicode, s: string): (n: nat)
    ensures n <= |s|
    ensures forall i :: 0 <= i < n ==> !Space(u, s[i])
    ensures n < |s| ==> Space(u, s[n])
  {
    if s == "" || Space(u, s[0]) then 0 else 1 + WordLength(u, s[1..])
  }

  /** The folded maximal runs of non-space runes. */
  function Words(u: Unicode, s: string): seq<string>
    decreases |s|
  {
    if s == "" then []
    else if Space(u, s[0]) then Words(u, s[1..])
    else
      var n := WordLength(u, s);
      [FoldAll(u, s[..n])] + Words(u, s[n..])
  }

  function Join(words: seq<string>): string {
    if words == [] then "" else if |words| == 1 then words[0] else words[0] + " " + Join(words[1..])
  }

  /** A text whose offsets end with those of a suffix normalizes to those glyphs and that suffix's. */
  lemma NormFromOffsets(u: Unicode, s: string, d: nat)
    requires d <= |s|
    requires Offsets(u, s, |s|) == Offsets(u, s, d) + Shift(Offsets(u, s[d..], |s| - d), d)
    ensures forall j :: 0 <= j < |Offsets(u, s, d)| ==> Offsets(u, s, d)[j] < |s|
    ensures Norm(u, s) == Glyphs(u, s, Offsets(u, s, d)) + Norm(u, s[d..])
  {
    OffsetsInRange(u, s, d);
    OffsetsInRange(u, s[d..], |s| - d);
    GlyphsConcat(u, s, s[d..], d, Offsets(u, s, d), Offsets(u, s[d..], |s| - d));
  }

  lemma GlyphsConcat(u: Unicode, s: string, t: string, d: nat, head: seq<nat>, tail: seq<nat>)
    requires d + |t| <= |s| && t == s[d..d + |t|]
    requires forall j :: 0 <= j < |head| ==> head[j] < |s|
    requires forall j :: 0 <= j < |tail| ==> tail[j] < |t|
    ensures forall j :: 0 <= j < |head + Shift(tail, d)| ==> (head + Shift(tail, d))[j] < |s|
    ensures Glyphs(u, s, head + Shift(tail, d)) == Glyphs(u, s, head) + Glyphs(u, t, tail)
  {
  }

  /** After a space, a suffix emits what the whole emits there. */
  lemma TailEmits(u: Unicode, s: string, d: nat, k: nat)
    requires 0 < d <= |s| && Space(u, s[d - 1]) && k < |s| - d
    ensures Emits(u, s[d..], k) <==> Emits(u, s, d + k)
  {
    var t := s[d..];
    assert t[k] == s[d + k];
    if Separates(u, s, d + k) {
      var m :| d + k < m && Kept(u, s, m);
      assert Kept(u, t, m - d);
    }
    if Separates(u, t, k) {
      var m :| k < m && Kept(u, t, m);
      assert Kept(u, s, m + d);
    }
  }

  /** Cutting a text just after a space cuts its normal form there too. */
  lemma NormCutAfterSpace(u: Unicode, s: string, d: nat)
    requires 0 < d <= |s| && Space(u, s[d - 1])
    ensures forall j :: 0 <= j < |Offsets(u, s, d)| ==> Offsets(u, s, d)[j] < |s|
    ensures Norm(u, s) == Glyphs(u, s, Offsets(u, s, d)) + Norm(u, s[d..])
  {
    TailOffsets(u, s, d);
    NormFromOffsets(u, s, d);
  }

  lemma TailOffsets(u: Unicode, s: string, d: nat)
    requires 0 < d <= |s| && Space(u, s[d - 1])
    ensures Offsets(u, s, |s|) == Offsets(u, s, d) + Shift(Offsets(u, s[d..], |s| - d), d)
  {
    forall k: nat | k < |s| - d ensures EmitsAlike(u, s, s[d..], d, k) {
      TailEmits(u, s, d, k);
    }
    OffsetsAgree(u, s, s[d..], d, |s| - d);
  }

  lemma NormSkipsLeadingSpace(u: Unicode, s: string)
    requires s != "" && Space(u, s[0])
    ensures Norm(u, s) == Norm(u, s[1..])
  {
    NormCutAfterSpace(u, s, 1);
    assert !Emits(u, s, 0);
    assert Offsets(u, s, 0) == [] && Offsets(u, s, 1) == [];
  }

  lemma {:induction false} WordsEmptyMeansNoneKept(u: Unicode, s: string)
    ensures Words(u, s) == [] <==> forall k: nat :: !Kept(u, s, k)
    decreases |s|
  {
    if s != "" {
      if Space(u, s[0]) {
        WordsEmptyMeansNoneKept(u, s[1..]);
        forall k: nat | Kept(u, s, k) ensures Kept(u, s[1..], k - 1) {}
        forall k: nat | Kept(u, s[1..], k) ensures Kept(u, s, k + 1) {}
      } else {
        assert Kept(u, s, 0);
      }
    }
  }

  lemma LeadingWordEmitted(u: Unicode, s: string, n: nat)
    requires n <= WordLength(u, s)
    ensures Offsets(u, s, n) == seq(n, i => i)
  {
    forall j: nat | j < n ensures Emits(u, s, j) { assert Kept(u, s, j); }
    AllEmitted(u, s, n);
  }

  lemma NormOfOnlyWord(u: Unicode, s: string, n: nat)
    requires n == WordLength(u, s) && Words(u, s[n..]) == []
    ensures Norm(u, s) == FoldAll(u, s[..n])
  {
    LeadingWordEmitted(u, s, n);
    WordsEmptyMeansNoneKept(u, s[n..]);
    forall m: nat | n <= m ensures !Kept(u, s, m) {
      assert !Kept(u, s[n..], m - n);
    }
    OffsetsSilent(u, s, n, |s|);
  }

  /** A first word followed by another is emitted together with one space. */
  lemma LeadingWordSeparated(u: Unicode, s: string, n: nat)
    requires 0 < n == WordLength(u, s) && Words(u, s[n..]) != []
    ensures n < |s| && Space(u, s[n])
    ensures Offsets(u, s, n + 1) == seq(n, i => i) + [n]
  {
    LeadingWordEmitted(u, s, n);
    WordsEmptyMeansNoneKept(u, s[n..]);
    var m: nat :| Kept(u, s[n..], m);
    assert Kept(u, s, n + m) && Kept(u, s, n - 1);
    assert n < |s| && n < n + m;
    assert Separates(u, s, n);
  }

  lemma NormOfLeadingWord(u: Unicode, s: string, n: nat)
    requires 0 < n == WordLength(u, s) && Words(u, s[n..]) != []
    ensures Norm(u, s) == FoldAll(u, s[..n]) + " " + Norm(u, s[n..])
  {
    LeadingWordSeparated(u, s, n);
    NormCutAfterSpace(u, s, n + 1);
    SuffixShrinks(s, n, n + 1);
    NormSkipsLeadingSpace(u, s[n..]);
    WordsAreKept(u, s, n);
    GlyphsOfWord(u, s, n);
  }

  lemma WordsAreKept(u: Unicode, s: string, n: nat)
    requires n <= WordLength(u, s)
    ensures forall j :: 0 <= j < n ==> Kept(u, s, j)
  {
  }

  lemma GlyphsOfWord(u: Unicode, s: string, n: nat)
    requires n < |s| && Space(u, s[n]) && forall j :: 0 <= j < n ==> Kept(u, s, j)
    ensures Glyphs(u, s, seq(n, i => i) + [n]) == FoldAll(u, s[..n]) + " "
  {
    var all := seq(n, i => i) + [n];
    forall j | 0 <= j <= n ensures Glyphs(u, s, all)[j] == (FoldAll(u, s[..n]) + " ")[j] {
      assert all[j] == j && (j < n ==> Kept(u, s, j) && s[..n][j] == s[j]);
    }
  }

  /** The normal form is the folded words joined by single spaces. */
  lemma {:induction false} NormIsJoinedWords(u: Unicode, s: string)
    ensures Norm(u, s) == Join(Words(u, s))
    decreases |s|
  {
    if s == "" {
    } else if Space(u, s[0]) {
      NormSkipsLeadingSpace(u, s);
      NormIsJoinedWords(u, s[1..]);
    } else {
      var n := WordLength(u, s);
      if Words(u, s[n..]) == [] {
        NormOfOnlyWord(u, s, n);
      } else {
        NormOfLeadingWord(u, s, n);
      }
      NormIsJoinedWords(u, s[n..]);
      assert Words(u, s) == [FoldAll(u, s[..n])] + Words(u, s[n..]);
      assert Words(u, s)[1..] == Words(u, s[n..]);
    }
  }

  // ----- the loop -----

  /** [p, i) is the run of spaces, possibly empty, that ends just before `i`. */
  ghost predicate SpaceRun(u: Unicode, s: string, p: nat, i: nat) {
    p <= i <= |s| && (forall k :: p <= k < i ==> Space(u, s[k])) && (p > 0 ==> !Space(u, s[p - 1]))
  }

  /** A space makes the run one longer, and any other rune ends it. */
  lemma RunContinues(u: Unicode, s: string, p: nat, i: nat, i': nat)
    requires i' == i + 1 <= |s| && SpaceRun(u, s, p, i)
    ensures SpaceRun(u, s, if Space(u, s[i]) then p else i', i')
  {
  }

  /** Reading one more space emits nothing yet. */
  lemma SpaceEmitsNothing(u: Unicode, s: string, i: nat)
    requires i < |s| && Space(u, s[i])
    ensures Offsets(u, s[..i + 1], i + 1) == Offsets(u, s[..i], i)
  {
    var t, t' := s[..i], s[..i + 1];
    forall k: nat | k < i ensures EmitsAlike(u, t', t, 0, k) {
      forall m: nat ensures Kept(u, t, m) <==> Kept(u, t', m) {}
    }
    OffsetsAgree(u, t', t, 0, i);
    assert Shift(Offsets(u, t, i), 0) == Offsets(u, t, i);
    assert !Emits(u, t', i);
  }

  /** Up to the last word rune before a run of spaces, one rune more changes nothing. */
  lemma PrefixEmitsSame(u: Unicode, s: string, i: nat, p: nat)
    requires i < |s| && SpaceRun(u, s, p, i)
    ensures Offsets(u, s[..i + 1], p) == Offsets(u, s[..i], p)
  {
    var t, t' := s[..i], s[..i + 1];
    forall k: nat | k < p ensures EmitsAlike(u, t', t, 0, k) {
      BeforeSpaces(u, s, i, i + 1, p, k);
    }
    OffsetsAgree(u, t', t, 0, p);
    assert Shift(Offsets(u, t, p), 0) == Offsets(u, t, p);
  }

  lemma BeforeSpaces(u: Unicode, s: string, i: nat, i': nat, p: nat, k: nat)
    requires i <= i' <= |s| && SpaceRun(u, s, p, i) && k < p
    ensures Emits(u, s[..i], k) <==> Emits(u, s[..i'], k)
  {
    var t, t' := s[..i], s[..i'];
    assert t[p - 1] == t'[p - 1] == s[p - 1];
    assert Kept(u, t, p - 1) && Kept(u, t', p - 1);
    assert t[k] == t'[k];
    if k > 0 {
      assert t[k - 1] == t'[k - 1];
    }
  }

  /** Reading a word rune emits the separator that was waiting, if there is one, and the rune. */
  lemma RuneEmits(u: Unicode, s: string, i: nat, p: nat)
    requires i < |s| && !Space(u, s[i]) && SpaceRun(u, s, p, i)
    ensures Offsets(u, s[..i + 1], i + 1)
         == Offsets(u, s[..i], i) + (if 0 < p < i then [p] else []) + [i]
  {
    var t, t' := s[..i], s[..i + 1];
    assert Kept(u, t', i);
    PrefixEmitsSame(u, s, i, p);
    OffsetsSilent(u, t, p, i);
    if p < i {
      assert Emits(u, t', p) <==> 0 < p;
      OffsetsSilent(u, t', p + 1, i);
    }
  }

  /** Before a trailing run of spaces something was emitted, unless the run starts the text. */
  lemma NothingEmittedYet(u: Unicode, s: string, i: nat, p: nat)
    requires SpaceRun(u, s, p, i)
    ensures Offsets(u, s[..i], i) == [] <==> p == 0
  {
    OffsetsInRange(u, s[..i], i);
    if p > 0 {
      assert Kept(u, s[..i], p - 1) && Emits(u, s[..i], p - 1);
    } else {
      forall k: nat ensures !Emits(u, s[..i], k) {
        assert !Kept(u, s[..i], k);
      }
      OffsetsSilent(u, s[..i], 0, i);
    }
  }
}
