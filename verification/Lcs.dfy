/**
 The two searches of the citation oracle: the plain scan for a whole quote and the rolling-row
 longest common substring, with the lemma that ties one to the other.
 */
module Lcs {
  import opened Strings
  import opened Sequences

  /** The least index at which `needle` occurs; -1 when it is empty or does not occur. */
  method IndexRunes(hay: string, needle: string) returns (idx: int)
    ensures needle == "" || !Occurs(hay, needle) ==> idx == -1
    ensures needle != "" && Occurs(hay, needle) ==> At(hay, needle, idx)
    ensures forall i :: 0 <= i < idx ==> !At(hay, needle, i)
  {
    if |needle| == 0 || |needle| > |hay| {
      return -1;
    }
    var i := 0;
    while i + |needle| <= |hay|
      invariant forall k :: 0 <= k < i ==> !At(hay, needle, k)
    {
      if hay[i] == needle[0] {
        var j := 1;
        while j < |needle| && hay[i + j] == needle[j]
          invariant 1 <= j <= |needle|
          invariant hay[i..i + j] == needle[..j]
        {
          SliceGrows(hay, i, i + j, i + j + 1);
          PrefixGrows(needle, j, j + 1);
          j := j + 1;
        }
        if j == |needle| {
          WholeSlice(needle, j);
          assert At(hay, needle, i);
          return i;
        }
        DiffersAt(hay, needle, i, j);
      } else {
        DiffersAt(hay, needle, i, 0);
      }
      i := i + 1;
    }
    idx := -1;
  }

  lemma DiffersAt(hay: string, needle: string, i: nat, j: nat)
    requires i + |needle| <= |hay| && j < |needle| && hay[i + j] != needle[j]
    ensures !At(hay, needle, i)
  {
    assert hay[i..i + |needle|][j] == hay[i + j];
  }

  // ----- longest common substring -----

  /** A run of `n` runes that `a` has from `x` and `b` has from `y`. */
  ghost predicate Shares(a: string, b: string, x: int, y: int, n: int) {
    0 <= x && 0 <= y && 0 <= n && x + n <= |a| && y + n <= |b| && a[x..x + n] == b[y..y + n]
  }

  /** `n` is the greatest length of a common run, and one such run of `b` ends at `end`. */
  ghost predicate IsLongestShared(a: string, b: string, n: int, end: int) {
    && 0 <= n <= end <= |b|
    && Occurs(a, b[end - n..end])
    && forall x, y, m :: Shares(a, b, x, y, m) ==> m <= n
  }

  /** The length of the longest common run that ends at position `i` of `a` and `j` of `b`. */
  function RunEndingAt(a: string, b: string, i: nat, j: nat): (n: nat)
    requires i <= |a| && j <= |b|
    ensures n <= i && n <= j
  {
    if i == 0 || j == 0 || a[i - 1] != b[j - 1] then 0 else RunEndingAt(a, b, i - 1, j - 1) + 1
  }

  lemma {:induction false} RunIsShared(a: string, b: string, i: nat, j: nat)
    requires i <= |a| && j <= |b|
    ensures var n := RunEndingAt(a, b, i, j); Shares(a, b, i - n, j - n, n)
  {
    var n := RunEndingAt(a, b, i, j);
    if n > 0 {
      RunIsShared(a, b, i - 1, j - 1);
      SliceGrows(a, i - n, i - 1, i);
      SliceGrows(b, j - n, j - 1, j);
    }
  }

  lemma {:induction false} RunIsLongest(a: string, b: string, x: nat, y: nat, n: nat)
    requires Shares(a, b, x, y, n)
    ensures n <= RunEndingAt(a, b, x + n, y + n)
  {
    if n > 0 {
      SliceGrows(a, x, x + n - 1, x + n);
      SliceGrows(b, y, y + n - 1, y + n);
      EqualSnocs(a[x..x + n - 1], a[x + n - 1], b[y..y + n - 1], b[y + n - 1]);
      RunIsLongest(a, b, x, y, n - 1);
    }
  }

  /** The best run among those that end before (i, j): in an earlier row, or earlier in row `i`. */
  ghost predicate Best(a: string, b: string, i: nat, j: nat, n: int, end: int)
    requires i <= |a| && j <= |b| + 1
  {
    && 0 <= n <= end <= |b| && Occurs(a, b[end - n..end])
    && (forall p, k :: 0 <= p < i && 0 <= k <= |b| ==> RunEndingAt(a, b, p, k) <= n)
    && (forall k :: 0 <= k < j ==> RunEndingAt(a, b, i, k) <= n)
  }

  /** Meeting the run that ends at (i, j), which replaces the best one when it is longer. */
  lemma BestMeets(a: string, b: string, i: nat, j: nat, j': nat, n: int, end: int)
    requires 1 <= i <= |a| && 1 <= j <= |b| && j' == j + 1 && Best(a, b, i, j, n, end)
    ensures var m := RunEndingAt(a, b, i, j); if m > n then Best(a, b, i, j', m, j) else Best(a, b, i, j', n, end)
  {
    var m := RunEndingAt(a, b, i, j);
    RunIsShared(a, b, i, j);
    assert At(a, b[j - m..j], i - m);
  }

  lemma BestNextRow(a: string, b: string, i: nat, i': nat, n: int, end: int)
    requires i' == i + 1 <= |a| && Best(a, b, i, |b| + 1, n, end)
    ensures Best(a, b, i', 1, n, end)
  {
  }

  lemma BestIsLongest(a: string, b: string, n: int, end: int)
    requires Best(a, b, |a|, |b| + 1, n, end)
    ensures IsLongestShared(a, b, n, end)
  {
    forall x, y, m | Shares(a, b, x, y, m) ensures m <= n {
      RunIsLongest(a, b, x, y, m);
    }
  }

  /** The row holds the lengths of the runs that end at position `i` of `a`. */
  ghost predicate IsRow(a: string, b: string, i: nat, row: seq<nat>, upTo: nat)
    requires i <= |a| && upTo <= |b| + 1
  {
    |row| == |b| + 1 && forall k :: 0 <= k < upTo ==> row[k] == RunEndingAt(a, b, i, k)
  }

  /** The two rows are swapped after each rune of `a` and never cleared. */
  method LongestCommonSubstring(a: string, b: string) returns (bestLen: int, bestEnd: int)
    ensures IsLongestShared(a, b, bestLen, bestEnd)
    ensures a == "" || b == "" ==> bestEnd == 0
  {
    bestLen, bestEnd := 0, 0;
    assert At(a, b[0..0], 0);
    if a == "" || b == "" {
      return;
    }
    var prev := new nat[|b| + 1](_ => 0);
    var cur := new nat[|b| + 1](_ => 0);
    for i := 1 to |a| + 1
      invariant prev != cur && fresh(prev) && fresh(cur) && cur.Length == |b| + 1 && cur[0] == 0
      invariant IsRow(a, b, i - 1, prev[..], |b| + 1)
      invariant Best(a, b, i - 1, |b| + 1, bestLen, bestEnd)
    {
      BestNextRow(a, b, i - 1, i, bestLen, bestEnd);
      bestLen, bestEnd := FillRow(a, b, i, prev, cur, bestLen, bestEnd);
      prev, cur := cur, prev;
    }
    BestIsLongest(a, b, bestLen, bestEnd);
  }

  /** One row of the table, from the row before it. */
  method FillRow(a: string, b: string, i: nat, prev: array<nat>, cur: array<nat>, len: int, end: int)
    returns (bestLen: int, bestEnd: int)
    requires 1 <= i <= |a| && prev != cur && cur.Length == |b| + 1 && cur[0] == 0
    requires IsRow(a, b, i - 1, prev[..], |b| + 1) && Best(a, b, i, 1, len, end)
    modifies cur
    ensures cur[0] == 0 && IsRow(a, b, i, cur[..], |b| + 1)
    ensures Best(a, b, i, |b| + 1, bestLen, bestEnd)
  {
    bestLen, bestEnd := len, end;
    for j := 1 to |b| + 1
      invariant cur[0] == 0 && IsRow(a, b, i, cur[..], j)
      invariant Best(a, b, i, j, bestLen, bestEnd)
    {
      BestMeets(a, b, i, j, j + 1, bestLen, bestEnd);
      assert prev[..][j - 1] == prev[j - 1];
      if a[i - 1] == b[j - 1] {
        cur[j] := prev[j - 1] + 1;
        if cur[j] > bestLen {
          bestLen := cur[j];
          bestEnd := j;
        }
      } else {
        cur[j] := 0;
      }
    }
  }

  /** A quote occurs in a text exactly when the longest run they share is the whole quote. */
  lemma OccursIffWholeIsShared(quote: string, text: string, n: int, end: int)
    requires IsLongestShared(quote, text, n, end)
    ensures Occurs(text, quote) <==> n == |quote|
  {
    if Occurs(text, quote) {
      var i :| At(text, quote, i);
      assert quote[0..|quote|] == quote;
      assert Shares(quote, text, 0, i, |quote|);
      var j :| At(quote, text[end - n..end], j);
    }
    if n == |quote| {
      var j :| At(quote, text[end - n..end], j);
      assert quote[0..|quote|] == quote;
      assert At(text, quote, end - n);
    }
  }
}
