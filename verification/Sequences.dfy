/** Facts about sequences that more than one model needs, kept apart so that their proofs see nothing else. */
module Sequences {
  lemma ConcatIsAssociative<T>(a: seq<T>, b: seq<T>, c: seq<T>)
    ensures a + b + c == a + (b + c)
  {
  }

  lemma HeadAndTail<T>(s: seq<T>)
    requires s != []
    ensures s == [s[0]] + s[1..]
  {
  }

  /** What is left of a concatenation without its first element. */
  lemma TailOfConcat<T>(a: seq<T>, b: seq<T>)
    requires a != []
    ensures (a + b)[0] == a[0] && (a + b)[1..] == a[1..] + b
  {
  }

  /** A concatenation cut where its parts meet. */
  lemma PartsOfConcat<T>(a: seq<T>, b: seq<T>)
    ensures (a + b)[..|a|] == a && (a + b)[|a|..] == b
  {
  }

  lemma ConcatNothing<T>(s: seq<T>)
    ensures [] + s == s && s + [] == s
  {
  }

  lemma InitAndLast<T>(s: seq<T>)
    requires s != []
    ensures s == s[..|s| - 1] + [s[|s| - 1]]
  {
  }

  lemma PrefixAndRest<T>(a: seq<T>, s: seq<T>)
    requires a <= s
    ensures s == a + s[|a|..]
  {
  }

  lemma EqualSnocs<T>(a: seq<T>, x: T, b: seq<T>, y: T)
    requires a + [x] == b + [y]
    ensures a == b && x == y
  {
    assert (a + [x])[..|a|] == a && (b + [y])[..|b|] == b;
    assert (a + [x])[|a|] == x && (b + [y])[|b|] == y;
  }

  /** What is left of a concatenation without its last element. */
  lemma InitOfConcat<T>(a: seq<T>, b: seq<T>)
    requires b != []
    ensures (a + b)[..|a + b| - 1] == a + b[..|b| - 1] && (a + b)[|a + b| - 1] == b[|b| - 1]
  {
  }

  /** A prefix of a concatenation that ends in its first part. */
  lemma PrefixInFirst<T>(a: seq<T>, b: seq<T>, n: nat)
    requires n <= |a|
    ensures (a + b)[..n] == a[..n]
  {
  }

  /** A prefix of a concatenation that ends `n` elements into its second part. */
  lemma PrefixInSecond<T>(a: seq<T>, b: seq<T>, n: nat)
    requires n <= |b|
    ensures (a + b)[..|a| + n] == a + b[..n]
  {
  }

  lemma PrefixOfPrefix<T>(s: seq<T>, n: nat, m: nat)
    requires m <= n <= |s|
    ensures s[..n][..m] == s[..m]
  {
  }

  /** The suffix that is one shorter. */
  lemma SuffixShrinks<T>(s: seq<T>, n: nat, n': nat)
    requires n' == n + 1 <= |s|
    ensures s[n..] != [] && s[n..][0] == s[n] && s[n..][1..] == s[n'..]
  {
  }

  lemma SuffixOfSuffix<T>(s: seq<T>, n: nat, m: nat)
    requires n + m <= |s|
    ensures s[n..][m..] == s[n + m..]
  {
  }

  lemma PrefixOfSuffix<T>(s: seq<T>, start: nat, end: nat)
    requires start <= end <= |s|
    ensures s[start..][..end - start] == s[start..end]
  {
  }

  /** The prefix that is one longer. */
  lemma PrefixGrows<T>(s: seq<T>, n: nat, n': nat)
    requires n' == n + 1 <= |s|
    ensures s[..n'] == s[..n] + [s[n]]
  {
  }

  /** The slice that is one longer. */
  lemma SliceGrows<T>(s: seq<T>, start: nat, end: nat, end': nat)
    requires start <= end && end' == end + 1 <= |s|
    ensures s[start..end'] == s[start..end] + [s[end]]
  {
  }

  /** One sequence starts another exactly when their heads agree and its tail starts the other's tail. */
  lemma PrefixOfTails<T>(a: seq<T>, b: seq<T>)
    requires a != [] && b != [] && a[0] == b[0]
    ensures a <= b <==> a[1..] <= b[1..]
    ensures a <= b ==> b[1..][|a| - 1..] == b[|a|..]
  {
    HeadAndTail(a);
    HeadAndTail(b);
  }

  lemma WholeSlice<T>(s: seq<T>, n: nat)
    requires n == |s|
    ensures s[0..n] == s && s[..n] == s && s[n..] == []
  {
  }

  lemma SliceOfSlice<T>(s: seq<T>, a: nat, b: nat, lo: nat, hi: nat)
    requires lo <= hi && a + hi <= b <= |s|
    ensures s[a..b][lo..hi] == s[a + lo..a + hi]
  {
    var x, y := s[a..b][lo..hi], s[a + lo..a + hi];
    assert |x| == |y|;
    forall i | 0 <= i < |x| ensures x[i] == y[i] {
      assert x[i] == s[a..b][lo + i] == s[a + lo + i];
    }
  }

  lemma SuffixOfSlice<T>(s: seq<T>, a: nat, b: nat, k: nat)
    requires a + k <= b <= |s|
    ensures s[a..b][k..] == s[a + k..b]
  {
  }

  /** The images of the elements, one after the other. */
  function FlatMap<S, T>(f: S -> seq<T>, s: seq<S>): seq<T> {
    if s == [] then [] else f(s[0]) + FlatMap(f, s[1..])
  }

  lemma {:induction false} FlatMapConcat<S, T>(f: S -> seq<T>, a: seq<S>, b: seq<S>)
    ensures FlatMap(f, a + b) == FlatMap(f, a) + FlatMap(f, b)
  {
    if a == [] {
      assert a + b == b;
    } else {
      FlatMapConcat(f, a[1..], b);
      TailOfConcat(a, b);
      ConcatIsAssociative(f(a[0]), FlatMap(f, a[1..]), FlatMap(f, b));
    }
  }

  lemma FlatMapOne<S, T>(f: S -> seq<T>, x: S)
    ensures FlatMap(f, [x]) == f(x)
  {
    assert FlatMap(f, [x][1..]) == [];
  }

  lemma FlatMapSnoc<S, T>(f: S -> seq<T>, s: seq<S>, x: S)
    ensures FlatMap(f, s + [x]) == FlatMap(f, s) + f(x)
  {
    FlatMapConcat(f, s, [x]);
    FlatMapOne(f, x);
  }
}
