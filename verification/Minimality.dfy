/** How few lines a script can delete: the hunks of a longest match delete as few as any hunks that turn the
    first file into the second. */
module Minimality {
  import opened CommonSubsequence
  import opened Hunks

  /** Lines of the first file that the hunks delete or change. */
  function Deleted(hs: seq<Hunk>): int {
    if hs == [] then 0 else hs[0].b - hs[0].a + 1 + Deleted(hs[1..])
  }

  /** Lines of the second file that the hunks add. */
  function Added(hs: seq<Hunk>): int {
    if hs == [] then 0 else hs[0].d - hs[0].c + 1 + Added(hs[1..])
  }

  lemma {:induction false} DeletedCons(h: Hunk, hs: seq<Hunk>)
    requires h.a - 1 <= h.b && h.c - 1 <= h.d
    ensures Deleted(NonEmpty(h) + hs) == h.b - h.a + 1 + Deleted(hs)
  {
    if h.Empty() {
      assert NonEmpty(h) + hs == hs;
    } else {
      assert ([h] + hs)[1..] == hs;
    }
  }

  /** Deleting and adding differ by the difference in length. */
  lemma {:induction false} Balance<T>(hs: seq<Hunk>, x: nat, y: nat, A: seq<T>, B: seq<T>)
    requires x <= |A| && y <= |B| && Covers(hs, x, y, A, B)
    ensures (|A| - x) - Deleted(hs) == (|B| - y) - Added(hs)
  {
    if hs == [] {
      assert |A[x..]| == |B[y..]|;
    } else {
      assert |A[x..hs[0].a - 1]| == |B[y..hs[0].c - 1]|;
      Balance(hs[1..], hs[0].b, hs[0].d, A, B);
    }
  }

  /** The lines that hunks leave alone are a common subsequence. */
  lemma {:induction false} CommonLines<T>(hs: seq<Hunk>, x: nat, y: nat, A: seq<T>, B: seq<T>) returns (q: seq<Pair>)
    requires x <= |A| && y <= |B| && Covers(hs, x, y, A, B)
    ensures Chain(q, A, B) && |q| == |A| - x - Deleted(hs)
    ensures forall t :: 0 <= t < |q| ==> q[t].x > x && q[t].y > y
  {
    if hs == [] {
      assert |A[x..]| == |B[y..]|;
      q := Diagonal(|A| - x, x, y);
      DiagonalChain(A, B, |A| - x, x, y);
    } else {
      var h := hs[0];
      var n := h.a - 1 - x;
      assert |A[x..h.a - 1]| == |B[y..h.c - 1]|;
      var rest := CommonLines(hs[1..], h.b, h.d, A, B);
      var front := Diagonal(n, x, y);
      DiagonalChain(A, B, n, x, y);
      ChainAppend(front, rest, A, B, h.a - 1, h.c - 1);
      q := front + rest;
    }
  }

  /** Matched lines after line p. */
  ghost function MatchedAfter(J: seq<int>, m: nat, p: nat): int
    requires m < |J| && p <= m
    decreases m - p
  {
    if p == m then 0 else (if J[p + 1] != 0 then 1 else 0) + MatchedAfter(J, m, p + 1)
  }

  lemma {:induction false} MatchedCount(J: seq<int>, m: nat, p: nat)
    requires m < |J| && p <= m
    ensures |PairsOf(J, m)| == |PairsOf(J, p)| + MatchedAfter(J, m, p)
    decreases m - p
  {
    if p < m {
      MatchedCount(J, m, p + 1);
    }
  }

  lemma {:induction false} NoneMatched(J: seq<int>, m: nat, p: nat, q: nat)
    requires m < |J| && p <= q <= m && forall x :: p < x <= q ==> J[x] == 0
    ensures MatchedAfter(J, m, p) == MatchedAfter(J, m, q)
    decreases q - p
  {
    if p < q {
      NoneMatched(J, m, p + 1, q);
    }
  }

  /** The hunks of a match vector delete exactly the unmatched lines. */
  lemma {:induction false} DeletedUnmatched(J: seq<int>, m: nat, n: nat, p: nat)
    requires Bracketed(J, m, n) && p <= m && Anchor(J, m, p)
    ensures Deleted(HunksFrom(J, m, p)) == m - p - MatchedAfter(J, m, p)
    decreases m - p
  {
    hide Increasing, MatchedAfter, Deleted;
    var q := Next(J, m, p + 1);
    AnchorsAscend(J, m, n, p, q);
    DeletedCons(Between(J, p, q), HunksFrom(J, m, q));
    if q <= m {
      DeletedUnmatched(J, m, n, q);
      NoneMatched(J, m, p, q - 1);
      OneMatched(J, m, q - 1);
    } else {
      NoneMatched(J, m, p, m);
      AllMatched(J, m);
      DeletedNone();
    }
  }

  lemma DeletedNone()
    ensures Deleted([]) == 0
  {
  }

  lemma OneMatched(J: seq<int>, m: nat, p: nat)
    requires m < |J| && p < m && J[p + 1] != 0
    ensures MatchedAfter(J, m, p) == 1 + MatchedAfter(J, m, p + 1)
  {
  }

  lemma AllMatched(J: seq<int>, m: nat)
    requires m < |J|
    ensures MatchedAfter(J, m, m) == 0
  {
  }

  /** With a longest match, no hunks that turn A into B delete or add fewer lines. */
  lemma {:induction false} FewestChanges<T>(J: seq<int>, A: seq<T>, B: seq<T>, hs: seq<Hunk>, other: seq<Hunk>)
    requires Bracketed(J, |A|, |B|) && Longest(PairsOf(J, |A|), A, B)
    requires hs == HunksFrom(J, |A|, 0) && Covers(hs, 0, 0, A, B)
    requires Covers(other, 0, 0, A, B)
    ensures Deleted(hs) <= Deleted(other) && Added(hs) <= Added(other)
  {
    DeletedUnmatched(J, |A|, |B|, 0);
    MatchedCount(J, |A|, 0);
    var q := CommonLines(other, 0, 0, A, B);
    Balance(hs, 0, 0, A, B);
    Balance(other, 0, 0, A, B);
  }
}
