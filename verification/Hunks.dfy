/** output: the walks that turn the match vector J into hunks. Lines are numbered from 1; J[0] == 0 and
    J[m+1] == n+1 bracket the vector. */
module Hunks {
  import opened CommonSubsequence

  /** Lines a..b of the first file become lines c..d of the second; a == b+1 or c == d+1 for an empty side. */
  datatype Hunk = Hunk(a: int, b: int, c: int, d: int) {
    /** The calls on which change returns at once. */
    predicate Empty() { a > b && c > d }
  }

  ghost predicate Bracketed(J: seq<int>, m: nat, n: nat) {
    && Increasing(J, m, n)
    && m + 1 < |J|
    && J[0] == 0 && J[m + 1] == n + 1
  }

  /** Positions where both files are in step: the brackets and the matched lines. */
  ghost predicate Anchor(J: seq<int>, m: nat, p: int)
    requires m + 1 < |J|
  {
    p == 0 || p == m + 1 || (1 <= p <= m && J[p] != 0)
  }

  /** The first anchor at or after p. */
  ghost function Next(J: seq<int>, m: nat, p: nat): (q: nat)
    requires m + 1 < |J| && 1 <= p <= m + 1
    ensures p <= q <= m + 1 && Anchor(J, m, q)
    ensures forall x :: p <= x < q ==> J[x] == 0
    decreases m + 1 - p
  {
    if p == m + 1 || J[p] != 0 then p else Next(J, m, p + 1)
  }

  function NonEmpty(h: Hunk): seq<Hunk> {
    if h.Empty() then [] else [h]
  }

  /** The hunk between two neighbouring anchors. */
  function Between(J: seq<int>, p: nat, q: nat): Hunk
    requires p < |J| && q < |J|
  {
    Hunk(p + 1, q - 1, J[p] + 1, J[q] - 1)
  }

  /** The hunks after anchor p, in order. */
  ghost function HunksFrom(J: seq<int>, m: nat, p: nat): seq<Hunk>
    requires m + 1 < |J| && p <= m + 1
    decreases m + 1 - p
  {
    if p == m + 1 then []
    else var q := Next(J, m, p + 1); NonEmpty(Between(J, p, q)) + HunksFrom(J, m, q)
  }

  /** hs turns what is left of A after x lines into what is left of B after y lines: the lines between two
      hunks are common to both files, every hunk is within range and changes something. */
  ghost predicate Covers<T>(hs: seq<Hunk>, x: nat, y: nat, A: seq<T>, B: seq<T>)
    requires x <= |A| && y <= |B|
  {
    if hs == [] then A[x..] == B[y..]
    else
      var h := hs[0];
      && x < h.a <= h.b + 1 <= |A| + 1
      && y < h.c <= h.d + 1 <= |B| + 1
      && !h.Empty()
      && A[x..h.a - 1] == B[y..h.c - 1]
      && Covers(hs[1..], h.b, h.d, A, B)
  }

  lemma {:induction false} CoversEarlier<T>(hs: seq<Hunk>, x: nat, y: nat, A: seq<T>, B: seq<T>)
    requires x < |A| && y < |B| && A[x] == B[y]
    requires Covers(hs, x + 1, y + 1, A, B)
    ensures Covers(hs, x, y, A, B)
  {
    if hs == [] {
      assert A[x..] == [A[x]] + A[x + 1..] && B[y..] == [B[y]] + B[y + 1..];
    } else {
      var h := hs[0];
      assert A[x..h.a - 1] == [A[x]] + A[x + 1..h.a - 1];
      assert B[y..h.c - 1] == [B[y]] + B[y + 1..h.c - 1];
    }
  }

  /** A hunk that starts right after the position, or nothing when it is empty. */
  lemma {:induction false} CoversHunk<T>(h: Hunk, rest: seq<Hunk>, x: nat, y: nat, A: seq<T>, B: seq<T>)
    requires h.a == x + 1 && h.c == y + 1
    requires x <= h.b <= |A| && y <= h.d <= |B|
    requires Covers(rest, h.b, h.d, A, B)
    ensures Covers(NonEmpty(h) + rest, x, y, A, B)
  {
    if h.Empty() {
      assert NonEmpty(h) + rest == rest;
    } else {
      var hs := NonEmpty(h) + rest;
      assert hs[0] == h && hs[1..] == rest;
      assert A[x..h.a - 1] == [] && B[y..h.c - 1] == [];
    }
  }

  /** J pairs equal lines only. */
  ghost predicate PairsEqual<T>(J: seq<int>, A: seq<T>, B: seq<T>)
    requires Increasing(J, |A|, |B|)
  {
    forall i :: 1 <= i <= |A| && J[i] != 0 ==> A[i - 1] == B[J[i] - 1]
  }

  lemma PairAt<T>(J: seq<int>, A: seq<T>, B: seq<T>, q: nat)
    requires Increasing(J, |A|, |B|) && PairsEqual(J, A, B) && 1 <= q <= |A| && J[q] != 0
    ensures 1 <= J[q] <= |B| && A[q - 1] == B[J[q] - 1]
  {
  }

  lemma AnchorsAscend(J: seq<int>, m: nat, n: nat, p: nat, q: nat)
    requires Bracketed(J, m, n) && p < q <= m + 1 && Anchor(J, m, p) && Anchor(J, m, q)
    ensures 0 <= J[p] < J[q] <= n + 1
    ensures q <= m ==> J[q] <= n && J[q] != 0
  {
  }

  /** The hunks of a match vector that pairs equal lines patch the first file into the second. */
  lemma {:induction false} HunksCover<T>(J: seq<int>, m: nat, p: nat, A: seq<T>, B: seq<T>)
    requires m == |A| && Bracketed(J, m, |B|) && p <= m && Anchor(J, m, p)
    requires PairsEqual(J, A, B)
    ensures 0 <= J[p] <= |B| && Covers(HunksFrom(J, m, p), p, J[p], A, B)
    decreases m - p
  {
    hide PairsEqual, Increasing, Covers, Anchor, HunksFrom, NonEmpty;
    var q := NextAnchor(J, m, p);
    AnchorsAscend(J, m, |B|, p, q);
    var rest := HunksFrom(J, m, q);
    if q <= m {
      HunksCover(J, m, q, A, B);
      PairAt(J, A, B, q);
      CoversEarlier(rest, q - 1, J[q] - 1, A, B);
    } else {
      CoversNothing(A, B);
    }
    CoversHunk(Between(J, p, q), rest, p, J[p], A, B);
  }

  lemma NextAnchor(J: seq<int>, m: nat, p: nat) returns (q: nat)
    requires m + 1 < |J| && p <= m
    ensures p < q <= m + 1 && Anchor(J, m, q) && (q <= m ==> J[q] != 0)
    ensures HunksFrom(J, m, p) == NonEmpty(Between(J, p, q)) + HunksFrom(J, m, q)
    ensures HunksFrom(J, m, m + 1) == []
  {
    q := Next(J, m, p + 1);
  }

  lemma CoversNothing<T>(A: seq<T>, B: seq<T>)
    ensures Covers([], |A|, |B|, A, B)
  {
  }

  // ---------------------------------------------------------------- hunks as a reader finds them

  /** Lines a..b of the first file give way to so many lines: a hunk without its place in the second file. */
  datatype Edit = Edit(a: int, b: int, added: int)

  function EditsOf(hs: seq<Hunk>): (es: seq<Edit>)
    ensures |es| == |hs|
  {
    if hs == [] then []
    else [Edit(hs[0].a, hs[0].b, hs[0].d - hs[0].c + 1)] + EditsOf(hs[1..])
  }

  /** The hunks of edits in ascending order, when what is before them has grown by so many lines. */
  function Located(edits: seq<Edit>, grown: int): seq<Hunk> {
    if edits == [] then []
    else
      var e := edits[0];
      [Hunk(e.a, e.b, e.a + grown, e.a + grown + e.added - 1)]
      + Located(edits[1..], grown + e.added - (e.b - e.a + 1))
  }

  /** Edits that belong to hunks covering the files say where the hunks are in the second file. */
  lemma {:induction false} LocatedHunks<T>(hs: seq<Hunk>, x: nat, y: nat, A: seq<T>, B: seq<T>)
    requires x <= |A| && y <= |B| && Covers(hs, x, y, A, B)
    ensures Located(EditsOf(hs), y - x) == hs
  {
    if hs != [] {
      var h := hs[0];
      assert |A[x..h.a - 1]| == |B[y..h.c - 1]|;
      LocatedHunks(hs[1..], h.b, h.d, A, B);
      assert EditsOf(hs)[1..] == EditsOf(hs[1..]);
      assert hs == [h] + hs[1..];
    }
  }

  /** At least one common line between a hunk and the next. */
  ghost predicate Apart(hs: seq<Hunk>) {
    forall i :: 0 <= i < |hs| - 1 ==> hs[i].b + 1 < hs[i + 1].a
  }

  /** The hunks of a match vector have a matched line between them. */
  lemma {:induction false} HunksApart(J: seq<int>, m: nat, p: nat)
    requires m + 1 < |J| && p <= m + 1
    ensures Apart(HunksFrom(J, m, p))
    ensures HunksFrom(J, m, p) != [] ==> HunksFrom(J, m, p)[0].a > p
    decreases m + 1 - p
  {
    if p <= m {
      var q := Next(J, m, p + 1);
      HunksApart(J, m, q);
      ApartCons(Between(J, p, q), HunksFrom(J, m, q));
    }
  }

  lemma ApartCons(h: Hunk, rest: seq<Hunk>)
    requires Apart(rest) && (rest != [] ==> h.b + 1 < rest[0].a)
    ensures Apart(NonEmpty(h) + rest)
  {
    assert NonEmpty(h) == [] ==> NonEmpty(h) + rest == rest;
  }
}
