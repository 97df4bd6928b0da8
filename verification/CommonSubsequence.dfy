/** Common subsequences of two numbered line sequences, as chains of paired line numbers.
    Lines are numbered from 1, as in the match vector of the diff engine. */
module CommonSubsequence {

  /** Line x of the first file is paired with line y of the second. */
  datatype Pair = Pair(x: int, y: int)

  /** p is a common subsequence of a and b: it pairs equal elements only and both sides strictly increase. */
  ghost predicate Chain<T>(p: seq<Pair>, a: seq<T>, b: seq<T>) {
    && (forall i :: 0 <= i < |p| ==>
          1 <= p[i].x <= |a| && 1 <= p[i].y <= |b| && a[p[i].x - 1] == b[p[i].y - 1])
    && (forall i, j :: 0 <= i < j < |p| ==> p[i].x < p[j].x && p[i].y < p[j].y)
  }

  /** p is a longest common subsequence of a and b. */
  ghost predicate Longest<T>(p: seq<Pair>, a: seq<T>, b: seq<T>) {
    && Chain(p, a, b)
    && forall q :: Chain(q, a, b) ==> |q| <= |p|
  }

  /** The pairs of p moved down by dx lines on the left and dy lines on the right. */
  function Shift(p: seq<Pair>, dx: int, dy: int): (r: seq<Pair>)
    ensures |r| == |p|
  {
    seq(|p|, i requires 0 <= i < |p| => Pair(p[i].x + dx, p[i].y + dy))
  }

  /** The line paired with line i in p, or 0. */
  function MateOf(p: seq<Pair>, i: int): int {
    if p == [] then 0 else if p[0].x == i then p[0].y else MateOf(p[1..], i)
  }

  /** The pairs recorded by the first n entries of a match vector: entry i holds the mate of line i, or 0. */
  function PairsOf(J: seq<int>, n: nat): (p: seq<Pair>)
    requires n < |J|
    ensures forall t :: 0 <= t < |p| ==> 1 <= p[t].x <= n && J[p[t].x] == p[t].y != 0
    ensures forall s, t :: 0 <= s < t < |p| ==> p[s].x < p[t].x
  {
    if n == 0 then []
    else if J[n] == 0 then PairsOf(J, n - 1)
    else PairsOf(J, n - 1) + [Pair(n, J[n])]
  }

  /** A match vector over n and m lines whose nonzero entries strictly increase. */
  ghost predicate Increasing(J: seq<int>, n: nat, m: nat) {
    && n < |J|
    && (forall i :: 1 <= i <= n ==> 0 <= J[i] <= m)
    && (forall i, k :: 1 <= i < k <= n && J[i] != 0 && J[k] != 0 ==> J[i] < J[k])
  }

  lemma {:induction false} MateOfMember(p: seq<Pair>, t: nat)
    requires t < |p|
    requires forall i, j :: 0 <= i < j < |p| ==> p[i].x < p[j].x
    ensures MateOf(p, p[t].x) == p[t].y
  {
    if t > 0 {
      MateOfMember(p[1..], t - 1);
    }
  }

  lemma {:induction false} MateOfAbsent(p: seq<Pair>, i: int)
    requires forall t :: 0 <= t < |p| ==> p[t].x != i
    ensures MateOf(p, i) == 0
  {
    if p != [] {
      MateOfAbsent(p[1..], i);
    }
  }

  /** A match vector that answers every line as p does records exactly the pairs of p. */
  lemma {:induction false} PairsOfMates(J: seq<int>, n: nat, p: seq<Pair>, k: nat)
    requires n < |J| && k <= |p|
    requires forall i :: 1 <= i <= n ==> J[i] == MateOf(p, i)
    requires forall t :: 0 <= t < |p| ==> 1 <= p[t].x && p[t].y != 0
    requires forall s, t :: 0 <= s < t < |p| ==> p[s].x < p[t].x
    requires forall t :: 0 <= t < k ==> p[t].x <= n
    requires forall t :: k <= t < |p| ==> p[t].x > n
    ensures PairsOf(J, n) == p[..k]
  {
    hide MateOf, PairsOf;
    PairsOfStep(J, n);
    if k > 0 && p[k - 1].x == n {
      MateOfMember(p, k - 1);
      PairsOfMates(J, n - 1, p, k - 1);
      TakeOne(p, k);
    } else if n > 0 {
      forall t | 0 <= t < |p| ensures p[t].x != n {
        assert t < k - 1 ==> p[t].x < p[k - 1].x;
      }
      MateOfAbsent(p, n);
      PairsOfMates(J, n - 1, p, k);
    }
  }

  lemma PairsOfStep(J: seq<int>, n: nat)
    requires n < |J|
    ensures PairsOf(J, n) ==
      if n == 0 then [] else if J[n] == 0 then PairsOf(J, n - 1) else PairsOf(J, n - 1) + [Pair(n, J[n])]
  {}

  lemma TakeOne(p: seq<Pair>, k: nat)
    requires 0 < k <= |p|
    ensures p[..k] == p[..k - 1] + [Pair(p[k - 1].x, p[k - 1].y)]
  {}

  /** A vector is increasing and pairs equal elements exactly when its pairs form a chain. */
  lemma {:induction false} PairsOfIsChain<T>(J: seq<int>, a: seq<T>, b: seq<T>)
    requires |a| < |J|
    requires Increasing(J, |a|, |b|)
    requires forall i :: 1 <= i <= |a| && J[i] != 0 ==> a[i - 1] == b[J[i] - 1]
    ensures Chain(PairsOf(J, |a|), a, b)
  {
    var p := PairsOf(J, |a|);
    forall s, t | 0 <= s < t < |p| ensures p[s].x < p[t].x && p[s].y < p[t].y {
      assert J[p[s].x] == p[s].y && J[p[t].x] == p[t].y;
    }
  }

  lemma {:induction false} ChainIndex<T>(p: seq<Pair>, a: seq<T>, b: seq<T>, t: nat)
    requires Chain(p, a, b) && t < |p|
    ensures t + 1 <= p[t].x <= |a| - (|p| - 1 - t)
    ensures t + 1 <= p[t].y <= |b| - (|p| - 1 - t)
  {
    ChainFromBelow(p, a, b, t);
    ChainFromAbove(p, a, b, t);
  }

  lemma {:induction false} ChainFromBelow<T>(p: seq<Pair>, a: seq<T>, b: seq<T>, t: nat)
    requires Chain(p, a, b) && t < |p|
    ensures t + 1 <= p[t].x && t + 1 <= p[t].y
  {
    if t > 0 { ChainFromBelow(p, a, b, t - 1); }
  }

  lemma {:induction false} ChainFromAbove<T>(p: seq<Pair>, a: seq<T>, b: seq<T>, t: nat)
    requires Chain(p, a, b) && t < |p|
    ensures p[t].x <= |a| - (|p| - 1 - t)
    ensures p[t].y <= |b| - (|p| - 1 - t)
    decreases |p| - t
  {
    if t + 1 < |p| { ChainFromAbove(p, a, b, t + 1); }
  }

  /** Number of leading pairs of p that touch the first n lines of either file. */
  lemma {:induction false} TouchingPrefix<T>(p: seq<Pair>, a: seq<T>, b: seq<T>, n: nat) returns (s: nat)
    requires Chain(p, a, b)
    ensures s <= |p| && s <= n
    ensures forall t :: s <= t < |p| ==> p[t].x > n && p[t].y > n
  {
    s := 0;
    while s < |p| && (p[s].x <= n || p[s].y <= n)
      invariant s <= |p| && s <= n
    {
      ChainIndex(p, a, b, s);
      s := s + 1;
    }
  }

  lemma {:induction false} TouchingSuffix<T>(p: seq<Pair>, a: seq<T>, b: seq<T>, n: nat) returns (s: nat)
    requires Chain(p, a, b)
    ensures s <= |p| && |p| - s <= n
    ensures forall t :: 0 <= t < s ==> p[t].x <= |a| - n && p[t].y <= |b| - n
  {
    s := |p|;
    while s > 0 && (p[s - 1].x > |a| - n || p[s - 1].y > |b| - n)
      invariant s <= |p| && |p| - s <= n
    {
      ChainIndex(p, a, b, s - 1);
      s := s - 1;
    }
  }

  lemma {:induction false} MiddleChain<T>(p: seq<Pair>, a: seq<T>, b: seq<T>, pref: nat, suff: nat)
    requires Chain(p, a, b)
    requires pref + suff <= |a| && pref + suff <= |b|
    requires forall t :: 0 <= t < |p| ==> pref < p[t].x <= |a| - suff && pref < p[t].y <= |b| - suff
    ensures Chain(Shift(p, -(pref as int), -(pref as int)), a[pref..|a| - suff], b[pref..|b| - suff])
  {
    var q := Shift(p, -(pref as int), -(pref as int));
    var am, bm := a[pref..|a| - suff], b[pref..|b| - suff];
    forall t | 0 <= t < |q| ensures 1 <= q[t].x <= |am| && 1 <= q[t].y <= |bm| && am[q[t].x - 1] == bm[q[t].y - 1] {
      assert am[q[t].x - 1] == a[p[t].x - 1] && bm[q[t].y - 1] == b[p[t].y - 1];
    }
  }

  /** The part of a chain that stays clear of prefix and suffix is a chain of the middle parts, moved. */
  lemma {:induction false} MiddleOfChain<T>(p: seq<Pair>, a: seq<T>, b: seq<T>, pref: nat, suff: nat, s: nat, e: nat)
    requires Chain(p, a, b) && s < e <= |p|
    requires pref + suff <= |a| && pref + suff <= |b|
    requires forall t :: s <= t < |p| ==> p[t].x > pref && p[t].y > pref
    requires forall t :: 0 <= t < e ==> p[t].x <= |a| - suff && p[t].y <= |b| - suff
    ensures Chain(Shift(p[s..e], -(pref as int), -(pref as int)), a[pref..|a| - suff], b[pref..|b| - suff])
  {
    var q := p[s..e];
    assert forall t :: 0 <= t < |q| ==> q[t] == p[s + t];
    MiddleChain(q, a, b, pref, suff);
  }

  /** No chain is longer than the prefix and suffix lengths plus the longest chain of the middle parts. */
  lemma {:induction false} PruningBound<T>(p: seq<Pair>, a: seq<T>, b: seq<T>, pref: nat, suff: nat, k: nat)
    requires Chain(p, a, b)
    requires pref + suff <= |a| && pref + suff <= |b|
    requires forall q :: Chain(q, a[pref..|a| - suff], b[pref..|b| - suff]) ==> |q| <= k
    ensures |p| <= pref + k + suff
  {
    hide Chain;
    var s := TouchingPrefix(p, a, b, pref);
    var e := TouchingSuffix(p, a, b, suff);
    if s < e {
      MiddleOfChain(p, a, b, pref, suff, s, e);
    }
  }

  /** The identity pairs (1,1) .. (n,n) moved by (dx,dy). */
  function Diagonal(n: nat, dx: int, dy: int): (r: seq<Pair>)
    ensures |r| == n
  {
    seq(n, i => Pair(i + 1 + dx, i + 1 + dy))
  }

  /** The chain of the whole files made from a chain of their middle parts. */
  function Whole(p: seq<Pair>, pref: nat, suff: nat, n: nat, m: nat): seq<Pair> {
    Diagonal(pref, 0, 0) + Shift(p, pref, pref) + Diagonal(suff, n - suff, m - suff)
  }

  lemma {:induction false} ChainAppend<T>(p: seq<Pair>, q: seq<Pair>, a: seq<T>, b: seq<T>, dx: int, dy: int)
    requires Chain(p, a, b) && Chain(q, a, b)
    requires forall t :: 0 <= t < |p| ==> p[t].x <= dx && p[t].y <= dy
    requires forall t :: 0 <= t < |q| ==> dx < q[t].x && dy < q[t].y
    ensures Chain(p + q, a, b)
  {
    var w := p + q;
    forall i, j | 0 <= i < j < |w| ensures w[i].x < w[j].x && w[i].y < w[j].y {
      if i < |p| <= j {
        assert w[i] == p[i] && w[j] == q[j - |p|];
      }
    }
  }

  lemma {:induction false} MateOfAppend(p: seq<Pair>, q: seq<Pair>, i: int)
    requires forall t :: 0 <= t < |p| ==> p[t].y != 0
    ensures MateOf(p + q, i) == if MateOf(p, i) != 0 then MateOf(p, i) else MateOf(q, i)
  {
    if p == [] {
      assert p + q == q;
    } else {
      assert (p + q)[1..] == p[1..] + q;
      MateOfAppend(p[1..], q, i);
    }
  }

  lemma {:induction false} MateOfShift(p: seq<Pair>, d: nat, i: int)
    requires forall t :: 0 <= t < |p| ==> p[t].y > 0
    ensures MateOf(Shift(p, d, d), i) == if MateOf(p, i - d) != 0 then MateOf(p, i - d) + d else 0
  {
    if p != [] {
      assert Shift(p, d, d)[1..] == Shift(p[1..], d, d);
      MateOfShift(p[1..], d, i);
    }
  }

  lemma MateOfDiagonal(n: nat, dx: int, dy: int, i: int)
    ensures MateOf(Diagonal(n, dx, dy), i) == if dx < i <= dx + n then i - dx + dy else 0
  {
    var p := Diagonal(n, dx, dy);
    if dx < i <= dx + n {
      MateOfMember(p, i - dx - 1);
    } else {
      MateOfAbsent(p, i);
    }
  }

  /** How Whole answers a line: identity in the prefix, constant shift in the suffix, p in between. */
  lemma {:induction false} MateOfWhole(p: seq<Pair>, pref: nat, suff: nat, n: nat, m: nat, i: int)
    requires pref + suff <= n && pref + suff <= m
    requires forall t :: 0 <= t < |p| ==> 1 <= p[t].x <= n - pref - suff && p[t].y > 0
    requires 0 <= i <= n
    ensures MateOf(Whole(p, pref, suff, n, m), i) ==
            if i <= pref then i else if i > n - suff then i + m - n
            else if MateOf(p, i - pref) != 0 then MateOf(p, i - pref) + pref else 0
  {
    var h, mid, e := Diagonal(pref, 0, 0), Shift(p, pref, pref), Diagonal(suff, n - suff, m - suff);
    MateOfAppend(h + mid, e, i);
    MateOfAppend(h, mid, i);
    MateOfDiagonal(pref, 0, 0, i);
    MateOfDiagonal(suff, n - suff, m - suff, i);
    MateOfShift(p, pref, i);
    if !(1 <= i - pref <= n - pref - suff) {
      MateOfAbsent(p, i - pref);
    }
  }

  lemma {:induction false} WholeChain<T>(p: seq<Pair>, a: seq<T>, b: seq<T>, pref: nat, suff: nat)
    requires pref + suff <= |a| && pref + suff <= |b|
    requires Chain(p, a[pref..|a| - suff], b[pref..|b| - suff])
    requires a[..pref] == b[..pref]
    requires a[|a| - suff..] == b[|b| - suff..]
    ensures Chain(Whole(p, pref, suff, |a|, |b|), a, b)
  {
    var h, mid, e := Diagonal(pref, 0, 0), Shift(p, pref, pref), Diagonal(suff, |a| - suff, |b| - suff);
    DiagonalChain(a, b, pref, 0, 0);
    DiagonalChain(a, b, suff, |a| - suff, |b| - suff);
    ShiftedChain(p, a, b, pref, suff);
    ChainAppend(h, mid, a, b, pref, pref);
    ChainAppend(h + mid, e, a, b, |a| - suff, |b| - suff);
  }

  lemma DiagonalChain<T>(a: seq<T>, b: seq<T>, n: nat, dx: nat, dy: nat)
    requires n + dx <= |a| && n + dy <= |b|
    requires a[dx..dx + n] == b[dy..dy + n]
    ensures Chain(Diagonal(n, dx, dy), a, b)
  {
    var h := Diagonal(n, dx, dy);
    forall t | 0 <= t < n ensures a[h[t].x - 1] == b[h[t].y - 1] {
      assert a[dx..dx + n][t] == b[dy..dy + n][t];
    }
  }

  lemma ShiftedChain<T>(p: seq<Pair>, a: seq<T>, b: seq<T>, pref: nat, suff: nat)
    requires pref + suff <= |a| && pref + suff <= |b|
    requires Chain(p, a[pref..|a| - suff], b[pref..|b| - suff])
    ensures Chain(Shift(p, pref, pref), a, b)
  {
    var mid := Shift(p, pref, pref);
    forall t | 0 <= t < |mid| ensures a[mid[t].x - 1] == b[mid[t].y - 1] {
      assert a[pref..|a| - suff][p[t].x - 1] == b[pref..|b| - suff][p[t].y - 1];
    }
  }

  /** Common prefix and suffix plus a longest chain of the middles is a longest chain of the whole. */
  lemma {:induction false} WholeLongest<T>(p: seq<Pair>, a: seq<T>, b: seq<T>, pref: nat, suff: nat)
    requires pref + suff <= |a| && pref + suff <= |b|
    requires Longest(p, a[pref..|a| - suff], b[pref..|b| - suff])
    requires a[..pref] == b[..pref]
    requires a[|a| - suff..] == b[|b| - suff..]
    ensures Longest(Whole(p, pref, suff, |a|, |b|), a, b)
  {
    WholeChain(p, a, b, pref, suff);
    forall q | Chain(q, a, b) ensures |q| <= |Whole(p, pref, suff, |a|, |b|)| {
      PruningBound(q, a, b, pref, suff, |p|);
    }
  }
}
