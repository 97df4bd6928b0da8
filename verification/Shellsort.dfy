/** sort: Shell's method (CACM algorithm 201) on entries 1..n of a line table, in place. */
module Shellsort {
  import opened LineTable

  method Swap(f: array<int>, p: nat, n: nat, i: nat, k: nat)
    requires 2 * (p + n) + 1 < f.Length
    requires 1 <= i <= n && 1 <= k <= n && i != k
    modifies f
    ensures Lines(f, p, n) == Swapped(old(Lines(f, p, n)), i - 1, k - 1)
    ensures forall x :: 0 <= x < f.Length && !(2 * (p + 1) <= x <= 2 * (p + n) + 1) ==> f[x] == old(f[x])
  {
    var value := f[2 * (p + i) + 1];
    f[2 * (p + i) + 1] := f[2 * (p + k) + 1];
    f[2 * (p + k) + 1] := value;
    var serial := f[2 * (p + i)];
    f[2 * (p + i)] := f[2 * (p + k)];
    f[2 * (p + k)] := serial;
  }

  /** All pairs at distance m among the first j are ordered, except that the pair at index i may not be;
      its neighbours already fit around it. (Entry numbered x has index x - 1.) */
  ghost predicate Sifting(s: seq<Line>, m: int, j: int, i: int) {
    && 0 < m && j + m <= |s|
    && (forall x :: 0 <= x < j && x != i ==> InOrder(s, m, x))
    && (0 <= i && i + m < j ==> Le(s[i], s[i + 2 * m]))
  }

  lemma {:induction false} SiftStep(s: seq<Line>, m: nat, j: int, i: nat)
    requires Sifting(s, m, j, i) && i < j
    requires Le(s[i + m], s[i])
    ensures Sifting(Swapped(s, i, i + m), m, j, i - m)
    ensures multiset(Swapped(s, i, i + m)) == multiset(s)
  {
    var s' := Swapped(s, i, i + m);
    SwapPermutes(s, i, i + m);
    assert i - m >= 0 ==> InOrder(s, m, i - m);
    forall x | 0 <= x < j && x != i - m ensures InOrder(s', m, x) {
      assert x == i || InOrder(s, m, x);
    }
  }

  lemma SiftDone(s: seq<Line>, m: int, j: int, i: int)
    requires Sifting(s, m, j, i)
    requires i < 0 || (i < j && Le(s[i], s[i + m]))
    ensures GapSorted(s, m, j)
  {
    forall x | 0 <= x < j && x + m < |s| ensures InOrder(s, m, x) {
      assert x == i || InOrder(s, m, x);
    }
  }

  /** The innermost loop: move entry j + m down in steps of m until it fits. */
  method Sift(f: array<int>, p: nat, n: nat, m: nat, j: nat)
    requires 2 * (p + n) + 1 < f.Length
    requires 0 < m && 1 <= j && j + m <= n
    requires GapSorted(Lines(f, p, n), m, j - 1)
    modifies f
    ensures GapSorted(Lines(f, p, n), m, j)
    ensures multiset(Lines(f, p, n)) == multiset(old(Lines(f, p, n)))
    ensures forall x :: 0 <= x < f.Length && !(2 * (p + 1) <= x <= 2 * (p + n) + 1) ==> f[x] == old(f[x])
  {
    hide Sifting, GapSorted, Le, InOrder, Lines, Swapped;
    ghost var was := multiset(Lines(f, p, n));
    var i := j;
    SiftStart(Lines(f, p, n), m, j);
    while i > 0
      invariant i <= j
      invariant Sifting(Lines(f, p, n), m, j, i - 1)
      invariant multiset(Lines(f, p, n)) == was
      invariant forall x :: 0 <= x < f.Length && !(2 * (p + 1) <= x <= 2 * (p + n) + 1) ==> f[x] == old(f[x])
    {
      var ai, aim := At(f, p + i), At(f, p + i + m);
      ghost var s := Lines(f, p, n);
      assert s[i - 1] == ai && s[i - 1 + m] == aim;
      Order(ai, aim);
      if aim.value > ai.value || (aim.value == ai.value && aim.serial > ai.serial) {
        break;
      }
      SiftStep(s, m, j, i - 1);
      Swap(f, p, n, i, i + m);
      i := i - m;
    }
    SiftDone(Lines(f, p, n), m, j, i - 1);
  }

  /** One pass at gap m. */
  method Pass(f: array<int>, p: nat, n: nat, m: nat)
    requires 2 * (p + n) + 1 < f.Length
    requires 0 < m
    modifies f
    ensures GapSorted(Lines(f, p, n), m, n)
    ensures multiset(Lines(f, p, n)) == multiset(old(Lines(f, p, n)))
    ensures forall x :: 0 <= x < f.Length && !(2 * (p + 1) <= x <= 2 * (p + n) + 1) ==> f[x] == old(f[x])
  {
    hide GapSorted, Lines;
    ghost var was := multiset(Lines(f, p, n));
    var k := n - m;
    var j := 1;
    GapNothing(Lines(f, p, n), m);
    while j <= k
      invariant 1 <= j && (j <= k + 1 || j == 1)
      invariant GapSorted(Lines(f, p, n), m, j - 1)
      invariant multiset(Lines(f, p, n)) == was
      invariant forall x :: 0 <= x < f.Length && !(2 * (p + 1) <= x <= 2 * (p + n) + 1) ==> f[x] == old(f[x])
    {
      Sift(f, p, n, m, j);
      j := j + 1;
    }
    GapAll(Lines(f, p, n), m, j - 1);
  }

  lemma Order(ai: Line, aim: Line)
    ensures if aim.value > ai.value || (aim.value == ai.value && aim.serial > ai.serial) then Le(ai, aim)
            else Le(aim, ai)
  {
  }

  lemma GapNothing(s: seq<Line>, m: int)
    requires m > 0
    ensures GapSorted(s, m, 0)
  {
  }

  lemma GapAll(s: seq<Line>, m: int, j: int)
    requires m > 0 && GapSorted(s, m, j) && (j + m >= |s|)
    ensures GapSorted(s, m, |s|)
  {
  }

  lemma SiftStart(s: seq<Line>, m: int, j: int)
    requires m > 0 && 1 <= j && j + m <= |s| && GapSorted(s, m, j - 1)
    ensures Sifting(s, m, j, j - 1)
  {
  }

  /** m is one less than a power of two: the gaps the source runs through. */
  ghost predicate Gap(m: int)
    decreases if m < 0 then 0 else m
  {
    m >= 0 && (m == 0 || (m % 2 == 1 && Gap(m / 2)))
  }

  lemma GapDoubles(m: int)
    requires Gap(m)
    ensures Gap(2 * m + 1)
  {
    assert (2 * m + 1) / 2 == m;
  }

  /** Halving a gap gives a gap again and comes to 0 only from 1: the last pass has gap 1. */
  lemma GapHalves(m: int)
    requires Gap(m) && m != 0
    ensures 0 <= m / 2 < m && Gap(m / 2)
    ensures m / 2 == 0 <==> m == 1
  {
  }

  /** sort(a, n): entries 1..n become ordered by (value, serial) and stay a permutation of themselves;
      no other cell, slot 0 included, is written. */
  method Sort(f: array<int>, p: nat, n: nat)
    requires 2 * (p + n) + 1 < f.Length
    modifies f
    ensures Sorted(Lines(f, p, n))
    ensures multiset(Lines(f, p, n)) == multiset(old(Lines(f, p, n)))
    ensures forall x :: 0 <= x < f.Length && !(2 * (p + 1) <= x <= 2 * (p + n) + 1) ==> f[x] == old(f[x])
  {
    if n == 0 {
      return;
    }
    var m := 0;
    var j := 1;
    while j <= n
      invariant 1 <= j
      invariant m == j - 1
      invariant Gap(m)
      modifies {}
      decreases n - j
    {
      m := 2 * j - 1;
      GapDoubles(j - 1);
      j := j * 2;
    }
    GapHalves(m);
    m := m / 2;
    while m != 0
      invariant 0 <= m && Gap(m)
      invariant m == 0 ==> Sorted(Lines(f, p, n))
      invariant multiset(Lines(f, p, n)) == multiset(old(Lines(f, p, n)))
      invariant forall x :: 0 <= x < f.Length && !(2 * (p + 1) <= x <= 2 * (p + n) + 1) ==> f[x] == old(f[x])
      decreases m
    {
      Pass(f, p, n, m);
      GapHalves(m);
      if m == 1 {
        GapOneSorts(Lines(f, p, n));
      }
      m := m / 2;
    }
  }
}
