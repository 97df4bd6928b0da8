/** The line tables file[0] and file[1] as the memory they occupy: entry k of a table is a struct of two
    ints, its serial in cell 2k and its value (the line's hash) in cell 2k+1. sfile[i] is file[i] + pref. */
module LineTable {

  datatype Line = Line(serial: int, value: int)

  function Serial(f: array<int>, k: nat): int
    requires 2 * k < f.Length
    reads f
  {
    f[2 * k]
  }

  function Value(f: array<int>, k: nat): int
    requires 2 * k + 1 < f.Length
    reads f
  {
    f[2 * k + 1]
  }

  function At(f: array<int>, k: nat): Line
    requires 2 * k + 1 < f.Length
    reads f
  {
    Line(Serial(f, k), Value(f, k))
  }

  /** Entries 1..n of the table that starts at entry p; the entry numbered i is at index i - 1. */
  ghost function Lines(f: array<int>, p: nat, n: nat): (s: seq<Line>)
    requires 2 * (p + n) + 1 < f.Length
    reads f
    ensures |s| == n
    ensures forall i :: 0 <= i < n ==> s[i] == At(f, p + 1 + i)
  {
    seq(n, i requires 0 <= i < n reads f => At(f, p + 1 + i))
  }

  /** The order shellsort establishes: by value, then by serial. */
  predicate Le(a: Line, b: Line) {
    a.value < b.value || (a.value == b.value && a.serial <= b.serial)
  }

  ghost predicate Sorted(s: seq<Line>) {
    forall i, j :: 0 <= i < j < |s| ==> Le(s[i], s[j])
  }

  /** The entries at indices x and x + m are in order. */
  ghost predicate InOrder(s: seq<Line>, m: int, x: int)
    requires 0 <= x && 0 < m && x + m < |s|
  {
    Le(s[x], s[x + m])
  }

  ghost predicate GapSorted(s: seq<Line>, m: int, upto: int)
    requires m > 0
  {
    forall x :: 0 <= x < upto && x + m < |s| ==> InOrder(s, m, x)
  }

  /** Values v numbered from 1 in order: what prune hands to sort. */
  function Numbered(v: seq<int>): (s: seq<Line>)
    ensures |s| == |v|
    ensures forall i :: 0 <= i < |v| ==> s[i] == Line(i + 1, v[i])
  {
    seq(|v|, i requires 0 <= i < |v| => Line(i + 1, v[i]))
  }

  lemma {:induction false} AdjacentSorted(s: seq<Line>, i: int, j: int)
    requires GapSorted(s, 1, |s|)
    requires 0 <= i < j < |s|
    ensures Le(s[i], s[j])
    decreases j - i
  {
    assert InOrder(s, 1, j - 1);
    if i < j - 1 {
      AdjacentSorted(s, i, j - 1);
    }
  }

  lemma GapOneSorts(s: seq<Line>)
    requires GapSorted(s, 1, |s|)
    ensures Sorted(s)
  {
    forall i, j | 0 <= i < j < |s| ensures Le(s[i], s[j]) {
      AdjacentSorted(s, i, j);
    }
  }

  /** s with the entries at indices i and k exchanged. */
  function Swapped(s: seq<Line>, i: nat, k: nat): seq<Line>
    requires i < |s| && k < |s|
  {
    s[i := s[k]][k := s[i]]
  }

  lemma SwapPermutes(s: seq<Line>, i: nat, k: nat)
    requires i < |s| && k < |s|
    ensures multiset(Swapped(s, i, k)) == multiset(s)
  {
  }
}
