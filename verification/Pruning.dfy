/** prune: set aside the common prefix and suffix and number the lines left in between. */
module Pruning {
  import opened LineTable

  /** The values of lines 1..n of a table. */
  ghost function TableValues(f: array<int>, n: nat): (v: seq<int>)
    requires 2 * n + 1 < f.Length
    reads f
    ensures |v| == n
    ensures forall i :: 0 <= i < n ==> v[i] == Value(f, i + 1)
  {
    seq(n, i requires 0 <= i < n reads f => Value(f, i + 1))
  }

  /** Give lines 0..n of the table from entry p their serial numbers. */
  method Number(f: array<int>, p: nat, n: nat, ghost len: nat)
    requires 2 * len + 1 < f.Length && p + n <= len
    modifies f
    ensures TableValues(f, len) == old(TableValues(f, len))
    ensures Lines(f, p, n) == Numbered(TableValues(f, len)[p..p + n])
  {
    var i := 0;
    while i <= n
      invariant 0 <= i <= n + 1
      invariant forall x: nat :: x <= len ==> Value(f, x) == old(Value(f, x))
      invariant forall x: nat :: p <= x < p + i ==> Serial(f, x) == x - p
    {
      ghost var was := f[..];
      assert forall x: nat :: x <= len ==> was[2 * x + 1] == Value(f, x);
      assert forall x: nat :: p <= x < p + i ==> was[2 * x] == Serial(f, x);
      f[2 * (p + i)] := i;
      Set(was, f, p, i, len);
      i := i + 1;
    }
  }

  /** Only the serial of entry p + i has changed. */
  lemma Set(was: seq<int>, f: array<int>, p: nat, i: nat, len: nat)
    requires 2 * len + 1 < f.Length && p + i <= len && |was| == f.Length && f[..] == was[2 * (p + i) := i]
    ensures forall x: nat :: x <= len ==> Value(f, x) == was[2 * x + 1]
    ensures forall x: nat :: p <= x < p + i ==> Serial(f, x) == was[2 * x]
    ensures Serial(f, p + i) == i
  {
    forall x: nat | x <= len ensures Value(f, x) == was[2 * x + 1] {
      assert f[..][2 * x + 1] == was[2 * x + 1];
    }
    forall x: nat | p <= x < p + i ensures Serial(f, x) == was[2 * x] {
      assert f[..][2 * x] == was[2 * x];
    }
  }

  lemma PrefixGrows(v: seq<int>, w: seq<int>, n: nat)
    requires n < |v| && n < |w| && v[..n] == w[..n] && v[n] == w[n]
    ensures v[..n + 1] == w[..n + 1]
  {
    assert v[..n + 1] == v[..n] + [v[n]] && w[..n + 1] == w[..n] + [w[n]];
  }

  lemma SuffixGrows(v: seq<int>, w: seq<int>, n: nat)
    requires n < |v| && n < |w| && v[|v| - n..] == w[|w| - n..] && v[|v| - n - 1] == w[|w| - n - 1]
    ensures v[|v| - n - 1..] == w[|w| - n - 1..]
  {
    assert v[|v| - n - 1..] == [v[|v| - n - 1]] + v[|v| - n..];
    assert w[|w| - n - 1..] == [w[|w| - n - 1]] + w[|w| - n..];
  }

  /** The first pref and last suff values are common, and neither part can be made longer. */
  ghost predicate Pruned(v: seq<int>, w: seq<int>, pref: nat, suff: nat) {
    && pref + suff <= |v| && pref + suff <= |w|
    && v[..pref] == w[..pref]
    && v[|v| - suff..] == w[|w| - suff..]
    && (pref < |v| && pref < |w| ==> v[pref] != w[pref])
    && (pref + suff < |v| && pref + suff < |w| ==> v[|v| - suff - 1] != w[|w| - suff - 1])
  }

  /** The first scanning loop of prune. */
  method CommonPrefix(f0: array<int>, len0: nat, f1: array<int>, len1: nat) returns (pref: nat)
    requires 2 * len0 + 1 < f0.Length && 2 * len1 + 1 < f1.Length
    ensures pref <= len0 && pref <= len1
    ensures TableValues(f0, len0)[..pref] == TableValues(f1, len1)[..pref]
    ensures pref < len0 && pref < len1 ==> TableValues(f0, len0)[pref] != TableValues(f1, len1)[pref]
  {
    hide TableValues;
    ghost var v0, v1 := TableValues(f0, len0), TableValues(f1, len1);
    pref := 0;
    while pref < len0 && pref < len1 && Value(f0, pref + 1) == Value(f1, pref + 1)
      invariant pref <= len0 && pref <= len1
      invariant v0[..pref] == v1[..pref]
    {
      PrefixGrows(v0, v1, pref);
      pref := pref + 1;
    }
  }

  /** Both scanning loops. */
  method CommonEnds(f0: array<int>, len0: nat, f1: array<int>, len1: nat) returns (pref: nat, suff: nat)
    requires 2 * len0 + 1 < f0.Length && 2 * len1 + 1 < f1.Length
    ensures Pruned(TableValues(f0, len0), TableValues(f1, len1), pref, suff)
  {
    hide TableValues, Pruned;
    ghost var v0, v1 := TableValues(f0, len0), TableValues(f1, len1);
    pref := CommonPrefix(f0, len0, f1, len1);
    suff := 0;
    while suff < len0 - pref && suff < len1 - pref && Value(f0, len0 - suff) == Value(f1, len1 - suff)
      invariant pref + suff <= len0 && pref + suff <= len1
      invariant v0[|v0| - suff..] == v1[|v1| - suff..]
    {
      FromEnd(f0, len0, v0, suff);
      FromEnd(f1, len1, v1, suff);
      SuffixGrows(v0, v1, suff);
      suff := suff + 1;
    }
    if suff < len0 - pref && suff < len1 - pref {
      FromEnd(f0, len0, v0, suff);
      FromEnd(f1, len1, v1, suff);
    }
    PrunedIs(v0, v1, pref, suff);
  }

  lemma FromEnd(f: array<int>, n: nat, v: seq<int>, i: nat)
    requires 2 * n + 1 < f.Length && i < n && v == TableValues(f, n)
    ensures v[|v| - i - 1] == Value(f, n - i)
  {
    assert v[n - i - 1] == Value(f, n - i - 1 + 1);
  }

  lemma PrunedIs(v: seq<int>, w: seq<int>, pref: nat, suff: nat)
    requires pref + suff <= |v| && pref + suff <= |w|
    requires v[..pref] == w[..pref] && (pref < |v| && pref < |w| ==> v[pref] != w[pref])
    requires v[|v| - suff..] == w[|w| - suff..]
    requires suff < |v| - pref && suff < |w| - pref ==> v[|v| - suff - 1] != w[|w| - suff - 1]
    ensures Pruned(v, w, pref, suff)
  {}

  method Prune(f0: array<int>, len0: nat, f1: array<int>, len1: nat) returns (pref: nat, suff: nat)
    requires f0 != f1 && 2 * len0 + 1 < f0.Length && 2 * len1 + 1 < f1.Length
    modifies f0, f1
    ensures TableValues(f0, len0) == old(TableValues(f0, len0))
    ensures TableValues(f1, len1) == old(TableValues(f1, len1))
    ensures Pruned(old(TableValues(f0, len0)), old(TableValues(f1, len1)), pref, suff)
    // and the rest is numbered from 1
    ensures Lines(f0, pref, len0 - pref - suff) == Numbered(old(TableValues(f0, len0))[pref..len0 - suff])
    ensures Lines(f1, pref, len1 - pref - suff) == Numbered(old(TableValues(f1, len1))[pref..len1 - suff])
  {
    hide Lines, Numbered, TableValues;
    pref, suff := CommonEnds(f0, len0, f1, len1);
    Number(f0, pref, len0 - pref - suff, len0);
    Number(f1, pref, len1 - pref - suff, len1);
  }
}
