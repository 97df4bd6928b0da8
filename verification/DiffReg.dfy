/** diffreg: the stages put together, from two files to a diff that turns the first into the second. */
module DiffReg {
  import opened CommonSubsequence
  import opened LineTable
  import opened Pruning
  import opened Shellsort
  import opened Equivalence
  import opened Stone

  /** The sentinel that ends the last class is the value 0, so the largest value left after pruning the second
      file must not be 0: either no line there hashes to 0, or some line hashes to more. */
  ghost predicate SentinelSafe(v: seq<int>, w: seq<int>) {
    forall pref: nat, suff: nat :: Pruned(v, w, pref, suff) ==> LastNotZero(w[pref..|w| - suff])
  }

  ghost predicate LastNotZero(mid: seq<int>) {
    0 !in mid || exists x :: x in mid && x > 0
  }

  /** It is enough that no line of the second file hashes to 0. */
  lemma NoZeroHash(v: seq<int>, w: seq<int>)
    requires 0 !in w
    ensures SentinelSafe(v, w)
  {
    forall pref: nat, suff: nat | Pruned(v, w, pref, suff) ensures 0 !in w[pref..|w| - suff] {
      assert forall x :: x in w[pref..|w| - suff] ==> x in w;
    }
  }

  /** J pairs lines of equal value in increasing order; when longest is set, nothing longer exists. */
  ghost predicate MatchOf(J: seq<int>, v: seq<int>, w: seq<int>, longest: bool) {
    && |v| + 1 < |J|
    && Increasing(J, |v|, |w|)
    && (forall i :: 1 <= i <= |v| && J[i] != 0 ==> v[i - 1] == w[J[i] - 1])
    && (longest ==> Longest(PairsOf(J, |v|), v, w))
  }

  /** The common ends that prune sets aside are matched line by line, however the search went. */
  ghost predicate EndsKept(J: seq<int>, v: seq<int>, w: seq<int>)
    requires |v| + 1 < |J|
  {
    forall pref: nat, suff: nat :: Pruned(v, w, pref, suff) ==>
      && (forall i :: 1 <= i <= pref ==> J[i] == i)
      && (forall i :: |v| - suff < i <= |v| ==> J[i] == i + |w| - |v|)
  }

  /** There is only one way to prune. */
  lemma PrunedOnce(v: seq<int>, w: seq<int>, pref: nat, suff: nat, pref': nat, suff': nat)
    requires Pruned(v, w, pref, suff) && Pruned(v, w, pref', suff')
    ensures pref == pref' && suff == suff'
  {
    SamePrefix(v, w, pref, suff, pref', suff');
    SamePrefix(v, w, pref', suff', pref, suff);
    SameSuffix(v, w, pref, suff, suff');
    SameSuffix(v, w, pref, suff', suff);
  }

  lemma SamePrefix(v: seq<int>, w: seq<int>, pref: nat, suff: nat, pref': nat, suff': nat)
    requires Pruned(v, w, pref, suff) && Pruned(v, w, pref', suff')
    ensures pref' <= pref
  {
    assert forall i :: 0 <= i < pref' ==> v[..pref'][i] == v[i] && w[..pref'][i] == w[i];
  }

  lemma SameSuffix(v: seq<int>, w: seq<int>, pref: nat, suff: nat, suff': nat)
    requires Pruned(v, w, pref, suff) && Pruned(v, w, pref, suff')
    ensures suff' <= suff
  {
    if suff < suff' {
      SuffixAt(v, w, suff', suff);
    }
  }

  lemma SuffixAt(v: seq<int>, w: seq<int>, n: nat, i: nat)
    requires i < n <= |v| && n <= |w| && v[|v| - n..] == w[|w| - n..]
    ensures v[|v| - i - 1] == w[|w| - i - 1]
  {
    assert v[|v| - n..][n - i - 1] == w[|w| - n..][n - i - 1];
  }

  lemma {:induction false} EndsOfWhole(J: seq<int>, p: seq<Pair>, v: seq<int>, w: seq<int>, pref: nat, suff: nat)
    requires |v| + 1 < |J| && Pruned(v, w, pref, suff) && pref + suff <= |v| && pref + suff <= |w|
    requires Chain(p, v[pref..|v| - suff], w[pref..|w| - suff])
    requires forall i :: 0 <= i <= |v| ==> J[i] == MateOf(Whole(p, pref, suff, |v|, |w|), i)
    ensures EndsKept(J, v, w)
  {
    hide Pruned, MateOf, Whole;
    forall i | 1 <= i <= |v| && (i <= pref || |v| - suff < i)
      ensures J[i] == if i <= pref then i else i + |w| - |v|
    {
      MateOfWhole(p, pref, suff, |v|, |w|, i);
    }
    forall pref': nat, suff': nat | Pruned(v, w, pref', suff') ensures pref' == pref && suff' == suff {
      PrunedOnce(v, w, pref, suff, pref', suff');
    }
  }

  lemma {:induction false} MateIsPair(p: seq<Pair>, i: int) returns (t: nat)
    requires MateOf(p, i) != 0
    ensures t < |p| && p[t] == Pair(i, MateOf(p, i))
  {
    if p[0].x != i {
      t := MateIsPair(p[1..], i);
      t := t + 1;
    } else {
      t := 0;
    }
  }

  lemma PairInChain<T>(p: seq<Pair>, v: seq<T>, w: seq<T>, t: nat)
    requires Chain(p, v, w) && t < |p|
    ensures 1 <= p[t].x <= |v| && 1 <= p[t].y <= |w| && v[p[t].x - 1] == w[p[t].y - 1]
  {
  }

  lemma PairsAscend<T>(p: seq<Pair>, v: seq<T>, w: seq<T>, s: nat, t: nat)
    requires Chain(p, v, w) && s < |p| && t < |p| && p[s].x < p[t].x
    ensures p[s].y < p[t].y
  {
    assert s < t;
  }

  /** The match vector that answers every line as the chain p does. */
  lemma {:induction false} MatesMatch(J: seq<int>, p: seq<Pair>, v: seq<int>, w: seq<int>, longest: bool)
    requires |v| + 1 < |J| && Chain(p, v, w) && (longest ==> Longest(p, v, w))
    requires forall i :: 0 <= i <= |v| ==> J[i] == MateOf(p, i)
    ensures MatchOf(J, v, w, longest)
  {
    hide Chain, Longest, PairsOf, MateOf;
    ChainPairs(J, p, v, w);
    forall i | 1 <= i <= |v| ensures 0 <= J[i] <= |w| && (J[i] != 0 ==> v[i - 1] == w[J[i] - 1]) {
      if J[i] != 0 {
        var t := MateIsPair(p, i);
        PairInChain(p, v, w, t);
      }
    }
    forall i, k | 1 <= i < k <= |v| && J[i] != 0 && J[k] != 0 ensures J[i] < J[k] {
      var s := MateIsPair(p, i);
      var t := MateIsPair(p, k);
      PairsAscend(p, v, w, s, t);
    }
  }

  lemma ChainPairs(J: seq<int>, p: seq<Pair>, v: seq<int>, w: seq<int>)
    requires |v| + 1 < |J| && Chain(p, v, w)
    requires forall i :: 0 <= i <= |v| ==> J[i] == MateOf(p, i)
    ensures PairsOf(J, |v|) == p
  {
    PairsOfMates(J, |v|, p, |p|);
    assert p[..|p|] == p;
  }

  lemma {:induction false} SortedLast(b: seq<Line>, mid: seq<int>)
    requires Sorted(b) && multiset(b) == multiset(Numbered(mid)) && LastNotZero(mid) && b != []
    ensures b[|b| - 1].value != 0
  {
    hide Numbered;
    NumberedPermutation(b, mid);
    var last := b[|b| - 1];
    if 0 !in mid {
      assert last.value == mid[last.serial - 1];
    } else {
      var x :| x in mid && x > 0;
      var z :| 0 <= z < |mid| && mid[z] == x;
      assert Line(z + 1, mid[z]) in b;
      BelowLast(b, Line(z + 1, x));
    }
  }

  lemma BelowLast(b: seq<Line>, l: Line)
    requires Sorted(b) && l in b
    ensures l.value <= b[|b| - 1].value
  {
    var t :| 0 <= t < |b| && b[t] == l;
    assert t == |b| - 1 || Le(b[t], b[|b| - 1]);
  }

  /** The stages from prune to unsort: the equality classes of the pruned files, in the memory of the tables. */
  method Classify(file0: array<int>, len0: nat, file1: array<int>, len1: nat) returns (pref: nat, suff: nat)
    requires file0 != file1 && 2 * len0 + 3 < file0.Length && 2 * len1 + 3 < file1.Length
    requires SentinelSafe(TableValues(file0, len0), TableValues(file1, len1))
    modifies file0, file1
    ensures Pruned(old(TableValues(file0, len0)), old(TableValues(file1, len1)), pref, suff)
    ensures pref + suff <= len0 && pref + suff <= len1
    ensures Classes(file0[..], file1[..],
                    old(TableValues(file0, len0))[pref..len0 - suff], old(TableValues(file1, len1))[pref..len1 - suff])
  {
    hide Pruned, Numbered, Lines, TableValues, Classes, LastNotZero, SentinelSafe;
    ghost var v, w := TableValues(file0, len0), TableValues(file1, len1);
    pref, suff := Prune(file0, len0, file1, len1);
    PrunedBounds(v, w, pref, suff);
    SentinelAt(v, w, pref, suff);
    ClassifyMiddle(file0, file1, pref, len0 - pref - suff, len1 - pref - suff,
                   v[pref..len0 - suff], w[pref..len1 - suff]);
  }

  /** The stages from sort to unsort, on the lines that prune has left. */
  method ClassifyMiddle(file0: array<int>, file1: array<int>, pref: nat, n: nat, m: nat, ghost u0: seq<int>,
                        ghost u1: seq<int>)
    requires file0 != file1 && 2 * (pref + n) + 3 < file0.Length && 2 * (pref + m) + 3 < file1.Length
    requires |u0| == n && |u1| == m && LastNotZero(u1)
    requires Lines(file0, pref, n) == Numbered(u0) && Lines(file1, pref, m) == Numbered(u1)
    modifies file0, file1
    ensures Classes(file0[..], file1[..], u0, u1)
  {
    hide Sorted, Numbered, Lines, Squeezed, Classes, LastNotZero, Looked, Serials, Value;
    ghost var A, B := SortBoth(file0, file1, pref, n, m, u0, u1);
    NumberedPermutation(A, u0);
    Equiv(file0, file1, pref, n, m);
    ghost var C := Lines(file0, pref, n);
    SerialsKept(A, B, C);
    Unsort(file0, pref, n);
    ClassesExact(file0[..], file1[..], A, B, C, u0, u1);
  }

  /** Both tables sorted, the last entry of the second below no other. */
  method SortBoth(file0: array<int>, file1: array<int>, pref: nat, n: nat, m: nat, ghost u0: seq<int>,
                  ghost u1: seq<int>)
    returns (ghost A: seq<Line>, ghost B: seq<Line>)
    requires file0 != file1 && 2 * (pref + n) + 3 < file0.Length && 2 * (pref + m) + 3 < file1.Length
    requires |u1| == m && LastNotZero(u1)
    requires Lines(file0, pref, n) == Numbered(u0) && Lines(file1, pref, m) == Numbered(u1)
    modifies file0, file1
    ensures Lines(file0, pref, n) == A && Sorted(A) && multiset(A) == multiset(Numbered(u0))
    ensures Lines(file1, pref, m) == B && Sorted(B) && multiset(B) == multiset(Numbered(u1))
    ensures m > 0 ==> Value(file1, pref + m) != 0
  {
    hide Sorted, Numbered, Lines, LastNotZero;
    Sort(file0, pref, n);
    A := Lines(file0, pref, n);
    Sort(file1, pref, m);
    B := Lines(file1, pref, m);
    assert Lines(file0, pref, n) == A;
    if m > 0 {
      SortedLast(B, u1);
      EntriesRead(file1, pref, m);
    }
  }

  lemma SerialsKept(a: seq<Line>, b: seq<Line>, c: seq<Line>)
    requires Looked(a, b, c) && Serials(a)
    ensures Serials(c)
  {
  }

  /** The stages from prune to unravel: from the two line tables to the match vector. */
  method Match(file0: array<int>, len0: nat, file1: array<int>, len1: nat, minimal: bool, sq: nat)
    returns (J: array<int>)
    requires file0 != file1 && 2 * len0 + 3 < file0.Length && 2 * len1 + 3 < file1.Length
    requires len1 <= INT_MAX
    requires SentinelSafe(TableValues(file0, len0), TableValues(file1, len1))
    modifies file0, file1
    ensures fresh(J) && J.Length == len0 + 2
    ensures MatchOf(J[..], old(TableValues(file0, len0)), old(TableValues(file1, len1)),
                    Exhaustive(minimal, sq, old(TableValues(file1, len1))))
    ensures EndsKept(J[..], old(TableValues(file0, len0)), old(TableValues(file1, len1)))
  {
    hide EndsKept, Pruned, TableValues, Classes, PoolOk, KList, Optimal, Path, MatchOf, Chain, Longest, Whole, MateOf,
         SentinelSafe, Exhaustive;
    ghost var v, w := TableValues(file0, len0), TableValues(file1, len1);
    var pref, suff := Classify(file0, len0, file1, len1);
    PrunedBounds(v, w, pref, suff);
    var n := len0 - pref - suff;
    ghost var u0, u1 := v[pref..|v| - suff], w[pref..|w| - suff];
    assert Classes(file0[..], file1[..], u0, u1);
    var klist := new int[n + 2];
    var pool := new CandidatePool();
    var k := pool.Stone(file0, n, file1, klist, minimal, sq, u0, u1);
    ghost var c := klist[..];
    KListAt(pool.clist, c, k, n);
    PathLongest(pool.clist, c, k, u0, u1);
    if Exhaustive(minimal, sq, w) {
      ExhaustivePart(minimal, sq, w, pref, |w| - suff);
    }
    ghost var path := Path(pool.clist, c[k]);
    J := new int[len0 + 2];
    pool.Unravel(klist[k], J, len0, len1, pref, suff, u0, u1);
    Unravelled(J[..], path, v, w, pref, suff, Exhaustive(minimal, sq, w));
  }

  /** What unravel leaves in J when it follows a chain of the middle parts. */
  lemma Unravelled(J: seq<int>, path: seq<Pair>, v: seq<int>, w: seq<int>, pref: nat, suff: nat, longest: bool)
    requires |v| + 1 < |J| && Pruned(v, w, pref, suff) && pref + suff <= |v| && pref + suff <= |w|
    requires Chain(path, v[pref..|v| - suff], w[pref..|w| - suff])
    requires longest ==> Longest(path, v[pref..|v| - suff], w[pref..|w| - suff])
    requires forall i :: 0 <= i <= |v| ==> J[i] == MateOf(Whole(path, pref, suff, |v|, |w|), i)
    ensures MatchOf(J, v, w, longest) && EndsKept(J, v, w)
  {
    hide EndsKept, Pruned, MatchOf, Chain, Longest, Whole, MateOf;
    PrunedBounds(v, w, pref, suff);
    WholeChain(path, v, w, pref, suff);
    EndsOfWhole(J, path, v, w, pref, suff);
    if longest {
      WholeLongest(path, v, w, pref, suff);
    }
    MatesMatch(J, Whole(path, pref, suff, |v|, |w|), v, w, longest);
  }

  lemma ExhaustivePart(minimal: bool, sq: nat, w: seq<int>, i: nat, j: nat)
    requires i <= j <= |w| && Exhaustive(minimal, sq, w)
    ensures Exhaustive(minimal, sq, w[i..j])
  {
    var part := w[i..j];
    assert w == w[..i] + part + w[j..];
    forall y | 0 <= y < |part| ensures minimal || multiset(part)[part[y]] <= 256 || multiset(part)[part[y]] <= sq {
      assert part[y] == w[i + y];
    }
  }

  lemma KListAt(cl: seq<Cand>, c: seq<int>, k: int, i: int)
    requires KList(cl, c, k, i)
    ensures 0 <= k < |c| && 0 <= c[k] < |cl| && Linked(cl)
  {
  }

  lemma PrunedBounds(v: seq<int>, w: seq<int>, pref: nat, suff: nat)
    requires Pruned(v, w, pref, suff)
    ensures pref + suff <= |v| && pref + suff <= |w|
    ensures v[..pref] == w[..pref] && v[|v| - suff..] == w[|w| - suff..]
  {
  }

  lemma SentinelAt(v: seq<int>, w: seq<int>, pref: nat, suff: nat)
    requires SentinelSafe(v, w) && Pruned(v, w, pref, suff) && pref + suff <= |w|
    ensures LastNotZero(w[pref..|w| - suff])
  {
  }
}
