/** Stone's longest-common-subsequence search: stone, search, newcand and unravel.
    The file-scope pool clist is the state of the class; klist, class, member and J are arrays. */
module Stone {
  import opened CommonSubsequence

  /** A k-candidate: the pair (x,y) chained through pred to a common subsequence that it ends. */
  datatype Cand = Cand(x: int, y: int, pred: int)

  const UINT_MAX: nat := 0xFFFF_FFFF
  const INT_MAX: nat := 0x7FFF_FFFF

  ghost predicate Linked(cl: seq<Cand>) {
    && 0 < |cl|
    && cl[0] == Cand(0, 0, 0)
    && forall q :: 1 <= q < |cl| ==> 0 <= cl[q].pred < q
  }

  /** Every pool entry but the root pairs equal lines, strictly after the pair it is chained to. */
  ghost predicate PoolOk<T>(cl: seq<Cand>, a: seq<T>, b: seq<T>) {
    && Linked(cl)
    && forall q :: 1 <= q < |cl| ==> CandOk(cl, q, a, b)
  }

  ghost predicate CandOk<T>(cl: seq<Cand>, q: int, a: seq<T>, b: seq<T>)
    requires 1 <= q < |cl|
  {
    && 1 <= cl[q].x <= |a| && 1 <= cl[q].y <= |b|
    && a[cl[q].x - 1] == b[cl[q].y - 1]
    && 0 <= cl[q].pred < q
    && cl[cl[q].pred].x < cl[q].x
    && cl[cl[q].pred].y < cl[q].y
  }

  /** The common subsequence that candidate q ends. */
  ghost function Path(cl: seq<Cand>, q: nat): (p: seq<Pair>)
    requires Linked(cl) && q < |cl|
    ensures q == 0 ==> p == []
    ensures q > 0 ==> p != [] && p[|p| - 1] == Pair(cl[q].x, cl[q].y)
    decreases q
  {
    if q == 0 then [] else Path(cl, cl[q].pred) + [Pair(cl[q].x, cl[q].y)]
  }

  lemma {:induction false} PathExtend(cl: seq<Cand>, cl': seq<Cand>, q: nat)
    requires Linked(cl) && Linked(cl') && cl <= cl' && q < |cl|
    ensures Path(cl, q) == Path(cl', q)
    decreases q
  {
    if q > 0 {
      PathExtend(cl, cl', cl[q].pred);
    }
  }

  lemma {:induction false} PathIsChain<T>(cl: seq<Cand>, q: nat, a: seq<T>, b: seq<T>)
    requires PoolOk(cl, a, b) && q < |cl|
    ensures Chain(Path(cl, q), a, b)
    ensures forall t :: 0 <= t < |Path(cl, q)| ==> Path(cl, q)[t].x <= cl[q].x && Path(cl, q)[t].y <= cl[q].y
    decreases q
  {
    if q > 0 {
      var r := cl[q].pred;
      assert CandOk(cl, q, a, b);
      PathIsChain(cl, r, a, b);
      ChainAppend(Path(cl, r), [Pair(cl[q].x, cl[q].y)], a, b, cl[r].x, cl[r].y);
    }
  }

  /** c[0..k] holds one candidate per subsequence length, with strictly increasing y and x at most i. */
  ghost predicate KList(cl: seq<Cand>, c: seq<int>, k: int, i: int) {
    && Linked(cl)
    && 0 <= k < |c|
    && c[0] == 0
    && (forall l :: 0 <= l <= k ==> 0 <= c[l] < |cl| && |Path(cl, c[l])| == l && cl[c[l]].x <= i)
    && (forall l, r :: 0 <= l < r <= k ==> cl[c[l]].y < cl[c[r]].y)
  }

  lemma KListExtend(cl: seq<Cand>, cl': seq<Cand>, c: seq<int>, k: int, i: int)
    requires KList(cl, c, k, i) && Linked(cl') && cl <= cl'
    ensures KList(cl', c, k, i)
  {
    forall l | 0 <= l <= k ensures |Path(cl', c[l])| == l {
      PathExtend(cl, cl', c[l]);
    }
  }

  /** The y of the length-l candidate. */
  ghost function Y(cl: seq<Cand>, c: seq<int>, l: int): int
    requires 0 <= l < |c| && 0 <= c[l] < |cl|
  {
    cl[c[l]].y
  }

  lemma YMonotone(cl: seq<Cand>, c: seq<int>, k: int, i: int)
    requires KList(cl, c, k, i)
    ensures forall l, r :: 0 <= l <= r <= k ==> Y(cl, c, l) <= Y(cl, c, r)
  {
    forall l, r | 0 <= l <= r <= k ensures Y(cl, c, l) <= Y(cl, c, r) {
      assert l == r || cl[c[l]].y < cl[c[r]].y;
    }
  }

  /** No common subsequence using lines 1..i of a is longer than k, and none of length l ends
      before the y of the length-l candidate. */
  ghost predicate Optimal<T>(cl: seq<Cand>, c: seq<int>, k: int, i: int, a: seq<T>, b: seq<T>)
    requires KList(cl, c, k, i)
  {
    forall p: seq<Pair> :: Chain(p, a, b) && p != [] && p[|p| - 1].x <= i ==>
      |p| <= k && Y(cl, c, |p|) <= p[|p| - 1].y
  }

  function Abs(x: int): int { if x < 0 then -x else x }

  /** b[j..e] lists lines of f that equal v: the first flagged by its sign, the others positive, ascending. */
  ghost predicate ClassRun<T>(b: seq<int>, j: int, e: int, v: T, f: seq<T>) {
    && 1 <= j < e < |b|
    && b[j] < 0
    && b[e] <= 0
    && (forall t :: j < t < e ==> b[t] > 0)
    && (forall t :: j <= t < e ==> 1 <= Abs(b[t]) <= |f| && f[Abs(b[t]) - 1] == v)
    && (forall s, t :: j <= s < t < e ==> Abs(b[s]) < Abs(b[t]))
  }

  /** b[j..e] is the class of line value v: it lists exactly the lines of f that equal v. */
  ghost predicate ClassAt<T>(b: seq<int>, j: int, e: int, v: T, f: seq<T>) {
    && ClassRun(b, j, e, v, f)
    && (forall y {:trigger Listed(b, j, e, y)} :: 1 <= y <= |f| && f[y - 1] == v ==> Listed(b, j, e, y))
  }

  ghost predicate Listed(b: seq<int>, j: int, e: int, y: int)
    requires 0 <= j && e <= |b|
  {
    exists t :: j <= t < e && Abs(b[t]) == y
  }

  ghost predicate HasClass<T>(b: seq<int>, j: int, v: T, f: seq<T>) {
    exists e :: ClassAt(b, j, e, v, f)
  }

  /** class and member together give, for every line of f1, its class in f2 (0 when it has none). */
  ghost predicate Classes<T>(cls: seq<int>, mem: seq<int>, f1: seq<T>, f2: seq<T>) {
    && |f1| < |cls|
    && forall i :: 1 <= i <= |f1| ==>
         if cls[i] == 0 then f1[i - 1] !in f2 else HasClass(mem, cls[i], f1[i - 1], f2)
  }

  /** Within a row: members j..jj of the class of line i have been offered. cl0, c0 are the pool and
      klist at the start of the row. Levels above oldl are untouched, and no level got worse; every level
      whose start-of-row predecessor a processed member could extend ends no later than that member. */
  ghost predicate RowInv(cl0: seq<Cand>, c0: seq<int>, cl: seq<Cand>, c: seq<int>, k: int, i: int,
                         oldl: int, mem: seq<int>, j: int, jj: int)
  {
    && KList(cl0, c0, k, i - 1) && KList(cl, c, k, i)
    && cl0 <= cl && |c| == |c0|
    && 0 <= j <= jj <= |mem|
    && 0 <= oldl <= k
    && (forall l :: oldl < l < |c| ==> c[l] == c0[l])
    && (forall l :: 0 <= l <= k ==> Y(cl, c, l) <= Y(cl0, c0, l))
    && (forall t :: j <= t < jj ==> Serves(cl0, c0, cl, c, k, Abs(mem[t])))
  }

  ghost predicate Serves(cl0: seq<Cand>, c0: seq<int>, cl: seq<Cand>, c: seq<int>, k: int, y: int)
    requires 0 <= k < |c0| && k < |c|
    requires forall l :: 0 <= l <= k ==> 0 <= c0[l] < |cl0| && 0 <= c[l] < |cl|
  {
    && y <= Y(cl0, c0, k)
    && forall l :: 1 <= l <= k && Y(cl0, c0, l - 1) < y ==> Y(cl, c, l) <= y
  }

  /** The remembered candidate oldc is the start-of-row candidate of some level e that is either oldl
      itself or lies strictly below the next member y. */
  ghost predicate Remembered(cl0: seq<Cand>, c0: seq<int>, cl: seq<Cand>, c: seq<int>, k: int,
                             oldl: int, e: int, oldc: int, y: int)
  {
    && 0 <= k < |c0| && k < |c|
    && (forall l :: 0 <= l <= k ==> 0 <= c0[l] < |cl0| && 0 <= c[l] < |cl|)
    && 0 <= oldl <= e <= k
    && oldc == c0[e]
    && Y(cl, c, oldl) < y
    && (e > oldl ==> Y(cl0, c0, e) < y)
  }

  /** Skipping a member at or below the remembered candidate loses nothing. */
  lemma {:induction false} SkipServes(cl0: seq<Cand>, c0: seq<int>, cl: seq<Cand>, c: seq<int>, k: int, i: int,
                   oldl: int, e: int, oldc: int, mem: seq<int>, j: int, jj: int, y: int)
    requires RowInv(cl0, c0, cl, c, k, i, oldl, mem, j, jj)
    requires Remembered(cl0, c0, cl, c, k, oldl, e, oldc, y)
    requires y <= cl0[c0[e]].y
    ensures Serves(cl0, c0, cl, c, k, y)
  {
    YMonotone(cl0, c0, k, i - 1);
    YMonotone(cl, c, k, i);
    assert e == oldl;
  }

  /** The level found for y is above oldl, and oldc after the source's update is its start-of-row predecessor. */
  lemma {:induction false} FoundLevel(cl0: seq<Cand>, c0: seq<int>, cl: seq<Cand>, c: seq<int>, k: int, i: int,
                   oldl: int, e: int, oldc: int, mem: seq<int>, j: int, jj: int, y: int, l: int)
    requires RowInv(cl0, c0, cl, c, k, i, oldl, mem, j, jj)
    requires Remembered(cl0, c0, cl, c, k, oldl, e, oldc, y)
    requires y > cl0[c0[e]].y
    requires 1 <= l <= k + 1 && Y(cl, c, l - 1) < y && (l <= k ==> y <= Y(cl, c, l))
    ensures l > oldl
    ensures (if l != oldl + 1 then c[l - 1] else oldc) == c0[l - 1]
    ensures Y(cl0, c0, l - 1) < y
  {
    YMonotone(cl, c, k, i);
    if e > oldl {
      assert Y(cl, c, e) == Y(cl0, c0, e);
    }
  }

  /** A member that ends level l exactly, or is installed there, serves every level it could extend. */
  lemma {:induction false} EqualServes(cl0: seq<Cand>, c0: seq<int>, cl: seq<Cand>, c: seq<int>, k: int, i: int,
                   oldl: int, mem: seq<int>, j: int, jj: int, y: int, l: int)
    requires RowInv(cl0, c0, cl, c, k, i, oldl, mem, j, jj)
    requires 1 <= l <= k && Y(cl, c, l) == y
    ensures Serves(cl0, c0, cl, c, k, y)
  {
    forall r | 1 <= r <= k && Y(cl0, c0, r - 1) < y ensures Y(cl, c, r) <= y {
      YMonotone(cl0, c0, k, i - 1);
    }
  }

  /** Installing (i, y) at level l, chained to the start-of-row candidate of level l - 1. */
  lemma {:induction false} InstallKList(cl: seq<Cand>, c: seq<int>, k: int, i: int, l: int, y: int, pred: int)
    requires KList(cl, c, k, i)
    requires 1 <= l <= k + 1 < |c|
    requires 0 <= pred < |cl| && |Path(cl, pred)| == l - 1
    requires Y(cl, c, l - 1) < y
    requires l <= k ==> y <= Y(cl, c, l)
    ensures KList(cl + [Cand(i, y, pred)], c[l := |cl|], if l <= k then k else l, i)
  {
    hide Path, Linked;
    var cl', c' := cl + [Cand(i, y, pred)], c[l := |cl|];
    InstallLinked(cl, c, k, i, y, pred);
    InstallLengths(cl, c, k, i, l, y, pred);
    InstallOrder(cl, c, k, i, l, y, pred);
  }

  lemma InstallLinked(cl: seq<Cand>, c: seq<int>, k: int, i: int, y: int, pred: int)
    requires KList(cl, c, k, i) && 0 <= pred < |cl|
    ensures Linked(cl) && Linked(cl + [Cand(i, y, pred)])
  {
    hide Path;
  }

  lemma InstallLengths(cl: seq<Cand>, c: seq<int>, k: int, i: int, l: int, y: int, pred: int)
    requires KList(cl, c, k, i) && Linked(cl + [Cand(i, y, pred)])
    requires 1 <= l <= k + 1 < |c| && 0 <= pred < |cl| && |Path(cl, pred)| == l - 1
    ensures var cl', c' := cl + [Cand(i, y, pred)], c[l := |cl|];
      forall s :: 0 <= s <= (if l <= k then k else l) ==>
        0 <= c'[s] < |cl'| && |Path(cl', c'[s])| == s && cl'[c'[s]].x <= i
  {
    var cl', c' := cl + [Cand(i, y, pred)], c[l := |cl|];
    KListExtend(cl, cl', c, k, i);
    PathExtend(cl, cl', pred);
  }

  lemma InstallOrder(cl: seq<Cand>, c: seq<int>, k: int, i: int, l: int, y: int, pred: int)
    requires KList(cl, c, k, i) && 1 <= l <= k + 1 < |c|
    requires Y(cl, c, l - 1) < y && (l <= k ==> y <= Y(cl, c, l))
    ensures var cl', c' := cl + [Cand(i, y, pred)], c[l := |cl|];
      forall s, r :: 0 <= s < r <= (if l <= k then k else l) ==>
        0 <= c'[s] < |cl'| && 0 <= c'[r] < |cl'| && cl'[c'[s]].y < cl'[c'[r]].y
  {
    hide Path, Linked;
    YMonotone(cl, c, k, i);
    var cl', c' := cl + [Cand(i, y, pred)], c[l := |cl|];
    forall s, r | 0 <= s < r <= (if l <= k then k else l)
      ensures 0 <= c'[s] < |cl'| && 0 <= c'[r] < |cl'| && cl'[c'[s]].y < cl'[c'[r]].y
    {
      if r < l {
        assert cl[c[s]].y < cl[c[r]].y;
      } else if r == l {
        assert Y(cl, c, s) <= Y(cl, c, l - 1);
      } else if s == l {
        assert cl[c[l]].y < cl[c[r]].y;
      } else {
        assert cl[c[s]].y < cl[c[r]].y;
      }
    }
  }

  lemma {:induction false} InstallRow(cl0: seq<Cand>, c0: seq<int>, cl: seq<Cand>, c: seq<int>, k: int, i: int,
                   oldl: int, mem: seq<int>, j: int, jj: int, y: int, l: int)
    requires RowInv(cl0, c0, cl, c, k, i, oldl, mem, j, jj)
    requires oldl < l <= k && k + 1 < |c|
    requires Y(cl, c, l - 1) < y < Y(cl, c, l)
    ensures RowInv(cl0, c0, cl + [Cand(i, y, c0[l - 1])], c[l := |cl|], k, i, l, mem, j, jj)
    ensures Serves(cl0, c0, cl + [Cand(i, y, c0[l - 1])], c[l := |cl|], k, y)
  {
    var cl', c' := cl + [Cand(i, y, c0[l - 1])], c[l := |cl|];
    PathExtend(cl0, cl, c0[l - 1]);
    InstallKList(cl, c, k, i, l, y, c0[l - 1]);
    assert forall r :: 0 <= r <= k ==> Y(cl', c', r) <= Y(cl, c, r);
    forall t | j <= t < jj ensures Serves(cl0, c0, cl', c', k, Abs(mem[t])) {
      assert Serves(cl0, c0, cl, c, k, Abs(mem[t]));
    }
    assert RowInv(cl0, c0, cl', c', k, i, l, mem, j, jj);
    EqualServes(cl0, c0, cl', c', k, i, l, mem, j, jj, y, l);
  }

  /** A finished row serves member y: every length it can end, ends no later than y. */
  ghost predicate RowServes(cl0: seq<Cand>, c0: seq<int>, k0: int, cl: seq<Cand>, c: seq<int>, k: int, y: int)
    requires 0 <= k0 < |c0| && 0 <= k < |c|
    requires forall l :: 0 <= l <= k0 ==> 0 <= c0[l] < |cl0|
    requires forall l :: 0 <= l <= k ==> 0 <= c[l] < |cl|
  {
    forall r :: 0 <= r <= k0 && Y(cl0, c0, r) < y ==> r + 1 <= k && Y(cl, c, r + 1) <= y
  }

  ghost predicate RowDone(cl0: seq<Cand>, c0: seq<int>, k0: int, cl: seq<Cand>, c: seq<int>, k: int, i: int,
                          mem: seq<int>, j: int, e: int, complete: bool)
  {
    && KList(cl0, c0, k0, i - 1) && KList(cl, c, k, i)
    && k0 <= k <= k0 + 1
    && cl0 <= cl && |c| == |c0|
    && 0 <= j <= e <= |mem|
    && (forall l :: 0 <= l <= k0 ==> Y(cl, c, l) <= Y(cl0, c0, l))
    && (complete ==> forall t :: j <= t < e ==> RowServes(cl0, c0, k0, cl, c, k, Abs(mem[t])))
  }

  /** Adding a longer subsequence ends the row: the members still to come all lie beyond it. */
  lemma {:induction false} ExtendRow(cl0: seq<Cand>, c0: seq<int>, cl: seq<Cand>, c: seq<int>, k: int, i: int,
                   oldl: int, mem: seq<int>, j: int, jj: int, e: int, y: int)
    requires RowInv(cl0, c0, cl, c, k, i, oldl, mem, j, jj)
    requires jj < e <= |mem| && k + 1 < |c|
    requires y == Abs(mem[jj])
    requires forall s, t :: j <= s < t < e ==> Abs(mem[s]) < Abs(mem[t])
    requires Y(cl, c, k) < y
    ensures RowDone(cl0, c0, k, cl + [Cand(i, y, c0[k])], c[k + 1 := |cl|], k + 1, i, mem, j, e, true)
  {
    var cl', c' := cl + [Cand(i, y, c0[k])], c[k + 1 := |cl|];
    PathExtend(cl0, cl, c0[k]);
    InstallKList(cl, c, k, i, k + 1, y, c0[k]);
    forall t | j <= t < e ensures RowServes(cl0, c0, k, cl', c', k + 1, Abs(mem[t])) {
      if t < jj {
        assert Serves(cl0, c0, cl, c, k, Abs(mem[t]));
        ServesEarlier(cl0, c0, cl, c, cl', c', k, Abs(mem[t]));
      } else {
        YMonotone(cl', c', k + 1, i);
        assert Y(cl', c', k + 1) == y <= Abs(mem[t]);
      }
    }
  }

  lemma ServesEarlier(cl0: seq<Cand>, c0: seq<int>, cl: seq<Cand>, c: seq<int>, cl': seq<Cand>, c': seq<int>, k: int,
                      y: int)
    requires 0 <= k < |c0| && k + 1 < |c| == |c'|
    requires forall l :: 0 <= l <= k ==> 0 <= c0[l] < |cl0| && 0 <= c[l] < |cl| && c'[l] == c[l]
    requires cl <= cl' && 0 <= c'[k + 1] < |cl'|
    requires Serves(cl0, c0, cl, c, k, y)
    ensures RowServes(cl0, c0, k, cl', c', k + 1, y)
  {
    forall r | 0 <= r <= k && Y(cl0, c0, r) < y ensures r + 1 <= k + 1 && Y(cl', c', r + 1) <= y {
      assert r < k;
      assert Y(cl', c', r + 1) == Y(cl, c, r + 1);
    }
  }

  lemma {:induction false} EndRow(cl0: seq<Cand>, c0: seq<int>, cl: seq<Cand>, c: seq<int>, k: int, i: int,
                   oldl: int, mem: seq<int>, j: int, jj: int, e: int, complete: bool)
    requires RowInv(cl0, c0, cl, c, k, i, oldl, mem, j, jj)
    requires jj <= e <= |mem|
    requires complete ==> jj == e
    ensures RowDone(cl0, c0, k, cl, c, k, i, mem, j, e, complete)
  {
    if complete {
      forall t | j <= t < e ensures RowServes(cl0, c0, k, cl, c, k, Abs(mem[t])) {
        assert Serves(cl0, c0, cl, c, k, Abs(mem[t]));
      }
    }
  }

  lemma RowInvNext(cl0: seq<Cand>, c0: seq<int>, cl: seq<Cand>, c: seq<int>, k: int, i: int,
                   oldl: int, mem: seq<int>, j: int, jj: int)
    requires RowInv(cl0, c0, cl, c, k, i, oldl, mem, j, jj) && jj < |mem|
    requires Serves(cl0, c0, cl, c, k, Abs(mem[jj]))
    ensures RowInv(cl0, c0, cl, c, k, i, oldl, mem, j, jj + 1)
  {
    hide KList, Serves;
  }

  lemma RememberedNext(cl0: seq<Cand>, c0: seq<int>, cl: seq<Cand>, c: seq<int>, k: int,
                       oldl: int, e: int, oldc: int, y: int, y': int)
    requires Remembered(cl0, c0, cl, c, k, oldl, e, oldc, y) && y <= y'
    ensures Remembered(cl0, c0, cl, c, k, oldl, e, oldc, y')
  {
  }

  /** A row of stone in progress: the pool and klist it started from and the class it offers. */
  datatype Row<T> = Row(cl0: seq<Cand>, c0: seq<int>, mem: seq<int>, j: nat, e: nat, f1: seq<T>, f2: seq<T>)
  {
    ghost predicate Ok(cl: seq<Cand>, c: seq<int>, k: int, i: int, oldl: int, lev: int, oldc: int, jj: int) {
      && 1 <= i <= |f1|
      && k + 1 < |c|
      && ClassRun(mem, j, e, f1[i - 1], f2)
      && jj <= e
      && PoolOk(cl, f1, f2)
      && RowInv(cl0, c0, cl, c, k, i, oldl, mem, j, jj)
      && (jj < e ==> Remembered(cl0, c0, cl, c, k, oldl, lev, oldc, Abs(mem[jj])))
    }

    /** The bounds that the loop body relies on. */
    lemma Facts(cl: seq<Cand>, c: seq<int>, k: int, i: int, oldl: int, lev: int, oldc: int, jj: int)
      requires Ok(cl, c, k, i, oldl, lev, oldc, jj) && jj < e
      ensures 0 <= oldc < |cl| && 0 <= oldl <= lev <= k
      ensures oldc == c0[lev] && Y(cl, c, 0) < Abs(mem[jj])
      ensures KList(cl, c, k, i) && k + 1 < |c| == |c0|
      ensures forall l :: 0 <= l <= k ==> 0 <= c[l] < |cl| && 0 <= c0[l] < |cl0| && cl0[c0[l]].x < i
      ensures forall l :: oldl < l < |c| ==> c[l] == c0[l]
    {
    }

    /** Skipping a member at or below the remembered candidate loses nothing. */
    lemma Skip(cl: seq<Cand>, c: seq<int>, k: int, i: int, oldl: int, lev: int, oldc: int, jj: int)
      requires Ok(cl, c, k, i, oldl, lev, oldc, jj) && jj < e
      requires Abs(mem[jj]) <= cl[oldc].y
      ensures Ok(cl, c, k, i, oldl, lev, oldc, jj + 1)
    {
      hide KList, PoolOk, Serves, RowInv, Remembered;
      Facts(cl, c, k, i, oldl, lev, oldc, jj);
      Started(cl, c, k, i, oldl, lev, oldc, jj);
      SkipServes(cl0, c0, cl, c, k, i, oldl, lev, oldc, mem, j, jj, Abs(mem[jj]));
      RowInvNext(cl0, c0, cl, c, k, i, oldl, mem, j, jj);
      if jj + 1 < e {
        RememberedNext(cl0, c0, cl, c, k, oldl, lev, oldc, Abs(mem[jj]), Abs(mem[jj + 1]));
      }
    }

    /** The remembered candidate was there when the row started. */
    lemma Started(cl: seq<Cand>, c: seq<int>, k: int, i: int, oldl: int, lev: int, oldc: int, jj: int)
      requires Ok(cl, c, k, i, oldl, lev, oldc, jj) && jj < e
      ensures 0 <= jj < |mem| && (jj + 1 < e ==> jj + 1 < |mem| && Abs(mem[jj]) < Abs(mem[jj + 1]))
      ensures 0 <= lev < |c0| && 0 <= c0[lev] < |cl0| && cl0[c0[lev]] == cl[oldc]
    {
    }

    /** The level found for a member: it lies above oldl, and oldc after the source's update is the
        candidate that its predecessor level held at the start of the row. */
    lemma Found(cl: seq<Cand>, c: seq<int>, k: int, i: int, oldl: int, lev: int, oldc: int, jj: int, l: int)
      requires Ok(cl, c, k, i, oldl, lev, oldc, jj) && jj < e
      requires Abs(mem[jj]) > cl[oldc].y
      requires 1 <= l <= k + 1 && Y(cl, c, l - 1) < Abs(mem[jj]) && (l <= k ==> Abs(mem[jj]) <= Y(cl, c, l))
      ensures l > oldl
      ensures (if l != oldl + 1 then c[l - 1] else oldc) == c0[l - 1]
      ensures Y(cl0, c0, l - 1) < Abs(mem[jj])
    {
      Facts(cl, c, k, i, oldl, lev, oldc, jj);
      FoundLevel(cl0, c0, cl, c, k, i, oldl, lev, oldc, mem, j, jj, Abs(mem[jj]), l);
    }

    lemma Equal(cl: seq<Cand>, c: seq<int>, k: int, i: int, oldl: int, lev: int, oldc: int, jj: int, l: int)
      requires Ok(cl, c, k, i, oldl, lev, oldc, jj) && jj < e
      requires oldl < l <= k && Y(cl, c, l) == Abs(mem[jj]) && Y(cl0, c0, l - 1) < Abs(mem[jj])
      ensures Ok(cl, c, k, i, oldl, l - 1, c0[l - 1], jj + 1)
    {
      hide PoolOk, Serves, RowInv;
      Facts(cl, c, k, i, oldl, lev, oldc, jj);
      Started(cl, c, k, i, oldl, lev, oldc, jj);
      EqualServes(cl0, c0, cl, c, k, i, oldl, mem, j, jj, Abs(mem[jj]), l);
      RowInvNext(cl0, c0, cl, c, k, i, oldl, mem, j, jj);
    }

    /** Replacing the candidate of level l. */
    lemma Install(cl: seq<Cand>, c: seq<int>, k: int, i: int, oldl: int, lev: int, oldc: int, jj: int, l: int)
      requires Ok(cl, c, k, i, oldl, lev, oldc, jj) && jj < e
      requires oldl < l <= k && Y(cl0, c0, l - 1) < Abs(mem[jj])
      requires Y(cl, c, l - 1) < Abs(mem[jj]) < Y(cl, c, l)
      ensures Ok(cl + [Cand(i, Abs(mem[jj]), c0[l - 1])], c[l := |cl|], k, i, l, l, c[l], jj + 1)
    {
      hide KList, PoolOk, Serves;
      Facts(cl, c, k, i, oldl, lev, oldc, jj);
      var y := Abs(mem[jj]);
      InstallRow(cl0, c0, cl, c, k, i, oldl, mem, j, jj, y, l);
      InstallPool(cl0, c0, f1, f2, cl, i, l - 1, y);
    }

    /** Extending the klist ends the row. */
    lemma Extend(cl: seq<Cand>, c: seq<int>, k: int, i: int, oldl: int, lev: int, oldc: int, jj: int)
      requires Ok(cl, c, k, i, oldl, lev, oldc, jj) && jj < e
      requires Y(cl0, c0, k) < Abs(mem[jj]) && Y(cl, c, k) < Abs(mem[jj])
      ensures Done(cl + [Cand(i, Abs(mem[jj]), c0[k])], c[k + 1 := |cl|], k, k + 1, i, true)
    {
      hide KList, PoolOk, Serves;
      Facts(cl, c, k, i, oldl, lev, oldc, jj);
      ExtendRow(cl0, c0, cl, c, k, i, oldl, mem, j, jj, e, Abs(mem[jj]));
      InstallPool(cl0, c0, f1, f2, cl, i, k, Abs(mem[jj]));
    }

    lemma Signs(i: int)
      requires 1 <= i <= |f1| && ClassRun(mem, j, e, f1[i - 1], f2)
      ensures 1 <= j < e < |mem| && mem[j] < 0 && mem[e] <= 0
      ensures forall t :: j < t < e ==> mem[t] > 0
    {
    }

    lemma Start(k: int, i: int)
      requires 1 <= i <= |f1| && k + 1 < |c0|
      requires PoolOk(cl0, f1, f2) && KList(cl0, c0, k, i - 1)
      requires ClassRun(mem, j, e, f1[i - 1], f2)
      ensures Ok(cl0, c0, k, i, 0, 0, c0[0], j)
    {
    }

    lemma End(cl: seq<Cand>, c: seq<int>, k: int, i: int, oldl: int, lev: int, oldc: int, jj: int, complete: bool)
      requires Ok(cl, c, k, i, oldl, lev, oldc, jj)
      requires complete ==> jj == e
      ensures Done(cl, c, k, k, i, complete)
    {
      EndRow(cl0, c0, cl, c, k, i, oldl, mem, j, jj, e, complete);
    }

    lemma Weaken(cl: seq<Cand>, c: seq<int>, k0: int, k: int, i: int, complete: bool)
      requires Done(cl, c, k0, k, i, true)
      ensures Done(cl, c, k0, k, i, complete)
    {
    }

    /** The state after the row; k0 and k are the klist lengths before and after. */
    ghost predicate Done(cl: seq<Cand>, c: seq<int>, k0: int, k: int, i: int, complete: bool) {
      && PoolOk(cl, f1, f2)
      && RowDone(cl0, c0, k0, cl, c, k, i, mem, j, e, complete)
    }
  }

  lemma InstallPool<T>(cl0: seq<Cand>, c0: seq<int>, f1: seq<T>, f2: seq<T>, cl: seq<Cand>, i: int, l: int, y: int)
    requires PoolOk(cl, f1, f2) && cl0 <= cl
    requires 0 <= l < |c0| && 0 <= c0[l] < |cl0|
    requires 1 <= i <= |f1| && 1 <= y <= |f2| && f1[i - 1] == f2[y - 1]
    requires Y(cl0, c0, l) < y && cl0[c0[l]].x < i
    ensures PoolOk(cl + [Cand(i, y, c0[l])], f1, f2)
  {
    var cl' := cl + [Cand(i, y, c0[l])];
    forall q | 1 <= q < |cl'| ensures CandOk(cl', q, f1, f2) {
      assert q < |cl| ==> CandOk(cl, q, f1, f2);
    }
  }

  /** The bound on the replacements that one line of the first file may make. */
  function Bound(minimal: bool, sq: nat): (b: nat)
    ensures minimal ==> b == 0xFFFF_FFFF
    ensures !minimal ==> b >= 256 && b >= sq && (b == 256 || b == sq)
  {
    if minimal then UINT_MAX else if sq > 256 then sq else 256
  }

  /** The search is exhaustive: -d, or no line of the second file is there more often than 256 times, or than sq times
      when that is more. */
  ghost predicate Exhaustive<T>(minimal: bool, sq: nat, f: seq<T>) {
    minimal || forall y :: 0 <= y < |f| ==> multiset(f)[f[y]] <= 256 || multiset(f)[f[y]] <= sq
  }

  /** The candidates come row by row, not more than bound of them for a line of the first file. */
  ghost predicate Spread(cl: seq<Cand>, bound: nat) {
    forall p, q :: 0 <= p && p + bound <= q < |cl| ==> cl[p].x < cl[q].x
  }

  ghost predicate Before(cl: seq<Cand>, i: int) {
    forall q :: 0 <= q < |cl| ==> cl[q].x < i
  }

  ghost predicate Added(was: seq<Cand>, cl: seq<Cand>, i: int) {
    was <= cl && forall q :: |was| <= q < |cl| ==> cl[q].x == i
  }

  lemma AddedTwice(was: seq<Cand>, cl: seq<Cand>, cl': seq<Cand>, i: int)
    requires Added(was, cl, i) && Added(cl, cl', i)
    ensures Added(was, cl', i)
  {
  }

  lemma SpreadRow(was: seq<Cand>, cl: seq<Cand>, i: int, bound: nat)
    requires Spread(was, bound) && Before(was, i) && Added(was, cl, i) && |cl| <= |was| + bound
    ensures Spread(cl, bound) && Before(cl, i + 1)
  {
    forall q | 0 <= q < |cl| ensures cl[q].x <= i && (q < |was| ==> cl[q] == was[q] && cl[q].x < i) {
      assert q < |was| ==> cl[q] == was[q];
    }
  }

  lemma SpreadFirst(cl: seq<Cand>, bound: nat)
    requires |cl| == 1 && cl[0].x == 0 && bound > 0
    ensures Spread(cl, bound) && Before(cl, 1)
  {
  }

  lemma SpreadWhen(cl: seq<Cand>, bound: nat)
    requires Spread(cl, bound)
    ensures forall p, q :: 0 <= p <= q < |cl| && q - p >= bound ==> cl[p].x < cl[q].x
  {
  }

  lemma SpreadSame(cl: seq<Cand>, i: int)
    requires Before(cl, i)
    ensures Before(cl, i + 1)
  {
  }

  /** Distinct places at which f holds v are as many occurrences of v. */
  lemma {:induction false} Occurs<T>(f: seq<T>, v: T, ps: seq<int>)
    requires forall t :: 0 <= t < |ps| ==> 1 <= ps[t] <= |f| && f[ps[t] - 1] == v
    requires forall s, t :: 0 <= s < t < |ps| ==> ps[s] < ps[t]
    ensures |ps| <= multiset(f)[v]
    decreases |f|
  {
    if ps != [] {
      assert 1 <= ps[|ps| - 1] <= |f|;
      var n, init := |f| - 1, ps[..|ps| - 1];
      assert f == f[..n] + [f[n]];
      if ps[|ps| - 1] == n + 1 {
        Occurs(f[..n], v, init);
      } else {
        Occurs(f[..n], v, ps);
      }
    }
  }

  /** A class has at most as many members as the file has lines like them. */
  lemma ClassSize<T>(b: seq<int>, j: int, e: int, v: T, f: seq<T>)
    requires ClassRun(b, j, e, v, f)
    ensures e - j <= multiset(f)[v] <= |f| && exists y :: 0 <= y < |f| && f[y] == v
  {
    var ps := seq(e - j, t requires 0 <= t < e - j => Abs(b[j + t]));
    forall s, t | 0 <= s < t < |ps| ensures ps[s] < ps[t] {
      assert Abs(b[j + s]) < Abs(b[j + t]);
    }
    Occurs(f, v, ps);
    assert |multiset(f)| == |f|;
    assert f[Abs(b[j]) - 1] == v;
  }

  lemma Reaches<T>(b: seq<int>, j: int, e: int, v: T, f: seq<T>, minimal: bool, sq: nat)
    requires ClassRun(b, j, e, v, f) && Exhaustive(minimal, sq, f) && |f| <= INT_MAX
    ensures e - j <= Bound(minimal, sq)
  {
    hide ClassRun;
    ClassSize(b, j, e, v, f);
  }

  /** A row that offered the whole class of line i keeps the klist optimal. */
  lemma {:induction false} OptimalStep<T>(row: Row<T>, cl: seq<Cand>, c: seq<int>, k0: int, k: int, i: int)
    requires 1 <= i <= |row.f1|
    requires PoolOk(row.cl0, row.f1, row.f2) && KList(row.cl0, row.c0, k0, i - 1)
    requires Optimal(row.cl0, row.c0, k0, i - 1, row.f1, row.f2)
    requires ClassAt(row.mem, row.j, row.e, row.f1[i - 1], row.f2)
    requires row.Done(cl, c, k0, k, i, true)
    ensures Optimal(cl, c, k, i, row.f1, row.f2)
  {
    forall p: seq<Pair> | Chain(p, row.f1, row.f2) && p != [] && p[|p| - 1].x <= i
      ensures |p| <= k && Y(cl, c, |p|) <= p[|p| - 1].y
    {
      var last := p[|p| - 1];
      if last.x < i {
        assert Y(cl, c, |p|) <= Y(row.cl0, row.c0, |p|);
      } else {
        OptimalNewRow(row, cl, c, k0, k, i, p);
      }
    }
  }

  lemma {:induction false} OptimalNewRow<T>(row: Row<T>, cl: seq<Cand>, c: seq<int>, k0: int, k: int, i: int,
                                            p: seq<Pair>)
    requires 1 <= i <= |row.f1|
    requires PoolOk(row.cl0, row.f1, row.f2) && KList(row.cl0, row.c0, k0, i - 1)
    requires Optimal(row.cl0, row.c0, k0, i - 1, row.f1, row.f2)
    requires ClassAt(row.mem, row.j, row.e, row.f1[i - 1], row.f2)
    requires row.Done(cl, c, k0, k, i, true)
    requires Chain(p, row.f1, row.f2) && p != [] && p[|p| - 1].x == i
    ensures |p| <= k && Y(cl, c, |p|) <= p[|p| - 1].y
  {
    hide Chain, Optimal, KList, RowDone, ClassRun;
    var y := LastPair(p, row.f1, row.f2);
    var t := MemberOf(row.mem, row.j, row.e, row.f1[i - 1], row.f2, y);
    OptimalBefore(row.cl0, row.c0, k0, i, row.f1, row.f2, p);
    DoneServes(row, cl, c, k0, k, i, t, |p|);
  }

  lemma LastPair<T>(p: seq<Pair>, a: seq<T>, b: seq<T>) returns (y: int)
    requires Chain(p, a, b) && p != []
    ensures 1 <= y <= |b| && y == p[|p| - 1].y && 1 <= p[|p| - 1].x <= |a| && a[p[|p| - 1].x - 1] == b[y - 1]
  {
    y := p[|p| - 1].y;
  }

  lemma ClassBounds<T>(mem: seq<int>, j: int, e: int, v: T, f: seq<T>)
    requires ClassRun(mem, j, e, v, f)
    ensures 1 <= j < e < |mem|
  {
  }

  lemma MemberOf<T>(mem: seq<int>, j: int, e: int, v: T, f: seq<T>, y: int) returns (t: int)
    requires ClassAt(mem, j, e, v, f) && 1 <= y <= |f| && f[y - 1] == v
    ensures 0 <= j <= t < e <= |mem| && Abs(mem[t]) == y
  {
    hide ClassRun;
    ClassBounds(mem, j, e, v, f);
    assert Listed(mem, j, e, y);
    t :| j <= t < e && Abs(mem[t]) == y;
  }

  /** All but the last pair of a chain ending in line i are within reach of the rows before. */
  lemma {:induction false} OptimalBefore<T>(cl: seq<Cand>, c: seq<int>, k: int, i: int, a: seq<T>, b: seq<T>,
                                            p: seq<Pair>)
    requires PoolOk(cl, a, b) && KList(cl, c, k, i - 1) && Optimal(cl, c, k, i - 1, a, b)
    requires Chain(p, a, b) && p != [] && p[|p| - 1].x == i
    ensures |p| - 1 <= k && Y(cl, c, |p| - 1) < p[|p| - 1].y
  {
    var l := |p| - 1;
    var p' := p[..l];
    if l > 0 {
      assert Chain(p', a, b) && p'[l - 1].x < i && p'[l - 1].y < p[l].y;
    }
  }

  lemma DoneServes<T>(row: Row<T>, cl: seq<Cand>, c: seq<int>, k0: int, k: int, i: int, t: int, l: int)
    requires row.Done(cl, c, k0, k, i, true) && row.j <= t < row.e <= |row.mem|
    requires 1 <= l <= k0 + 1 && KList(row.cl0, row.c0, k0, i - 1) && Y(row.cl0, row.c0, l - 1) < Abs(row.mem[t])
    ensures l <= k && KList(cl, c, k, i) && Y(cl, c, l) <= Abs(row.mem[t])
  {
    hide ClassRun, PoolOk;
    assert RowServes(row.cl0, row.c0, k0, cl, c, k, Abs(row.mem[t]));
  }

  /** A line without a class changes nothing. */
  lemma {:induction false} OptimalSkip<T>(cl: seq<Cand>, c: seq<int>, k: int, i: int, a: seq<T>, b: seq<T>)
    requires 1 <= i <= |a| && a[i - 1] !in b
    requires KList(cl, c, k, i - 1) && Optimal(cl, c, k, i - 1, a, b)
    ensures KList(cl, c, k, i) && Optimal(cl, c, k, i, a, b)
  {
    forall p: seq<Pair> | Chain(p, a, b) && p != [] && p[|p| - 1].x <= i
      ensures |p| <= k && Y(cl, c, |p|) <= p[|p| - 1].y
    {
      assert a[p[|p| - 1].x - 1] == b[p[|p| - 1].y - 1];
    }
  }

  /** The chain recovered from the last klist entry; it is longest when the klist is optimal. */
  lemma {:induction false} PathLongest<T>(cl: seq<Cand>, c: seq<int>, k: int, a: seq<T>, b: seq<T>)
    requires PoolOk(cl, a, b) && KList(cl, c, k, |a|)
    ensures Chain(Path(cl, c[k]), a, b) && |Path(cl, c[k])| == k
    ensures Optimal(cl, c, k, |a|, a, b) ==> Longest(Path(cl, c[k]), a, b)
  {
    PathIsChain(cl, c[k], a, b);
    if Optimal(cl, c, k, |a|, a, b) {
      forall p: seq<Pair> | Chain(p, a, b) ensures |p| <= k {
        if p != [] {
          assert p[|p| - 1].x <= |a|;
        }
      }
    }
  }

  lemma Initial<T>(cl: seq<Cand>, c: seq<int>, a: seq<T>, b: seq<T>)
    requires cl == [Cand(0, 0, 0)] && c != [] && c[0] == 0
    ensures PoolOk(cl, a, b) && KList(cl, c, 0, 0) && Optimal(cl, c, 0, 0, a, b)
  {
  }

  lemma Later(cl: seq<Cand>, c: seq<int>, k: int, i: int)
    requires KList(cl, c, k, i - 1)
    ensures KList(cl, c, k, i)
  {
  }

  lemma ClassFacts<T>(b: seq<int>, j: int, e: int, v: T, f: seq<T>)
    requires ClassAt(b, j, e, v, f)
    ensures ClassRun(b, j, e, v, f) && 1 <= j < e
  {
  }

  lemma DoneFacts<T>(row: Row<T>, cl: seq<Cand>, c: seq<int>, k0: int, k: int, i: int, complete: bool)
    requires row.Done(cl, c, k0, k, i, complete)
    ensures PoolOk(cl, row.f1, row.f2) && KList(cl, c, k, i) && k0 <= k <= k0 + 1
  {
  }

  /** Entry h of the match vector once the pairs d.. of the path have been stored. */
  ghost function Filled(path: seq<Pair>, d: nat, pref: nat, suff: nat, n: nat, m: nat, h: int): int
    requires d <= |path|
  {
    if h <= pref then h else if h > n - suff then h + m - n
    else if MateOf(path[d..], h - pref) != 0 then MateOf(path[d..], h - pref) + pref else 0
  }

  lemma PathBounds<T>(cl: seq<Cand>, q: nat, a: seq<T>, b: seq<T>)
    requires PoolOk(cl, a, b) && q < |cl|
    ensures forall t :: 0 <= t < |Path(cl, q)| ==>
              1 <= Path(cl, q)[t].x <= |a| && 1 <= Path(cl, q)[t].y <= |b|
    ensures forall s, t :: 0 <= s < t < |Path(cl, q)| ==> Path(cl, q)[s].x < Path(cl, q)[t].x
  {
    PathIsChain(cl, q, a, b);
  }

  lemma PathStep<T>(cl: seq<Cand>, q: nat, a: seq<T>, b: seq<T>)
    requires PoolOk(cl, a, b) && q < |cl| && cl[q].y != 0
    ensures Linked(cl) && q > 0 && 0 <= cl[q].pred < q
    ensures Path(cl, q) == Path(cl, cl[q].pred) + [Pair(cl[q].x, cl[q].y)]
    ensures 1 <= cl[q].x <= |a| && 1 <= cl[q].y <= |b|
  {
    assert CandOk(cl, q, a, b);
  }

  lemma PathEnd<T>(cl: seq<Cand>, q: nat, a: seq<T>, b: seq<T>)
    requires PoolOk(cl, a, b) && q < |cl| && cl[q].y == 0
    ensures q == 0
  {
    assert q == 0 || CandOk(cl, q, a, b);
  }

  lemma FilledNone(path: seq<Pair>, pref: nat, suff: nat, n: nat, m: nat, h: int)
    ensures Filled(path, |path|, pref, suff, n, m, h) == if h <= pref then h else if h > n - suff then h + m - n else 0
  {
  }

  lemma {:induction false} FilledStep(path: seq<Pair>, d: nat, pref: nat, suff: nat, n: nat, m: nat)
    requires d < |path| && pref + suff <= n
    requires 1 <= path[d].x <= n - pref - suff && path[d].y > 0
    ensures forall h {:trigger Filled(path, d, pref, suff, n, m, h)} :: 0 <= h <= n ==>
      Filled(path, d, pref, suff, n, m, h) ==
        (if h == path[d].x + pref then path[d].y + pref else Filled(path, d + 1, pref, suff, n, m, h))
  {
    forall h | 0 <= h <= n
      ensures Filled(path, d, pref, suff, n, m, h) ==
        (if h == path[d].x + pref then path[d].y + pref else Filled(path, d + 1, pref, suff, n, m, h))
    {
      assert path[d..][1..] == path[d + 1..];
      assert MateOf(path[d..], h - pref) ==
        (if path[d].x == h - pref then path[d].y else MateOf(path[d + 1..], h - pref));
    }
  }

  lemma {:induction false} FilledAll(path: seq<Pair>, pref: nat, suff: nat, n: nat, m: nat, h: int)
    requires pref + suff <= n && pref + suff <= m
    requires forall t :: 0 <= t < |path| ==> 1 <= path[t].x <= n - pref - suff && path[t].y > 0
    requires 0 <= h <= n
    ensures Filled(path, 0, pref, suff, n, m, h) == MateOf(Whole(path, pref, suff, n, m), h)
  {
    assert path[0..] == path;
    MateOfWhole(path, pref, suff, n, m, h);
  }

  class CandidatePool {
    var clist: seq<Cand>

    constructor ()
      ensures clist == []
    {
      clist := [];
    }

    method NewCand(x: int, y: int, pred: int) returns (q: nat)
      modifies this
      ensures q == old(|clist|)
      ensures clist == old(clist) + [Cand(x, y, pred)]
    {
      q := |clist|;
      clist := clist + [Cand(x, y, pred)];
    }

    method Search(c: array<int>, k: nat, y: int, ghost i: int) returns (l: nat)
      requires KList(clist, c[..], k, i)
      requires Y(clist, c[..], 0) < y
      ensures 1 <= l <= k + 1
      ensures Y(clist, c[..], l - 1) < y
      ensures l <= k ==> y <= Y(clist, c[..], l)
    {
      if clist[c[k]].y < y {
        return k + 1;
      }
      var lo, j := 0, k + 1;
      while true
        invariant 0 <= lo < j <= k + 1
        invariant Y(clist, c[..], lo) < y
        invariant j <= k ==> y < Y(clist, c[..], j)
        decreases j - lo
      {
        l := (lo + j) / 2;
        if l <= lo {
          break;
        }
        var t := clist[c[l]].y;
        if t > y {
          j := l;
        } else if t < y {
          lo := l;
        } else {
          assert c[..][l - 1] == c[l - 1] && c[..][l] == c[l];
          return l;
        }
      }
      return l + 1;
    }

    /** The body of stone's inner loop for one member y of the class of line i: skip it, note that it
        already ends level l, replace the candidate of level l, or extend the klist. */
    method Offer<T>(c: array<int>, k: nat, i: nat, y: int, oldl: nat, oldc: nat,
                    ghost row: Row<T>, ghost jj: nat, ghost lev: nat)
      returns (oldl': nat, oldc': nat, tried: bool, extended: bool, ghost lev': nat)
      requires row.Ok(clist, c[..], k, i, oldl, lev, oldc, jj)
      requires jj < row.e && y == Abs(row.mem[jj])
      modifies this, c
      ensures !extended ==> row.Ok(clist, c[..], k, i, oldl', lev', oldc', jj + 1)
      ensures extended ==> row.Done(clist, c[..], k, k + 1, i, true)
      ensures |clist| == old(|clist|) + if tried || extended then 1 else 0
      ensures Added(old(clist), clist, i)
    {
      oldl', oldc', tried, extended, lev' := oldl, oldc, false, false, lev;
      hide Row.Ok, Row.Done, KList, RowDone;
      ghost var cl, cs := clist, c[..];
      row.Facts(cl, cs, k, i, oldl, lev, oldc, jj);
      if y <= clist[oldc].y {
        row.Skip(cl, cs, k, i, oldl, lev, oldc, jj);
        return;
      }
      var l := Search(c, k, y, i);
      row.Found(cl, cs, k, i, oldl, lev, oldc, jj, l);
      if l != oldl + 1 {
        oldc' := c[l - 1];
      }
      lev' := l - 1;
      if l <= k {
        if clist[c[l]].y <= y {
          row.Equal(cl, cs, k, i, oldl, lev, oldc, jj, l);
          return;
        }
        row.Install(cl, cs, k, i, oldl, lev, oldc, jj, l);
        var tc := c[l];
        var q := NewCand(i, y, oldc');
        c[l] := q;
        oldc', oldl', lev' := tc, l, l;
        tried := true;
        assert c[..] == cs[l := |cl|];
      } else {
        row.Extend(cl, cs, k, i, oldl, lev, oldc, jj);
        var q := NewCand(i, y, oldc');
        c[l] := q;
        extended := true;
        assert c[..] == cs[l := |cl|];
      }
    }

    /** One row of stone: offer the members of the class that starts at b[j0] to the klist. It is cut short only
        after bound candidates have been added, with members left. */
    method StoneRow<T>(c: array<int>, k: nat, i: nat, b: array<int>, j0: nat, bound: nat,
                       ghost row: Row<T>) returns (k': nat)
      requires b != c && 1 <= i <= |row.f1|
      requires row.cl0 == clist && row.c0 == c[..] && row.mem == b[..] && row.j == j0
      requires PoolOk(clist, row.f1, row.f2)
      requires KList(clist, c[..], k, i - 1) && k + 1 < c.Length
      requires ClassRun(b[..], j0, row.e, row.f1[i - 1], row.f2)
      requires bound > 0
      modifies this, c
      ensures row.Done(clist, c[..], k, k', i, |clist| < old(|clist|) + bound || row.e - j0 <= bound)
      ensures Added(old(clist), clist, i) && |clist| <= old(|clist|) + bound
    {
      hide ClassRun, Row.Ok, Row.Done, PoolOk, RowDone;
      ghost var mem := row.mem;
      row.Signs(i);
      row.Start(k, i);
      k' := k;
      var j := j0;
      var y := -b[j];
      var oldl: nat, oldc: nat := 0, c[0];
      ghost var lev: nat := 0;
      var numtries := 0;
      var more := true;
      while more
        invariant b[..] == mem
        invariant j0 <= j <= row.e && numtries <= j - j0 && |clist| == old(|clist|) + numtries
        invariant Added(old(clist), clist, i) && numtries <= bound && (more ==> numtries < bound)
        invariant more ==> j < row.e && y == Abs(mem[j])
        invariant !more ==> j == row.e || numtries >= bound
        invariant row.Ok(clist, c[..], k, i, oldl, lev, oldc, j)
        decreases row.e - j, more
      {
        var tried, extended;
        ghost var before := clist;
        oldl, oldc, tried, extended, lev := Offer(c, k, i, y, oldl, oldc, row, j, lev);
        AddedTwice(old(clist), before, clist, i);
        if extended {
          k' := k' + 1;
          row.Weaken(clist, c[..], k, k', i, |clist| < old(|clist|) + bound || row.e - j0 <= bound);
          return;
        }
        if tried {
          numtries := numtries + 1;
        }
        j := j + 1;
        y := b[j];
        assert y == mem[j];
        more := y > 0 && numtries < bound;
      }
      row.End(clist, c[..], k, i, oldl, lev, oldc, j, |clist| < old(|clist|) + bound || row.e - j0 <= bound);
    }

    /** stone: grow the klist line by line of the first file; the result is the number of k-candidates. */
    method Stone<T>(a: array<int>, n: nat, b: array<int>, c: array<int>, minimal: bool, sq: nat,
                    ghost f1: seq<T>, ghost f2: seq<T>) returns (k: nat)
      requires clist == []
      requires c != a && c != b && n + 2 <= c.Length
      requires n == |f1| && |f2| <= INT_MAX
      requires Classes(a[..], b[..], f1, f2)
      modifies this, c
      ensures PoolOk(clist, f1, f2)
      ensures KList(clist, c[..], k, n)
      ensures Exhaustive(minimal, sq, f2) ==> Optimal(clist, c[..], k, n, f1, f2)
      // without -d, no line of the first file gets more than 256 candidates, or sq when that is more
      ensures !minimal ==> forall p, q :: 0 <= p <= q < |clist| && q - p >= 256 && q - p >= sq ==>
        clist[p].x < clist[q].x
    {
      hide Added, Spread, Before, ClassAt, KList, PoolOk, RowDone, Optimal, Row.Done, ClassRun, Chain, Exhaustive;
      var bound := Bound(minimal, sq);
      k := 0;
      var q := NewCand(0, 0, 0);
      c[0] := q;
      Initial(clist, c[..], f1, f2);
      SpreadFirst(clist, bound);
      for i := 1 to n + 1
        invariant k < i
        invariant PoolOk(clist, f1, f2)
        invariant KList(clist, c[..], k, i - 1)
        invariant Spread(clist, bound) && Before(clist, i)
        invariant Exhaustive(minimal, sq, f2) ==> Optimal(clist, c[..], k, i - 1, f1, f2)
      {
        var j := a[i];
        if j == 0 {
          Later(clist, c[..], k, i);
          SpreadSame(clist, i);
          if Exhaustive(minimal, sq, f2) {
            OptimalSkip(clist, c[..], k, i, f1, f2);
          }
          continue;
        }
        assert HasClass(b[..], a[i], f1[i - 1], f2);
        ghost var e :| ClassAt(b[..], j, e, f1[i - 1], f2);
        ClassFacts(b[..], j, e, f1[i - 1], f2);
        ghost var row := Row(clist, c[..], b[..], j, e, f1, f2);
        ghost var k0 := k;
        ghost var was, size := clist, |clist|;
        k := StoneRow(c, k, i, b, j, bound, row);
        SpreadRow(was, clist, i, bound);
        DoneFacts(row, clist, c[..], k0, k, i, |clist| < size + bound || e - j <= bound);
        if Exhaustive(minimal, sq, f2) {
          Reaches(b[..], j, e, f1[i - 1], f2, minimal, sq);
          OptimalStep(row, clist, c[..], k0, k, i);
        }
      }
      SpreadWhen(clist, bound);
    }

    /** unravel: fill the match vector from the common prefix and suffix and the chain that candidate p ends. */
    method Unravel<T>(p: nat, J: array<int>, len0: nat, len1: nat, pref: nat, suff: nat, ghost f1: seq<T>,
                      ghost f2: seq<T>)
      requires PoolOk(clist, f1, f2) && p < |clist|
      requires pref + suff + |f1| == len0 && pref + suff + |f2| == len1
      requires len0 < J.Length
      modifies J
      ensures forall i :: 0 <= i <= len0 ==> J[i] == MateOf(Whole(Path(clist, p), pref, suff, len0, len1), i)
    {
      hide Path, MateOf, Whole, Linked, CandOk, Filled;
      ghost var path := Path(clist, p);
      PathBounds(clist, p, f1, f2);
      var i := 0;
      while i <= len0
        invariant 0 <= i <= len0 + 1
        invariant forall h :: 0 <= h < i ==> J[h] == Filled(path, |path|, pref, suff, len0, len1, h)
      {
        J[i] := if i <= pref then i else if i > len0 - suff then i + len1 - len0 else 0;
        FilledNone(path, pref, suff, len0, len1, i);
        i := i + 1;
      }
      var q := p;
      ghost var d := |path|;
      while clist[q].y != 0
        invariant 0 <= q < |clist| && 0 <= d <= |path|
        invariant Path(clist, q) == path[..d]
        invariant forall h :: 0 <= h <= len0 ==> J[h] == Filled(path, d, pref, suff, len0, len1, h)
        decreases q
      {
        PathStep(clist, q, f1, f2);
        assert path[d - 1] == path[..d][d - 1] == Pair(clist[q].x, clist[q].y);
        J[clist[q].x + pref] := clist[q].y + pref;
        FilledStep(path, d - 1, pref, suff, len0, len1);
        assert path[..d][..d - 1] == path[..d - 1];
        q := clist[q].pred;
        d := d - 1;
      }
      PathEnd(clist, q, f1, f2);
      forall h | 0 <= h <= len0
        ensures J[h] == MateOf(Whole(path, pref, suff, len0, len1), h)
      {
        FilledAll(path, pref, suff, len0, len1, h);
      }
    }
  }
}
