/** output: find the hunks in the match vector, forward or (for ed) backward, and have each one printed.
    The walks overwrite entries of J that they have passed. */
module OutputWalk {
  import opened CommonSubsequence
  import opened Hunks
  import opened HunkWalk
  import opened Scripts
  import opened Printer
  import U = Unified

  /** Everything the walks need to know about the hunks of J0: they fit, and they come in order. */
  ghost predicate Plan(J0: seq<int>, m: nat, n: nat, all: seq<Hunk>) {
    && Bracketed(J0, m, n)
    && all == HunksFrom(J0, m, 0)
    && U.Ordered(all, 0, 0, m, n)
  }

  /** Between two hunks the vector and the hunks to come agree: forward, i0 - 1 is the last line in step. */
  ghost predicate InStep(J: seq<int>, J0: seq<int>, m: nat, i0: int, done: seq<Hunk>, all: seq<Hunk>) {
    && m + 1 < |J0| == |J| && 1 <= i0 <= m + 1
    && Anchor(J0, m, i0 - 1) && J[i0 - 1] == J0[i0 - 1]
    && all == done + HunksFrom(J0, m, i0 - 1)
  }

  /** Right after a hunk the entry before the next line in step was overwritten to make that line look matched. */
  ghost predicate Patched(J: seq<int>, J0: seq<int>, m: nat, i0: int, done: seq<Hunk>, all: seq<Hunk>) {
    && m + 1 < |J0| == |J| && 1 <= i0 <= m + 1
    && Anchor(J0, m, i0)
    && J[i0 - 1] == J0[i0] - 1
    && all == done + HunksFrom(J0, m, i0)
  }

  ghost predicate SameFrom(J: seq<int>, J0: seq<int>, i: int) {
    |J| == |J0| && forall x :: i <= x < |J| && 0 <= x ==> J[x] == J0[x]
  }

  lemma StepOver(J: seq<int>, J0: seq<int>, m: nat, n: nat, i0: int, done: seq<Hunk>, all: seq<Hunk>)
    requires Plan(J0, m, n, all) && SameFrom(J, J0, i0) && i0 <= m && 1 <= i0
    requires InStep(J, J0, m, i0, done, all) || Patched(J, J0, m, i0, done, all)
    requires J[i0] == J[i0 - 1] + 1
    ensures InStep(J, J0, m, i0 + 1, done, all)
  {
    hide U.Ordered, HunksFrom, Increasing;
    if InStep(J, J0, m, i0, done, all) {
      NotNegative(J0, m, n, i0 - 1);
      NextIs(J0, m, i0, i0);
      HunksFromIs(J0, m, i0 - 1, i0);
      assert [] + HunksFrom(J0, m, i0) == HunksFrom(J0, m, i0);
    }
  }

  lemma NotNegative(J0: seq<int>, m: nat, n: nat, p: nat)
    requires Bracketed(J0, m, n) && p <= m + 1
    ensures J0[p] >= 0
  {
  }

  lemma MustStep(J: seq<int>, J0: seq<int>, m: nat, i0: int, done: seq<Hunk>, all: seq<Hunk>)
    requires Patched(J, J0, m, i0, done, all) && SameFrom(J, J0, i0) && i0 <= m
    ensures J[i0] == J[i0 - 1] + 1
  {
  }

  /** The hunk found from the last line in step. */
  lemma FoundHunk(J: seq<int>, J0: seq<int>, m: nat, n: nat, i0: int, i1: int, done: seq<Hunk>, all: seq<Hunk>)
    requires Plan(J0, m, n, all) && InStep(J, J0, m, i0, done, all) && SameFrom(J, J0, i0)
    requires i0 - 1 <= i1 <= m && (i1 == m || J[i1 + 1] != 0)
    requires forall x :: i0 <= x <= i1 ==> J[x] == 0
    ensures var h := Hunk(i0, i1, J[i0 - 1] + 1, J[i1 + 1] - 1);
      && Fits(h, m, n)
      && (!h.Empty() ==> U.Ordered(done + [h], 0, 0, m, n))
      && Patched(J[i1 := J[i1 + 1] - 1], J0, m, i1 + 1, done + NonEmpty(h), all)
  {
    hide Increasing, HunksFrom, U.Ordered;
    var p, q := i0 - 1, i1 + 1;
    NextIs(J0, m, i0, q);
    AnchorsAscend(J0, m, n, p, q);
    HunksFromIs(J0, m, p, q);
    var h := Between(J0, p, q);
    var rest := HunksFrom(J0, m, q);
    assert (done + NonEmpty(h)) + rest == done + (NonEmpty(h) + rest);
    if !h.Empty() {
      U.OrderedParts(done + [h], rest, 0, 0, m, n);
    }
  }

  lemma HunksFromIs(J: seq<int>, m: nat, p: nat, q: nat)
    requires m + 1 < |J| && p < q <= m + 1 && q == Next(J, m, p + 1)
    ensures HunksFrom(J, m, p) == NonEmpty(Between(J, p, q)) + HunksFrom(J, m, q)
  {
  }

  lemma PlanStart(J0: seq<int>, m: nat, n: nat, all: seq<Hunk>)
    requires Plan(J0, m, n, all)
    ensures InStep(J0, J0, m, 1, [], all)
  {
    assert [] + all == all;
  }

  lemma PlanEnd(J: seq<int>, J0: seq<int>, m: nat, done: seq<Hunk>, all: seq<Hunk>)
    requires Patched(J, J0, m, m + 1, done, all)
    ensures done == all
  {
  }

  /** The two scanning loops of a round: past the lines in step, then over the unmatched lines. */
  method ScanForward(J: array<int>, m: nat, start: int, ghost J0: seq<int>, ghost n: nat, ghost first: bool,
                     ghost done: seq<Hunk>, ghost all: seq<Hunk>)
    returns (i0: int, i1: int)
    requires Plan(J0, m, n, all) && J.Length == |J0| && 1 <= start <= m && m + 1 < |J0|
    requires SameFrom(J[..], J0, start)
    requires if first then InStep(J[..], J0, m, start, done, all) else Patched(J[..], J0, m, start, done, all)
    ensures start <= i0 && (!first ==> start < i0)
    ensures i0 - 1 <= i1 <= m && i0 <= m + 1 && (i1 == m || J[i1 + 1] != 0)
    ensures SameFrom(J[..], J0, i0) && InStep(J[..], J0, m, i0, done, all)
    ensures forall x :: i0 <= x <= i1 ==> J[x] == 0
  {
    hide Plan, InStep, Patched, SameFrom;
    i0 := start;
    ghost var stepped := first;
    while i0 <= m && J[i0] == J[i0 - 1] + 1
      invariant start <= i0 <= m + 1
      invariant SameFrom(J[..], J0, i0)
      invariant i0 > start ==> stepped
      invariant if stepped then InStep(J[..], J0, m, i0, done, all) && (i0 > start || first)
                else i0 == start && Patched(J[..], J0, m, i0, done, all)
    {
      StepOver(J[..], J0, m, n, i0, done, all);
      SameLater(J[..], J0, i0);
      stepped := true;
      i0 := i0 + 1;
    }
    if !stepped {
      MustStep(J[..], J0, m, i0, done, all);
    }
    i1 := i0 - 1;
    while i1 < m && J[i1 + 1] == 0
      invariant i0 - 1 <= i1 <= m
      invariant forall x :: i0 <= x <= i1 ==> J[x] == 0
    {
      i1 := i1 + 1;
    }
  }

  /** The forward walk, for every format but ed. */
  method Forward(J: array<int>, m: nat, report: Report, ghost J0: seq<int>, ghost n: nat, ghost all: seq<Hunk>)
    requires J[..] == J0 && Plan(J0, m, n, all) && m > 0
    requires report.Valid() && report.hunks == [] && report.len0 == m && report.len1 == n
    requires J != report.ixold && J != report.ixnew
    modifies J, report, report.f1, report.f2
    ensures report.Valid() && report.hunks == all
  {
    hide Plan, InStep, Patched, SameFrom, Report.Valid, U.Ordered, Fits;
    report.Lengths();
    PlanStart(J0, m, n, all);
    PlanSize(J0, m, n, all);
    SameStart(J0);
    var i0 := 1;
    ghost var first := true;
    while i0 <= m
      invariant 1 <= i0 <= m + 1 && J.Length == |J0|
      invariant report.Valid()
      invariant SameFrom(J[..], J0, i0)
      invariant if first then i0 == 1 && InStep(J[..], J0, m, i0, report.hunks, all)
                else Patched(J[..], J0, m, i0, report.hunks, all)
      decreases m + 1 - i0, first
    {
      var i1;
      i0, i1 := ScanForward(J, m, i0, J0, n, first, report.hunks, all);
      var j0, j1 := J[i0 - 1] + 1, J[i1 + 1] - 1;
      FoundHunk(J[..], J0, m, n, i0, i1, report.hunks, all);
      SameStore(J[..], J0, i0, i1, j1);
      ghost var Jn := J[..][i1 := j1];
      J[i1] := j1;
      assert J[..] == Jn;
      report.Change(Hunk(i0, i1, j0, j1));
      i0 := i1 + 1;
      first := false;
    }
    PlanEnd(J[..], J0, m, report.hunks, all);
  }

  lemma PlanSize(J0: seq<int>, m: nat, n: nat, all: seq<Hunk>)
    requires Plan(J0, m, n, all)
    ensures m + 1 < |J0|
  {
  }

  lemma SameStart(J0: seq<int>)
    ensures SameFrom(J0, J0, 1)
  {
  }

  lemma SameLater(J: seq<int>, J0: seq<int>, i: int)
    requires SameFrom(J, J0, i)
    ensures SameFrom(J, J0, i + 1)
  {
  }

  lemma SameStore(J: seq<int>, J0: seq<int>, i0: int, i1: int, v: int)
    requires SameFrom(J, J0, i0) && i0 - 1 <= i1 && 0 <= i1 < |J|
    ensures SameFrom(J[i1 := v], J0, i1 + 1)
  {
  }

  // ---------------------------------------------------------------- backward

  ghost predicate InStepBack(J: seq<int>, J0: seq<int>, m: nat, i0: int, done: seq<Hunk>, all: seq<Hunk>) {
    && m + 1 < |J0| == |J| && 0 <= i0 <= m
    && Anchor(J0, m, i0 + 1) && J[i0 + 1] == J0[i0 + 1]
    && all == HunksTo(J0, i0 + 1) + Reverse(done)
  }

  ghost predicate PatchedBack(J: seq<int>, J0: seq<int>, m: nat, i0: int, done: seq<Hunk>, all: seq<Hunk>) {
    && m + 1 < |J0| == |J| && 0 <= i0 <= m
    && Anchor(J0, m, i0)
    && J[i0 + 1] == J0[i0] + 1
    && all == HunksTo(J0, i0) + Reverse(done)
  }

  ghost predicate SameTo(J: seq<int>, J0: seq<int>, i: int) {
    |J| == |J0| && forall x :: 0 <= x <= i && x < |J| ==> J[x] == J0[x]
  }

  lemma StepBack(J: seq<int>, J0: seq<int>, m: nat, n: nat, i0: int, done: seq<Hunk>, all: seq<Hunk>)
    requires Plan(J0, m, n, all) && SameTo(J, J0, i0) && 1 <= i0 <= m
    requires InStepBack(J, J0, m, i0, done, all) || PatchedBack(J, J0, m, i0, done, all)
    requires J[i0] == J[i0 + 1] - 1 && J[i0] != 0
    ensures InStepBack(J, J0, m, i0 - 1, done, all)
  {
    hide U.Ordered, HunksTo, Increasing;
    if InStepBack(J, J0, m, i0, done, all) {
      HunksToIs(J0, i0, i0 + 1);
      assert HunksTo(J0, i0) + [] == HunksTo(J0, i0);
    }
  }

  lemma HunksToIs(J: seq<int>, p: nat, q: nat)
    requires p < q < |J| && p == Prev(J, q - 1)
    ensures HunksTo(J, q) == HunksTo(J, p) + NonEmpty(Between(J, p, q))
  {
  }

  lemma MustStepBack(J: seq<int>, J0: seq<int>, m: nat, i0: int, done: seq<Hunk>, all: seq<Hunk>)
    requires PatchedBack(J, J0, m, i0, done, all) && SameTo(J, J0, i0) && 1 <= i0
    ensures J[i0] == J[i0 + 1] - 1 && J[i0] != 0
  {
  }

  lemma {:induction false} PrevIs(J: seq<int>, p: nat, q: nat)
    requires p <= q < |J| && (p == 0 || J[p] != 0)
    requires forall x :: p < x <= q ==> J[x] == 0
    ensures Prev(J, q) == p
    decreases q
  {
    if p < q {
      PrevIs(J, p, q - 1);
    }
  }

  lemma FoundHunkBack(J: seq<int>, J0: seq<int>, m: nat, n: nat, i0: int, i1: int, done: seq<Hunk>, all: seq<Hunk>)
    requires Plan(J0, m, n, all) && InStepBack(J, J0, m, i0, done, all) && SameTo(J, J0, i0)
    requires 1 <= i1 <= i0 + 1 && (i1 == 1 || J[i1 - 1] != 0)
    requires forall x :: i1 <= x <= i0 ==> J[x] == 0
    ensures var h := Hunk(i1, i0, J[i1 - 1] + 1, J[i0 + 1] - 1);
      && Fits(h, m, n)
      && PatchedBack(J[i1 := J[i1 - 1] + 1], J0, m, i1 - 1, done + NonEmpty(h), all)
  {
    hide Increasing, HunksTo, U.Ordered, Reverse;
    var p, q := i1 - 1, i0 + 1;
    assert forall x :: p < x <= q - 1 ==> J0[x] == J[x];
    PrevIs(J0, p, q - 1);
    AnchorsAscend(J0, m, n, p, q);
    HunksToIs(J0, p, q);
    var h := Between(J0, p, q);
    if h.Empty() {
      assert done + NonEmpty(h) == done;
      assert HunksTo(J0, p) + [] == HunksTo(J0, p);
    } else {
      ReverseAppend(done, h);
      assert (HunksTo(J0, p) + [h]) + Reverse(done) == HunksTo(J0, p) + ([h] + Reverse(done));
    }
  }

  lemma PlanStartBack(J0: seq<int>, m: nat, n: nat, all: seq<Hunk>)
    requires Plan(J0, m, n, all)
    ensures InStepBack(J0, J0, m, m, [], all)
  {
    HunksSplit(J0, m, n, m + 1);
    assert HunksTo(J0, m + 1) + [] == HunksTo(J0, m + 1);
  }

  lemma PlanEndBack(J: seq<int>, J0: seq<int>, m: nat, done: seq<Hunk>, all: seq<Hunk>)
    requires PatchedBack(J, J0, m, 0, done, all)
    ensures done == Reverse(all)
  {
    assert [] + Reverse(done) == Reverse(done);
    ReverseTwice(done);
  }

  method ScanBack(J: array<int>, m: nat, start: int, ghost J0: seq<int>, ghost n: nat, ghost first: bool,
                  ghost done: seq<Hunk>, ghost all: seq<Hunk>)
    returns (i0: int, i1: int)
    requires Plan(J0, m, n, all) && J.Length == |J0| && 1 <= start <= m && m + 1 < |J0|
    requires SameTo(J[..], J0, start)
    requires if first then InStepBack(J[..], J0, m, start, done, all) else PatchedBack(J[..], J0, m, start, done, all)
    ensures i0 <= start && (!first ==> i0 < start)
    ensures 0 <= i0 <= m && 1 <= i1 <= i0 + 1 && (i1 == 1 || J[i1 - 1] != 0)
    ensures SameTo(J[..], J0, i0) && InStepBack(J[..], J0, m, i0, done, all)
    ensures forall x :: i1 <= x <= i0 ==> J[x] == 0
  {
    hide Plan, InStepBack, PatchedBack, SameTo;
    i0 := start;
    ghost var stepped := first;
    while i0 >= 1 && J[i0] == J[i0 + 1] - 1 && J[i0] != 0
      invariant 0 <= i0 <= start
      invariant SameTo(J[..], J0, i0)
      invariant i0 < start ==> stepped
      invariant if stepped then InStepBack(J[..], J0, m, i0, done, all) && (i0 < start || first)
                else i0 == start && PatchedBack(J[..], J0, m, i0, done, all)
    {
      StepBack(J[..], J0, m, n, i0, done, all);
      SameEarlier(J[..], J0, i0);
      stepped := true;
      i0 := i0 - 1;
    }
    if !stepped {
      MustStepBack(J[..], J0, m, i0, done, all);
    }
    i1 := i0 + 1;
    while i1 > 1 && J[i1 - 1] == 0
      invariant 1 <= i1 <= i0 + 1
      invariant forall x :: i1 <= x <= i0 ==> J[x] == 0
    {
      i1 := i1 - 1;
    }
  }

  lemma SameEarlier(J: seq<int>, J0: seq<int>, i: int)
    requires SameTo(J, J0, i)
    ensures SameTo(J, J0, i - 1)
  {
  }

  lemma SameStartBack(J0: seq<int>, m: int)
    ensures SameTo(J0, J0, m)
  {
  }

  lemma SameStoreBack(J: seq<int>, J0: seq<int>, i0: int, i1: int, v: int)
    requires SameTo(J, J0, i0) && i1 <= i0 + 1 && 0 <= i1 < |J|
    ensures SameTo(J[i1 := v], J0, i1 - 1)
  {
  }

  /** The backward walk, for ed: the hunks come out in reverse. */
  method Backward(J: array<int>, m: nat, report: Report, ghost J0: seq<int>, ghost n: nat, ghost all: seq<Hunk>)
    requires J[..] == J0 && Plan(J0, m, n, all) && m > 0
    requires report.Valid() && report.hunks == [] && report.len0 == m && report.len1 == n && !report.mode.Context?
    requires J != report.ixold && J != report.ixnew
    modifies J, report, report.f1, report.f2
    ensures report.Valid() && report.hunks == Reverse(all)
  {
    hide Plan, InStepBack, PatchedBack, SameTo, Report.Valid, Fits, Reverse;
    report.Lengths();
    PlanStartBack(J0, m, n, all);
    PlanSize(J0, m, n, all);
    SameStartBack(J0, m);
    var i0: int := m;
    ghost var first := true;
    while i0 >= 1
      invariant 0 <= i0 <= m && J.Length == |J0|
      invariant report.Valid()
      invariant SameTo(J[..], J0, i0)
      invariant if first then i0 == m && InStepBack(J[..], J0, m, i0, report.hunks, all)
                else PatchedBack(J[..], J0, m, i0, report.hunks, all)
      decreases i0, first
    {
      var i1;
      i0, i1 := ScanBack(J, m, i0, J0, n, first, report.hunks, all);
      var j0, j1 := J[i0 + 1] - 1, J[i1 - 1] + 1;
      FoundHunkBack(J[..], J0, m, n, i0, i1, report.hunks, all);
      SameStoreBack(J[..], J0, i0, i1, j1);
      ghost var Jn := J[..][i1 := j1];
      J[i1] := j1;
      assert J[..] == Jn;
      report.Change(Hunk(i1, i0, j1, j0));
      i0 := i1 - 1;
      first := false;
    }
    PlanEndBack(J[..], J0, m, report.hunks, all);
  }

  // ---------------------------------------------------------------- output

  /** The hunks in the order in which the format prints them. */
  function InOrder(mode: Mode, hs: seq<Hunk>): seq<Hunk> {
    if mode == Plain(Ed) then Reverse(hs) else hs
  }

  lemma PlanEmpty(J0: seq<int>, n: nat, all: seq<Hunk>)
    requires Plan(J0, 0, n, all)
    ensures all == NonEmpty(Hunk(1, 0, 1, n)) && Reverse(all) == all && U.Ordered([] + all, 0, 0, 0, n)
  {
    assert [] + all == all;
  }

  /** output: bracket the match vector, walk over it, and print what is left. */
  method Output(J: array<int>, report: Report, ghost J0: seq<int>, ghost all: seq<Hunk>)
    requires report.len0 + 1 < J.Length
    requires J0 == J[..][0 := 0][report.len0 + 1 := report.len1 + 1] && Plan(J0, report.len0, report.len1, all)
    requires report.Valid() && report.hunks == []
    requires J != report.ixold && J != report.ixnew
    modifies J, report, report.f1, report.f2
    ensures report.hunks == InOrder(report.mode, all) && (report.anychange <==> all != [])
    ensures AllFit(report.hunks, |report.d1.lines|, |report.d2.lines|)
    ensures report.mode.Context? ==> U.Ordered([] + report.hunks, 0, 0, |report.d1.lines|, |report.d2.lines|)
    ensures report.out == Printed(report.mode, report.hunks, report.d1.lines, report.d2.lines)
  {
    hide Plan, Report.Valid, Fits, Reverse, AllFit, U.Ordered, Printed;
    var m := report.len0;
    report.Lengths();
    J[0] := 0;
    J[m + 1] := report.len1 + 1;
    assert J[..] == J0;
    if m > 0 {
      if report.mode != Plain(Ed) {
        Forward(J, m, report, J0, report.len1, all);
      } else {
        Backward(J, m, report, J0, report.len1, all);
      }
    } else {
      PlanEmpty(J0, report.len1, all);
      FitsEmpty(report.len1);
      assert all != [] ==> [] + all == [] + [Hunk(1, 0, 1, report.len1)];
      report.Change(Hunk(1, 0, 1, report.len1));
    }
    report.Finish();
    NothingReversed(all);
  }

  lemma NothingReversed(hs: seq<Hunk>)
    ensures Reverse(hs) == [] <==> hs == []
  {
  }

  lemma FitsEmpty(n: nat)
    ensures Fits(Hunk(1, 0, 1, n), 0, n)
  {
  }
}
