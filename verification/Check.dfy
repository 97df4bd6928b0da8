/** check and skipline: break the matches that rest on a hash collision and collect the line offsets. */
module Check {
  import opened CommonSubsequence
  import opened FileText

  /** Lines i of d1 and j of d2 (counting from 0) have the same characters, terminator included. */
  ghost predicate SameLine(d1: Doc, i: nat, d2: Doc, j: nat)
    requires i < |d1.lines| && j < |d2.lines|
  {
    d1.lines[i] == d2.lines[j] && d1.CharAt(i, |d1.lines[i]|) == d2.CharAt(j, |d2.lines[j]|)
  }

  /** The lines run together up to character k, where they first differ. */
  ghost predicate DifferAt(d1: Doc, i: nat, d2: Doc, j: nat, k: nat)
    requires i < |d1.lines| && j < |d2.lines|
  {
    && k <= |d1.lines[i]| && k <= |d2.lines[j]|
    && (forall r: nat :: r < k ==> d1.CharAt(i, r) == d2.CharAt(j, r))
    && d1.CharAt(i, k) != d2.CharAt(j, k)
  }

  /** The pair on which check loses its place in the second file: the lines first differ where exactly one
      file has ended while the other still has text (for the first file, its newline counts as text). */
  ghost predicate LosesPlace(d1: Doc, i: nat, d2: Doc, j: nat)
    requires i < |d1.lines| && j < |d2.lines|
  {
    exists k :: DifferAt(d1, i, d2, j, k) && EndsAlone(d1.CharAt(i, k), d2.CharAt(j, k))
  }

  predicate EndsAlone(c: int, d: int) {
    if c == EOF then d != NL as int else d == EOF
  }

  lemma DifferUnique(d1: Doc, i: nat, d2: Doc, j: nat, k: nat, l: nat)
    requires i < |d1.lines| && j < |d2.lines|
    requires DifferAt(d1, i, d2, j, k) && DifferAt(d1, i, d2, j, l)
    ensures k == l
  {
  }

  /** skipline: the number of characters up to and including the next newline or the end of the file. */
  method SkipLine(f: Stream) returns (n: nat)
    modifies f
    ensures Skips(f.text, old(f.pos), n, f.pos)
  {
    ghost var start := f.pos;
    n := 1;
    var c := f.Getc();
    while c != NL as int && c != EOF
      invariant 1 <= n
      invariant n > 1 ==> start + n - 1 <= |f.text|
      invariant forall q :: start <= q < start + n - 1 && q < |f.text| ==> f.text[q] != NL
      invariant c == if start + n - 1 < |f.text| then f.text[start + n - 1] as int else EOF
      invariant f.pos == if start + n - 1 < |f.text| then start + n else start + n - 1
      decreases |f.text| - f.pos, c != EOF
    {
      assert start + n - 1 < |f.text|;
      n := n + 1;
      c := f.Getc();
    }
  }

  ghost predicate Skips(t: string, pos: nat, n: nat, pos': nat) {
    && 1 <= n
    && (n > 1 ==> pos + n - 1 <= |t|)
    && (forall q :: pos <= q < pos + n - 1 && q < |t| ==> t[q] != NL)
    && (if pos + n - 1 < |t| then t[pos + n - 1] == NL && pos' == pos + n else pos' == pos + n - 1)
  }

  /** skipline from character k of line i passes the rest of that line. */
  lemma {:induction false} SkipsRest(d: Doc, i: nat, k: nat, n: nat, pos': nat)
    requires d.Valid() && i < |d.lines| && k <= |d.lines[i]|
    requires Skips(d.Text(), d.Pos(i, k), n, pos')
    ensures n == |d.lines[i]| - k + 1
    ensures pos' == d.Pos(i + 1, 0)
  {
    var e := |d.lines[i]|;
    d.Read(i, k);
    d.Read(i, e);
    Terminator(d, i, e);
    forall q | d.Pos(i, k) <= q < d.Pos(i, e) ensures q < |d.Text()| && d.Text()[q] != NL {
      d.Read(i, q - d.Start(i));
      Terminator(d, i, q - d.Start(i));
    }
    assert d.Pos(i, k) + n - 1 == d.Pos(i, e);
  }

  /** Only the terminator of a line reads as a newline or as the end of the file. */
  lemma Terminator(d: Doc, i: nat, k: nat)
    requires d.Valid() && i < |d.lines| && k <= |d.lines[i]|
    ensures (d.CharAt(i, k) == NL as int || d.CharAt(i, k) == EOF) <==> k == |d.lines[i]|
    ensures d.CharAt(i, |d.lines[i]|) == EOF ==> d.Pos(i + 1, 0) == d.Pos(i, |d.lines[i]|)
    ensures d.CharAt(i, |d.lines[i]|) == NL as int ==> d.Pos(i + 1, 0) == d.Pos(i, |d.lines[i]|) + 1
  {
    d.Tail(i);
    d.Tail(i + 1);
    assert d.lines[i..][1..] == d.lines[i + 1..];
  }

  /** Reading one character of line i. */
  lemma ReadStep(d: Doc, i: nat, k: nat, c: int, pos': nat)
    requires d.Valid() && i < |d.lines| && k <= |d.lines[i]|
    requires c == if d.Pos(i, k) < |d.Text()| then d.Text()[d.Pos(i, k)] as int else EOF
    requires pos' == if d.Pos(i, k) < |d.Text()| then d.Pos(i, k) + 1 else d.Pos(i, k)
    ensures c == d.CharAt(i, k)
    ensures k < |d.lines[i]| ==> c != NL as int && c != EOF && pos' == d.Pos(i, k + 1)
    ensures k == |d.lines[i]| ==> (c == NL as int || c == EOF) && pos' == d.Pos(i + 1, 0)
  {
    d.Read(i, k);
    Terminator(d, i, k);
    if k < |d.lines[i]| {
      d.Read(i, k + 1);
    }
  }

  /** What check counts for a line b of the second file when it loses its place there: too little when it stops with
      the end of the first file, one too many when it skips past the end of the second. */
  function WrongCount(a: string, b: string): nat {
    if a < b then |a| + 1 else |b| + 2
  }

  /** The comparison loop of check on lines i of f1 and j of f2 (counting from 0): whether they are the same,
      and by how much the two running offsets grow. */
  method CompareLines(f1: Stream, f2: Stream, ghost d1: Doc, ghost i: nat, ghost d2: Doc, ghost j: nat)
    returns (same: bool, n1: nat, n2: nat)
    requires f1 != f2
    requires d1.Valid() && d2.Valid() && f1.text == d1.Text() && f2.text == d2.Text()
    requires i < |d1.lines| && j < |d2.lines| && f1.pos == d1.Pos(i, 0) && f2.pos == d2.Pos(j, 0)
    modifies f1, f2
    ensures same <==> SameLine(d1, i, d2, j)
    ensures n1 == |d1.lines[i]| + 1 && f1.pos == d1.Pos(i + 1, 0)
    ensures !LosesPlace(d1, i, d2, j) ==> n2 == |d2.lines[j]| + 1 && f2.pos == d2.Pos(j + 1, 0)
    ensures LosesPlace(d1, i, d2, j) ==> n2 == WrongCount(d1.lines[i], d2.lines[j])
  {
    n1, n2, same := 0, 0, true;
    ghost var k := 0;
    while true
      invariant k <= |d1.lines[i]| && k <= |d2.lines[j]| && n1 == k && n2 == k && same
      invariant f1.pos == d1.Pos(i, k) && f2.pos == d2.Pos(j, k)
      invariant forall r: nat :: r < k ==> d1.CharAt(i, r) == d2.CharAt(j, r)
      decreases |d1.lines[i]| - k
    {
      n1 := n1 + 1;
      n2 := n2 + 1;
      var c := f1.Getc();
      ReadStep(d1, i, k, c, f1.pos);
      var d := f2.Getc();
      ReadStep(d2, j, k, d, f2.pos);
      if c != d {
        same := false;
        Differ(d1, i, d2, j, k);
        var m1, m2 := SkipRests(f1, f2, c, d, d1, i, d2, j, k);
        n1, n2 := n1 + m1, n2 + m2;
        break;
      }
      if c == NL as int || c == EOF {
        Agree(d1, i, d2, j, k);
        break;
      }
      k := k + 1;
    }
  }

  /** What the comparison loop skips of the two lines once they differ, at their characters c and d. */
  method SkipRests(f1: Stream, f2: Stream, c: int, d: int, ghost d1: Doc, ghost i: nat, ghost d2: Doc, ghost j: nat,
                   ghost k: nat) returns (m1: nat, m2: nat)
    requires f1 != f2
    requires d1.Valid() && d2.Valid() && f1.text == d1.Text() && f2.text == d2.Text()
    requires i < |d1.lines| && j < |d2.lines| && DifferAt(d1, i, d2, j, k)
    requires c == d1.CharAt(i, k) && d == d2.CharAt(j, k)
    requires f1.pos == if k < |d1.lines[i]| then d1.Pos(i, k + 1) else d1.Pos(i + 1, 0)
    requires f2.pos == if k < |d2.lines[j]| then d2.Pos(j, k + 1) else d2.Pos(j + 1, 0)
    modifies f1, f2
    ensures k + m1 == |d1.lines[i]| && f1.pos == d1.Pos(i + 1, 0)
    ensures !EndsAlone(c, d) ==> k + m2 == |d2.lines[j]| && f2.pos == d2.Pos(j + 1, 0)
    ensures EndsAlone(c, d) ==> k + 1 + m2 == WrongCount(d1.lines[i], d2.lines[j])
  {
    hide Skips, DifferAt;
    m1, m2 := 0, 0;
    DifferWithin(d1, i, d2, j, k);
    Terminator(d1, i, k);
    Terminator(d2, j, k);
    if c != NL as int && c != EOF {
      m1 := SkipLine(f1);
      SkipsRest(d1, i, k + 1, m1, f1.pos);
    }
    if d != NL as int && c != EOF {
      m2 := SkipLine(f2);
      if d != EOF {
        SkipsRest(d2, j, k + 1, m2, f2.pos);
      } else {
        SkipsNothing(d2, j, m2, f2.pos);
      }
    }
  }

  /** Where the lines first differ, both have run together. */
  lemma DifferWithin(d1: Doc, i: nat, d2: Doc, j: nat, k: nat)
    requires i < |d1.lines| && j < |d2.lines| && DifferAt(d1, i, d2, j, k)
    ensures k <= |d1.lines[i]| && k <= |d2.lines[j]| && d1.CharAt(i, k) != d2.CharAt(j, k)
    ensures d1.lines[i][..k] == d2.lines[j][..k]
  {
    forall r | 0 <= r < k ensures d1.lines[i][r] == d2.lines[j][r] {
      assert d1.CharAt(i, r) == d2.CharAt(j, r);
    }
  }

  /** skipline at the end of the file counts one character. */
  lemma SkipsNothing(d: Doc, i: nat, n: nat, pos': nat)
    requires d.Valid() && i < |d.lines| && d.CharAt(i, |d.lines[i]|) == EOF
    requires Skips(d.Text(), d.Pos(i + 1, 0), n, pos')
    ensures n == 1
  {
    d.Read(i, |d.lines[i]|);
    Terminator(d, i, |d.lines[i]|);
  }

  lemma Differ(d1: Doc, i: nat, d2: Doc, j: nat, k: nat)
    requires i < |d1.lines| && j < |d2.lines|
    requires DifferAt(d1, i, d2, j, k)
    ensures !SameLine(d1, i, d2, j)
    ensures LosesPlace(d1, i, d2, j) <==> EndsAlone(d1.CharAt(i, k), d2.CharAt(j, k))
  {
    forall l: nat | DifferAt(d1, i, d2, j, l) ensures l == k {
      DifferUnique(d1, i, d2, j, k, l);
    }
  }

  lemma Agree(d1: Doc, i: nat, d2: Doc, j: nat, k: nat)
    requires i < |d1.lines| && j < |d2.lines|
    requires k == |d1.lines[i]| == |d2.lines[j]|
    requires forall r: nat :: r <= k ==> d1.CharAt(i, r) == d2.CharAt(j, r)
    ensures SameLine(d1, i, d2, j) && !LosesPlace(d1, i, d2, j)
  {
    forall r | 0 <= r < k ensures d1.lines[i][r] == d2.lines[j][r] {
      assert d1.CharAt(i, r) == d2.CharAt(j, r);
    }
    assert d1.lines[i] == d2.lines[j];
  }

  lemma LosesAtEnd(d1: Doc, i: nat, d2: Doc, j: nat)
    requires i < |d1.lines| && j < |d2.lines| && LosesPlace(d1, i, d2, j)
    ensures i + 1 == |d1.lines| || j + 1 == |d2.lines|
  {
  }

  lemma StartNext(d: Doc, i: nat)
    requires i < |d.lines|
    ensures d.Start(i + 1) == d.Start(i) + |d.lines[i]| + 1
  {
  }

  /** Line x was matched in J, and checking the match loses the place in the second file. */
  ghost predicate Loses(d1: Doc, d2: Doc, J: seq<int>, x: int)
    requires Increasing(J, |d1.lines|, |d2.lines|) && 1 <= x <= |d1.lines|
  {
    J[x] != 0 && LosesPlace(d1, x - 1, d2, J[x] - 1)
  }

  /** What check makes of entry x of the match vector. */
  ghost function Checked(d1: Doc, d2: Doc, J: seq<int>, x: int): int
    requires Increasing(J, |d1.lines|, |d2.lines|) && 1 <= x <= |d1.lines|
  {
    if J[x] != 0 && SameLine(d1, x - 1, d2, J[x] - 1) then J[x] else 0
  }

  /** The offset that check records in ixnew for the line matched with x when it loses its place there. */
  ghost function Recorded(d1: Doc, d2: Doc, J: seq<int>, x: int): int
    requires Increasing(J, |d1.lines|, |d2.lines|) && 1 <= x <= |d1.lines| && J[x] != 0
  {
    d2.Start(J[x] - 1) + WrongCount(d1.lines[x - 1], d2.lines[J[x] - 1])
  }

  lemma RecordedWrong(d1: Doc, d2: Doc, J: seq<int>, x: int)
    requires Increasing(J, |d1.lines|, |d2.lines|) && 1 <= x <= |d1.lines| && J[x] != 0
    ensures Recorded(d1, d2, J, x) != d2.Start(J[x])
  {
    StartNext(d2, J[x] - 1);
  }

  // ---------------------------------------------------------------- what the loop of check keeps

  /** The first n entries are the true offsets. */
  ghost predicate Exact(d: Doc, ix: seq<int>, n: nat) {
    n <= |d.lines| + 1 && n <= |ix| && forall y :: 0 <= y < n ==> ix[y] == d.Start(y)
  }

  /** Entries 1..i-1 of the match vector have been checked, the others are as they were. */
  ghost predicate Judged(d1: Doc, d2: Doc, J0: seq<int>, J: seq<int>, i: int)
    requires Increasing(J0, |d1.lines|, |d2.lines|)
  {
    && |J| == |J0| && 1 <= i <= |d1.lines| + 1
    && (forall x :: 1 <= x < i ==> J[x] == Checked(d1, d2, J0, x))
    && (forall x :: 0 <= x < |J| && !(1 <= x < i) ==> J[x] == J0[x])
  }

  /** The place has been kept up to line i of the first file and line j of the second. */
  ghost predicate Kept(d1: Doc, d2: Doc, J0: seq<int>, ix: seq<int>, i: int, j: nat)
    requires Increasing(J0, |d1.lines|, |d2.lines|)
  {
    && 1 <= i <= |d1.lines| + 1 && Exact(d2, ix, j)
    && (forall x :: 1 <= x < i ==> !Loses(d1, d2, J0, x))
    && (forall x :: i <= x <= |d1.lines| && J0[x] != 0 ==> j <= J0[x])
  }

  /** The place has been lost at line x, the last one that is matched. */
  ghost predicate LostAt(d1: Doc, d2: Doc, J0: seq<int>, ix: seq<int>, i: int, j: nat, x: int)
    requires Increasing(J0, |d1.lines|, |d2.lines|)
  {
    && 1 <= x < i <= |d1.lines| + 1 && Loses(d1, d2, J0, x)
    && J0[x] < j <= |d2.lines| + 1 && J0[x] < |ix| && ix[J0[x]] == Recorded(d1, d2, J0, x)
    && (forall z :: 1 <= z < i && z != x ==> !Loses(d1, d2, J0, z))
    && (forall z :: i <= z <= |d1.lines| ==> J0[z] == 0)
  }

  lemma Begin(d: Doc)
    ensures d.Start(0) == 0 && d.Pos(0, 0) == 0
  {
  }

  lemma RoomFor(J: seq<int>, n: nat, m: nat)
    requires Increasing(J, n, m)
    ensures n < |J|
  {
  }

  lemma BeginKept(d1: Doc, d2: Doc, J: seq<int>, ixold: seq<int>, ixnew: seq<int>)
    requires Increasing(J, |d1.lines|, |d2.lines|) && ixold != [] && ixnew != [] && ixold[0] == ixnew[0] == 0
    ensures Exact(d1, ixold, 1) && Judged(d1, d2, J, J, 1) && Kept(d1, d2, J, ixnew, 1, 1)
  {
  }

  lemma ExactNext(d: Doc, ix: seq<int>, n: nat, v: int)
    requires Exact(d, ix, n) && n < |ix| && n <= |d.lines| && v == d.Start(n)
    ensures Exact(d, ix[n := v], n + 1)
  {
  }

  /** An unmatched line changes nothing but its own offset. */
  lemma PassUnmatched(d1: Doc, d2: Doc, J0: seq<int>, J: seq<int>, ix: seq<int>, i: int, j: nat, lost: bool, x: int)
    requires Increasing(J0, |d1.lines|, |d2.lines|) && i <= |d1.lines| && Judged(d1, d2, J0, J, i) && J[i] == 0
    requires if lost then LostAt(d1, d2, J0, ix, i, j, x) else Kept(d1, d2, J0, ix, i, j)
    ensures Judged(d1, d2, J0, J, i + 1)
    ensures if lost then LostAt(d1, d2, J0, ix, i + 1, j, x) else Kept(d1, d2, J0, ix, i + 1, j)
  {
    hide Exact, LosesPlace, SameLine, Recorded;
  }

  lemma MatchedHere(d1: Doc, d2: Doc, J0: seq<int>, J: seq<int>, ix: seq<int>, i: int, j: nat, lost: bool, x: int)
    requires Increasing(J0, |d1.lines|, |d2.lines|) && i <= |d1.lines| && Judged(d1, d2, J0, J, i) && J[i] != 0
    requires if lost then LostAt(d1, d2, J0, ix, i, j, x) else Kept(d1, d2, J0, ix, i, j)
    ensures !lost && J[i] == J0[i] && j <= J0[i] <= |d2.lines|
  {
  }

  /** A matched line: its entry, the offset of its partner, and whether the place is lost. */
  lemma PassMatched(d1: Doc, d2: Doc, J0: seq<int>, J: seq<int>, ix: seq<int>, i: int, same: bool, n2: nat)
    requires Increasing(J0, |d1.lines|, |d2.lines|) && i <= |d1.lines| && Judged(d1, d2, J0, J, i) && J0[i] != 0
    requires |d2.lines| < |ix| && Exact(d2, ix, J0[i])
    requires forall x :: 1 <= x < i ==> !Loses(d1, d2, J0, x)
    requires same <==> SameLine(d1, i - 1, d2, J0[i] - 1)
    requires n2 == if LosesPlace(d1, i - 1, d2, J0[i] - 1) then WrongCount(d1.lines[i - 1], d2.lines[J0[i] - 1])
                   else |d2.lines[J0[i] - 1]| + 1
    ensures Judged(d1, d2, J0, if same then J else J[i := 0], i + 1)
    ensures var j, ix' := J0[i], ix[J0[i] := d2.Start(J0[i] - 1) + n2];
      if Loses(d1, d2, J0, i) then LostAt(d1, d2, J0, ix', i + 1, j + 1, i)
      else Kept(d1, d2, J0, ix', i + 1, j + 1) && d2.Start(j - 1) + n2 == d2.Start(j)
  {
    hide LosesPlace, SameLine;
    StartNext(d2, J0[i] - 1);
    if Loses(d1, d2, J0, i) {
      Lost(d1, d2, J0, i);
    } else {
      ExactNext(d2, ix, J0[i], d2.Start(J0[i]));
    }
  }

  lemma Lost(d1: Doc, d2: Doc, J: seq<int>, x: int)
    requires Increasing(J, |d1.lines|, |d2.lines|) && 1 <= x <= |d1.lines| && Loses(d1, d2, J, x)
    ensures forall z :: x < z <= |d1.lines| ==> J[z] == 0
  {
    LosesAtEnd(d1, x - 1, d2, J[x] - 1);
  }

  /** The offsets at the end of check: exact, or wrong at the one line where the place was lost. */
  lemma Outcome(d1: Doc, d2: Doc, J0: seq<int>, ix: seq<int>, lost: bool, x: int)
    requires Increasing(J0, |d1.lines|, |d2.lines|)
    requires var m, n := |d1.lines| + 1, |d2.lines| + 1;
      if lost then LostAt(d1, d2, J0, ix, m, n, x) else Kept(d1, d2, J0, ix, m, n)
    ensures |d2.lines| < |ix| || lost
    ensures forall z :: 1 <= z <= |d1.lines| && Loses(d1, d2, J0, z) ==>
      J0[z] < |ix| && ix[J0[z]] == Recorded(d1, d2, J0, z) != d2.Start(J0[z])
    ensures |d2.lines| < |ix| ==>
      ((forall z :: 1 <= z <= |d1.lines| ==> !Loses(d1, d2, J0, z)) <==>
       (forall y :: 0 <= y <= |d2.lines| ==> ix[y] == d2.Start(y)))
  {
    hide LosesPlace, Recorded;
    if lost {
      RecordedWrong(d1, d2, J0, x);
    }
  }

  // ---------------------------------------------------------------- check

  /** Advance the second file to line target, recording the offsets passed (the inner while loop of check). */
  method SkipTo(f2: Stream, ixnew: array<int>, j0: nat, ct0: nat, target: nat, ghost d2: Doc) returns (j: nat, ct: nat)
    requires d2.Valid() && f2.text == d2.Text() && 1 <= j0 <= target <= |d2.lines| + 1 && |d2.lines| < ixnew.Length
    requires ct0 == d2.Start(j0 - 1) && f2.pos == d2.Pos(j0 - 1, 0)
    requires Exact(d2, ixnew[..], j0)
    modifies f2, ixnew
    ensures j == target && ct == d2.Start(j - 1) && f2.pos == d2.Pos(j - 1, 0)
    ensures Exact(d2, ixnew[..], j)
  {
    hide Skips, Exact, Doc.Start, Doc.Pos, Doc.Valid, Doc.Text;
    j, ct := j0, ct0;
    while j < target
      invariant j0 <= j <= target && ct == d2.Start(j - 1) && f2.pos == d2.Pos(j - 1, 0)
      invariant Exact(d2, ixnew[..], j)
    {
      var n := SkipLine(f2);
      SkipsRest(d2, j - 1, 0, n, f2.pos);
      StartNext(d2, j - 1);
      ct := ct + n;
      ExactNext(d2, ixnew[..], j, ct);
      ghost var next := ixnew[..][j := ct];
      ixnew[j] := ct;
      assert ixnew[..] == next;
      j := j + 1;
    }
  }

  /** A round of check for a matched line i: go on to its partner, compare the two, and record both offsets. */
  method CheckPair(f1: Stream, f2: Stream, J: array<int>, ixold: array<int>, ixnew: array<int>, i: nat, j0: nat,
                   ctold0: nat, ctnew0: nat, ghost d1: Doc, ghost d2: Doc, ghost J0: seq<int>)
    returns (j: nat, ctold: nat, ctnew: nat, ghost lost: bool)
    requires f1 != f2 && J != ixold && J != ixnew && ixold != ixnew
    requires d1.Valid() && d2.Valid() && f1.text == d1.Text() && f2.text == d2.Text()
    requires |d1.lines| < ixold.Length && |d2.lines| < ixnew.Length && 1 <= i <= |d1.lines| && |d1.lines| < J.Length
    requires Increasing(J0, |d1.lines|, |d2.lines|) && Judged(d1, d2, J0, J[..], i)
    requires |d1.lines| < |J0| && J[i] == J0[i] != 0 && 1 <= j0 <= J[i] <= |d2.lines|
    requires ctold0 == d1.Start(i - 1) && f1.pos == d1.Pos(i - 1, 0)
    requires ctnew0 == d2.Start(j0 - 1) && f2.pos == d2.Pos(j0 - 1, 0)
    requires Exact(d1, ixold[..], i) && Kept(d1, d2, J0, ixnew[..], i, j0)
    modifies f1, f2, J, ixold, ixnew
    ensures 1 <= j <= |d2.lines| + 1 && ctold == d1.Start(i) && f1.pos == d1.Pos(i, 0)
    ensures !lost ==> ctnew == d2.Start(j - 1) && f2.pos == d2.Pos(j - 1, 0)
    ensures Exact(d1, ixold[..], i + 1) && Judged(d1, d2, J0, J[..], i + 1)
    ensures if lost then LostAt(d1, d2, J0, ixnew[..], i + 1, j, i) else Kept(d1, d2, J0, ixnew[..], i + 1, j)
  {
    hide Skips, SameLine, LosesPlace, Checked, Loses, Exact, Judged, Kept, LostAt, Recorded, WrongCount,
      Doc.Start, Doc.Pos, Doc.Valid, Doc.Text, Increasing;
    ghost var was, out := J[..], ixold[..];
    StartNext(d1, i - 1);
    KeptParts(d1, d2, J0, ixnew[..], i, j0);
    j, ctnew := SkipTo(f2, ixnew, j0, ctnew0, J[i], d2);
    var same, n1, n2 := CompareLines(f1, f2, d1, i - 1, d2, j - 1);
    ghost var new' := ixnew[..];
    PassMatched(d1, d2, J0, was, new', i, same, n2);
    LosesIs(d1, d2, J0, i);
    lost := Loses(d1, d2, J0, i);
    ctold := ctold0 + n1;
    ctnew := ctnew + n2;
    ExactNext(d1, out, i, ctold);
    if !same {
      J[i] := 0;
    }
    ixold[i] := ctold;
    ixnew[j] := ctnew;
    assert J[..] == if same then was else was[i := 0];
    assert ixold[..] == out[i := ctold] && ixnew[..] == new'[j := ctnew];
    j := j + 1;
  }

  /** check: re-read the matched lines, unmatch the pairs that differ, and record where every line starts. The
      offsets of the second file are exact if and only if no pair makes it lose its place; at such a pair the
      offset recorded is Recorded. */
  method Check(f1: Stream, f2: Stream, J: array<int>, ixold: array<int>, ixnew: array<int>, len0: nat, len1: nat,
               ghost d1: Doc, ghost d2: Doc)
    requires f1 != f2 && J != ixold && J != ixnew && ixold != ixnew
    requires d1.Valid() && d2.Valid() && f1.text == d1.Text() && f2.text == d2.Text()
    requires len0 == |d1.lines| < ixold.Length && len1 == |d2.lines| < ixnew.Length
    requires Increasing(J[..], len0, len1)
    modifies f1, f2, J, ixold, ixnew
    ensures forall x :: 1 <= x <= len0 ==> J[x] == Checked(d1, d2, old(J[..]), x)
    ensures forall x :: 0 <= x < J.Length && !(1 <= x <= len0) ==> J[x] == old(J[x])
    ensures forall i :: 0 <= i <= len0 ==> ixold[i] == d1.Start(i)
    ensures (forall x :: 1 <= x <= len0 ==> !Loses(d1, d2, old(J[..]), x)) <==>
            (forall j :: 0 <= j <= len1 ==> ixnew[j] == d2.Start(j))
    ensures forall x :: 1 <= x <= len0 && Loses(d1, d2, old(J[..]), x) ==>
      ixnew[old(J[x])] == Recorded(d1, d2, old(J[..]), x) != d2.Start(old(J[x]))
  {
    hide Skips, SameLine, LosesPlace, Checked, Loses, Exact, Judged, Kept, LostAt, Recorded, WrongCount,
      Doc.Start, Doc.Pos, Doc.Valid, Doc.Text, Increasing;
    ghost var J0 := J[..];
    RoomFor(J0, len0, len1);
    Begin(d1);
    Begin(d2);
    f1.Rewind();
    f2.Rewind();
    var j := 1;
    ixold[0], ixnew[0] := 0, 0;
    BeginKept(d1, d2, J0, ixold[..], ixnew[..]);
    var ctold, ctnew := 0, 0;
    ghost var lost, xlost := false, 0;
    var i := 1;
    while i <= len0
      invariant 1 <= i <= len0 + 1 && 1 <= j <= len1 + 1
      invariant ctold == d1.Start(i - 1) && f1.pos == d1.Pos(i - 1, 0)
      invariant !lost ==> ctnew == d2.Start(j - 1) && f2.pos == d2.Pos(j - 1, 0)
      invariant Exact(d1, ixold[..], i) && Judged(d1, d2, J0, J[..], i)
      invariant if lost then LostAt(d1, d2, J0, ixnew[..], i, j, xlost) else Kept(d1, d2, J0, ixnew[..], i, j)
    {
      StartNext(d1, i - 1);
      ghost var was := J[..];
      if J[i] == 0 {
        ghost var out := ixold[..];
        PassUnmatched(d1, d2, J0, was, ixnew[..], i, j, lost, xlost);
        var n := SkipLine(f1);
        SkipsRest(d1, i - 1, 0, n, f1.pos);
        ctold := ctold + n;
        ExactNext(d1, out, i, ctold);
        ixold[i] := ctold;
        assert ixold[..] == out[i := ctold];
        i := i + 1;
        continue;
      }
      MatchedHere(d1, d2, J0, was, ixnew[..], i, j, lost, xlost);
      j, ctold, ctnew, lost := CheckPair(f1, f2, J, ixold, ixnew, i, j, ctold, ctnew, d1, d2, J0);
      xlost := i;
      i := i + 1;
    }
    FinishOffsets(f2, ixnew, j, ctnew, len1, lost, xlost, d1, d2, J0);
    Outcome(d1, d2, J0, ixnew[..], lost, xlost);
    JudgedAll(d1, d2, J0, J[..], ixold[..]);
  }

  lemma KeptParts(d1: Doc, d2: Doc, J0: seq<int>, ix: seq<int>, i: int, j: nat)
    requires Increasing(J0, |d1.lines|, |d2.lines|) && Kept(d1, d2, J0, ix, i, j)
    ensures Exact(d2, ix, j) && forall x :: 1 <= x < i ==> !Loses(d1, d2, J0, x)
  {
  }

  lemma LosesIs(d1: Doc, d2: Doc, J: seq<int>, x: int)
    requires Increasing(J, |d1.lines|, |d2.lines|) && 1 <= x <= |d1.lines| && J[x] != 0
    ensures Loses(d1, d2, J, x) <==> LosesPlace(d1, x - 1, d2, J[x] - 1)
  {
  }

  lemma JudgedAll(d1: Doc, d2: Doc, J0: seq<int>, J: seq<int>, ixold: seq<int>)
    requires Increasing(J0, |d1.lines|, |d2.lines|) && Judged(d1, d2, J0, J, |d1.lines| + 1)
    requires Exact(d1, ixold, |d1.lines| + 1)
    ensures |d1.lines| < |J| == |J0| && |d1.lines| < |ixold|
    ensures forall x :: 1 <= x <= |d1.lines| ==> J[x] == Checked(d1, d2, J0, x)
    ensures forall x :: 0 <= x < |J| && !(1 <= x <= |d1.lines|) ==> J[x] == J0[x]
    ensures forall i :: 0 <= i <= |d1.lines| ==> ixold[i] == d1.Start(i)
  {
  }

  /** One more entry of ixnew, when the match vector holds nothing more. */
  lemma FinishNext(d1: Doc, d2: Doc, J0: seq<int>, ix: seq<int>, j: nat, v: int, lost: bool, x: int)
    requires Increasing(J0, |d1.lines|, |d2.lines|) && j <= |d2.lines| < |ix|
    requires var m := |d1.lines| + 1; if lost then LostAt(d1, d2, J0, ix, m, j, x) else Kept(d1, d2, J0, ix, m, j)
    requires !lost ==> v == d2.Start(j)
    ensures var m, ix' := |d1.lines| + 1, ix[j := v];
      if lost then LostAt(d1, d2, J0, ix', m, j + 1, x) else Kept(d1, d2, J0, ix', m, j + 1)
  {
    hide Loses, Recorded;
  }

  /** The last loop of check. */
  method FinishOffsets(f2: Stream, ixnew: array<int>, j0: nat, ct0: nat, len1: nat, ghost lost: bool, ghost x: int,
                       ghost d1: Doc, ghost d2: Doc, ghost J0: seq<int>)
    requires d2.Valid() && f2.text == d2.Text() && 1 <= j0 <= len1 + 1 && len1 == |d2.lines| < ixnew.Length
    requires !lost ==> ct0 == d2.Start(j0 - 1) && f2.pos == d2.Pos(j0 - 1, 0)
    requires Increasing(J0, |d1.lines|, |d2.lines|)
    requires var m := |d1.lines| + 1;
      if lost then LostAt(d1, d2, J0, ixnew[..], m, j0, x) else Kept(d1, d2, J0, ixnew[..], m, j0)
    modifies f2, ixnew
    ensures var m, n := |d1.lines| + 1, |d2.lines| + 1;
      if lost then LostAt(d1, d2, J0, ixnew[..], m, n, x) else Kept(d1, d2, J0, ixnew[..], m, n)
  {
    hide Skips, Kept, LostAt, Increasing, Doc.Start, Doc.Pos, Doc.Valid, Doc.Text;
    var j, ct := j0, ct0;
    ghost var m := |d1.lines| + 1;
    while j <= len1
      invariant j0 <= j <= len1 + 1
      invariant !lost ==> ct == d2.Start(j - 1) && f2.pos == d2.Pos(j - 1, 0)
      invariant if lost then LostAt(d1, d2, J0, ixnew[..], m, j, x) else Kept(d1, d2, J0, ixnew[..], m, j)
    {
      var n := SkipLine(f2);
      if !lost {
        SkipsRest(d2, j - 1, 0, n, f2.pos);
        StartNext(d2, j - 1);
      }
      ct := ct + n;
      FinishNext(d1, d2, J0, ixnew[..], j, ct, lost, x);
      ghost var next := ixnew[..][j := ct];
      ixnew[j] := ct;
      assert ixnew[..] == next;
      j := j + 1;
    }
  }

  // ---------------------------------------------------------------- when the offsets are right

  /** A complete description of the pairs on which the place is lost, in terms of the two lines alone. */
  lemma {:induction false} LosesPlaceWhen(d1: Doc, i: nat, d2: Doc, j: nat)
    requires d1.Valid() && d2.Valid() && i < |d1.lines| && j < |d2.lines|
    ensures LosesPlace(d1, i, d2, j) <==>
      var a, b := d1.lines[i], d2.lines[j];
      var open1, open2 := i + 1 == |d1.lines| && !d1.nl, j + 1 == |d2.lines| && !d2.nl;
      || (open1 && a < b)
      || (open2 && b <= a && !(open1 && a == b))
  {
    var a, b := d1.lines[i], d2.lines[j];
    var k := CommonPrefix(a, b);
    forall r: nat | r < k ensures d1.CharAt(i, r) == d2.CharAt(j, r) {
      assert a[..k][r] == b[..k][r];
    }
    Terminator(d1, i, k);
    Terminator(d2, j, k);
    if d1.CharAt(i, k) != d2.CharAt(j, k) {
      Differ(d1, i, d2, j, k);
    } else {
      Agree(d1, i, d2, j, k);
    }
    PrefixWhen(a, b, k);
  }

  /** The length of the longest common prefix. */
  function CommonPrefix(a: string, b: string): (k: nat)
    ensures k <= |a| && k <= |b| && a[..k] == b[..k]
    ensures k < |a| && k < |b| ==> a[k] != b[k]
  {
    if a == "" || b == "" || a[0] != b[0] then 0
    else
      var k := CommonPrefix(a[1..], b[1..]);
      assert a[..k + 1] == [a[0]] + a[1..][..k] && b[..k + 1] == [b[0]] + b[1..][..k];
      k + 1
  }

  lemma PrefixWhen(a: string, b: string, k: nat)
    requires k <= |a| && k <= |b| && a[..k] == b[..k]
    requires k < |a| && k < |b| ==> a[k] != b[k]
    ensures a <= b <==> k == |a|
    ensures b <= a <==> k == |b|
    ensures a == b <==> k == |a| == |b|
  {
    if k == |a| {
      assert a == b[..k];
    } else if k < |b| {
      assert a[k] != b[k];
    }
    if k == |b| {
      assert b == a[..k];
    }
  }

  /** Two files that end in a newline never make check lose its place, and there a pair survives exactly when
      the two lines are equal. */
  lemma TerminatedFiles(d1: Doc, i: nat, d2: Doc, j: nat)
    requires d1.Valid() && d2.Valid() && d1.nl && d2.nl && i < |d1.lines| && j < |d2.lines|
    ensures !LosesPlace(d1, i, d2, j)
    ensures SameLine(d1, i, d2, j) <==> d1.lines[i] == d2.lines[j]
  {
    LosesPlaceWhen(d1, i, d2, j);
  }

  /** The condition is not idle: the files "x\n" and "x" have one line each, with the same hash, so that prune
      matches them, and check loses its place there. */
  lemma LosesPlaceExample()
    ensures var d1, d2, J := Doc(["x"], true), Doc(["x"], false), [0, 1, 0];
      && d1.Valid() && d2.Valid() && d1.Text() == "x\n" && d2.Text() == "x"
      && Increasing(J, |d1.lines|, |d2.lines|) && Loses(d1, d2, J, 1)
      && Recorded(d1, d2, J, 1) == 3 && d2.Start(1) == 2
  {
    var d1, d2 := Doc(["x"], true), Doc(["x"], false);
    LosesPlaceWhen(d1, 0, d2, 0);
    StartNext(d2, 0);
    assert d1.Text() == "x" + [NL] + "";
  }

  /** check on these two files records 3 as the end of the only line of the second, which has 2 characters with
      the end of the file counted. */
  method UnterminatedExample() returns (offset: int)
    ensures offset == 3 != Doc(["x"], false).Start(1)
  {
    LosesPlaceExample();
    ghost var d1, d2 := Doc(["x"], true), Doc(["x"], false);
    var f1 := new Stream("x\n");
    var f2 := new Stream("x");
    var J := new int[] [0, 1, 0];
    var ixold := new int[3];
    var ixnew := new int[3];
    assert J[..] == [0, 1, 0];
    Check(f1, f2, J, ixold, ixnew, 1, 1, d1, d2);
    offset := ixnew[1];
  }
}
