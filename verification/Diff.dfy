/** The whole of diffreg on two texts: prepare, match, check, output; and what its output does. */
module Diff {
  import opened CommonSubsequence
  import opened FileText
  import opened Hunks
  import opened HunkWalk
  import opened Scripts
  import opened Printer
  import opened OutputWalk
  import C = Check
  import DR = DiffReg
  import M = Minimality
  import P = Pruning
  import LT = LineTable
  import St = Stone
  import EdScript
  import RcsScript
  import NormalScript
  import U = Unified
  import G = UnifiedGroups
  import opened Wrappers

  /** The values readhash gives the lines of a file. */
  function Hashes(L: seq<string>, hash: string -> int): (v: seq<int>)
    ensures |v| == |L|
    ensures forall i :: 0 <= i < |L| ==> v[i] == hash(L[i])
  {
    seq(|L|, i requires 0 <= i < |L| => hash(L[i]))
  }

  /** readhash: the value of the next line, or the end of the file. */
  method ReadHash(f: Stream, hash: string -> int, ghost d: Doc, ghost i: nat) returns (eof: bool, h: int)
    requires d.Valid() && f.text == d.Text() && i <= |d.lines| && f.pos == d.Pos(i, 0)
    modifies f
    ensures eof <==> i == |d.lines|
    ensures !eof ==> h == hash(d.lines[i]) && f.pos == d.Pos(i + 1, 0)
  {
    hide Doc.Text, Doc.Start, Doc.CharAt;
    var body := "";
    AtEnd(d, i);
    var c := f.Getc();
    if i < |d.lines| {
      C.ReadStep(d, i, 0, c, f.pos);
    }
    while c != NL as int && c != EOF
      invariant i == |d.lines| ==> c == EOF && body == ""
      invariant i < |d.lines| ==> |body| <= |d.lines[i]| && body == d.lines[i][..|body|]
      invariant i < |d.lines| && |body| < |d.lines[i]| ==>
                  c == d.lines[i][|body|] as int && c != NL as int && c != EOF && f.pos == d.Pos(i, |body| + 1)
      invariant i < |d.lines| && |body| == |d.lines[i]| ==>
                  (c == EOF ==> i + 1 == |d.lines| && !d.nl) && (c == NL as int || c == EOF) && f.pos == d.Pos(i + 1, 0)
      decreases if i < |d.lines| then |d.lines[i]| - |body| else 0
    {
      body := body + [c as char];
      c := f.Getc();
      C.ReadStep(d, i, |body|, c, f.pos);
      LineChar(d, i, |body|);
    }
    eof := c == EOF && body == "";
    h := hash(body);
    assert i < |d.lines| ==> d.lines[i][..|d.lines[i]|] == d.lines[i];
  }

  lemma LineChar(d: Doc, i: nat, k: nat)
    requires d.Valid() && i < |d.lines| && k <= |d.lines[i]|
    ensures d.CharAt(i, k) == if k < |d.lines[i]| then d.lines[i][k] as int
                              else if i + 1 == |d.lines| && !d.nl then EOF else NL as int
  {
  }

  lemma AtEnd(d: Doc, i: nat)
    requires d.Valid() && i <= |d.lines|
    ensures i == |d.lines| ==> d.Pos(i, 0) == |d.Text()|
    ensures i < |d.lines| ==> d.CharAt(i, 0) == if 0 < |d.lines[i]| then d.lines[i][0] as int
                              else if i + 1 == |d.lines| && !d.nl then EOF else NL as int
  {
    d.Tail(i);
  }

  /** prepare: hash every line into a fresh table, which has room for a sentinel after the last one. */
  method Prepare(f: Stream, hash: string -> int, ghost d: Doc) returns (len: nat, p: array<int>)
    requires d.Valid() && f.text == d.Text()
    modifies f
    ensures len == |d.lines| && fresh(p) && 2 * len + 3 < p.Length
    ensures P.TableValues(p, len) == Hashes(d.lines, hash)
  {
    hide Doc.Text, Doc.Start, Doc.Valid, Doc.Pos;
    f.Rewind();
    C.Begin(d);
    var values: seq<int> := [];
    while true
      invariant |values| <= |d.lines| && f.pos == d.Pos(|values|, 0)
      invariant forall i :: 0 <= i < |values| ==> values[i] == hash(d.lines[i])
      decreases |d.lines| - |values|
    {
      var eof, h := ReadHash(f, hash, d, |values|);
      if eof {
        break;
      }
      values := values + [h];
    }
    len := |values|;
    p := new int[2 * (len + 3)](_ => 0);
    var j := 0;
    while j < len
      invariant 0 <= j <= len
      invariant forall i :: 0 <= i < j ==> LT.Value(p, i + 1) == values[i]
    {
      j := j + 1;
      p[2 * j + 1] := values[j - 1];
    }
  }

  /** What a reader of the output format makes of it, starting from the lines of the first file. */
  function Apply(mode: Mode, out: seq<string>, A: seq<string>): Option<seq<string>> {
    match mode
    case Plain(Ed) => EdScript.Run(out, A)
    case Plain(Rcs) => RcsScript.Run(out, A, 0)
    case Plain(Normal) => NormalScript.Run(out, A, 0, 0)
    case Context(_) => U.Run(out, A, 0, 0)
  }

  lemma CoversOrdered(hs: seq<Hunk>, A: seq<string>, B: seq<string>)
    requires Covers(hs, 0, 0, A, B)
    ensures U.Ordered(hs, 0, 0, |A|, |B|) && U.Ordered([] + hs, 0, 0, |A|, |B|)
    ensures AllFit(hs, |A|, |B|) && AllFit(Reverse(hs), |A|, |B|)
  {
    assert [] + hs == hs && hs + [] == hs;
    U.CoversSplit(hs, [], 0, 0, A, B);
    U.InsideOrdered(hs, 0, 0, A, B);
    CoversFit(hs, 0, 0, A, B);
    ReverseFits(hs, |A|, |B|);
  }

  /** In every format the output of hunks that cover the files turns the first into the second. */
  lemma OutputPatches(mode: Mode, hs: seq<Hunk>, A: seq<string>, B: seq<string>)
    requires Covers(hs, 0, 0, A, B)
    ensures AllFit(InOrder(mode, hs), |A|, |B|)
    ensures mode.Context? ==> U.Ordered([] + InOrder(mode, hs), 0, 0, |A|, |B|)
    ensures Apply(mode, Printed(mode, InOrder(mode, hs), A, B), A) == Some(B)
  {
    hide Covers, AllFit, Script, U.Rest, EdScript.Run, RcsScript.Run, NormalScript.Run, U.Run, U.Ordered;
    CoversOrdered(hs, A, B);
    assert B[0..] == B && A[..0] + B[0..] == B;
    match mode {
      case Plain(Ed) =>
        var s := Script(Ed, Reverse(hs), A, B);
        EdScript.EdPatches(hs, 0, 0, A, B, []);
        assert s + [] == s;
        RunNothing(B);
      case Plain(Rcs) => RcsScript.RcsPatches(hs, 0, 0, A, B);
      case Plain(Normal) => NormalScript.NormalPatches(hs, 0, 0, A, B);
      case Context(ctx) =>
        assert [] + hs == hs;
        U.RestRead([], hs, ctx, A, B, 0, 0);
    }
  }

  lemma RunNothing(B: seq<string>)
    ensures EdScript.Run([], B) == Some(B)
  {
  }

  /** The hunks that a reader finds in the output alone, from its commands and marks. */
  function HunksIn(mode: Mode, out: seq<string>): Option<seq<Hunk>> {
    match mode
    case Plain(Ed) => EdScript.HunksIn(out)
    case Plain(Rcs) => RcsScript.HunksIn(out)
    case Plain(Normal) => NormalScript.HunksIn(out)
    case Context(_) => var gs := G.Groups(out); if gs.None? then None else Some(G.AllHunks(gs.value))
  }

  /** The groups of unified output show exactly the context that is asked for; the other formats have none. */
  ghost predicate ContextShown(mode: Mode, out: seq<string>, n: nat, m: nat) {
    mode.Context? ==> G.Groups(out).Some? && G.InContext(G.Groups(out).value, mode.ctx, n, m)
  }

  /** In every format the output names exactly the hunks it was made from. */
  lemma OutputNames(mode: Mode, hs: seq<Hunk>, A: seq<string>, B: seq<string>)
    requires Covers(hs, 0, 0, A, B) && Apart(hs)
    requires AllFit(InOrder(mode, hs), |A|, |B|)
    requires mode.Context? ==> U.Ordered([] + InOrder(mode, hs), 0, 0, |A|, |B|)
    ensures HunksIn(mode, Printed(mode, InOrder(mode, hs), A, B)) == Some(hs)
    ensures ContextShown(mode, Printed(mode, InOrder(mode, hs), A, B), |A|, |B|)
  {
    hide Covers, AllFit, Apart, Script, U.Rest, U.Ordered, G.Groups, G.AllHunks, G.InContext, EdScript.HunksIn,
      RcsScript.HunksIn, NormalScript.HunksIn;
    match mode {
      case Plain(Ed) => EdScript.EdHunks(hs, A, B);
      case Plain(Rcs) => RcsScript.RcsHunks(hs, A, B);
      case Plain(Normal) => NormalScript.NormalNames(hs, 0, 0, A, B);
      case Context(ctx) => var gs := G.UnifiedShown(hs, ctx, A, B);
    }
  }

  /** Lines that differ have different hashes. */
  ghost predicate NoCollision(A: seq<string>, B: seq<string>, hash: string -> int) {
    forall i, j :: 0 <= i < |A| && 0 <= j < |B| && hash(A[i]) == hash(B[j]) ==> A[i] == B[j]
  }

  /** What check leaves of a match by hash, once bracketed for output: an increasing match of equal lines,
      and the whole match when no two lines collide. */
  lemma {:induction false} CheckedMatch(J: seq<int>, J': seq<int>, d1: Doc, d2: Doc, hash: string -> int, longest: bool)
    requires d1.Valid() && d2.Valid() && d1.nl && d2.nl
    requires DR.MatchOf(J, Hashes(d1.lines, hash), Hashes(d2.lines, hash), longest) && |J'| == |J|
    requires Increasing(J, |d1.lines|, |d2.lines|)
    requires forall x :: 1 <= x <= |d1.lines| ==> J'[x] == C.Checked(d1, d2, J, x)
    ensures var m, n := |d1.lines|, |d2.lines|;
      var K := J'[0 := 0][m + 1 := n + 1];
      && Bracketed(K, m, n) && PairsEqual(K, d1.lines, d2.lines)
      && (longest && NoCollision(d1.lines, d2.lines, hash) ==> Longest(PairsOf(K, m), d1.lines, d2.lines))
  {
    var m, n := |d1.lines|, |d2.lines|;
    var K := J'[0 := 0][m + 1 := n + 1];
    forall x | 1 <= x <= m
      ensures K[x] == if J[x] != 0 && d1.lines[x - 1] == d2.lines[J[x] - 1] then J[x] else 0
    {
      if J[x] != 0 {
        C.TerminatedFiles(d1, x - 1, d2, J[x] - 1);
      }
    }
    if longest && NoCollision(d1.lines, d2.lines, hash) {
      forall x | 1 <= x <= m ensures K[x] == J[x] {
        if J[x] != 0 {
          assert Hashes(d1.lines, hash)[x - 1] == Hashes(d2.lines, hash)[J[x] - 1];
        }
      }
      SamePairs(K, J, m);
      SameChains(PairsOf(J, m), d1.lines, d2.lines, hash);
    }
  }

  lemma {:induction false} SamePairs(K: seq<int>, J: seq<int>, n: nat)
    requires n < |K| && n < |J| && forall x :: 1 <= x <= n ==> K[x] == J[x]
    ensures PairsOf(K, n) == PairsOf(J, n)
  {
    if n > 0 {
      SamePairs(K, J, n - 1);
    }
  }

  /** Without collisions, lines and hashes have the same common subsequences. */
  lemma SameChains(p: seq<Pair>, A: seq<string>, B: seq<string>, hash: string -> int)
    requires NoCollision(A, B, hash) && Longest(p, Hashes(A, hash), Hashes(B, hash))
    ensures Longest(p, A, B)
  {
    forall i | 0 <= i < |p| ensures A[p[i].x - 1] == B[p[i].y - 1] {
      assert Hashes(A, hash)[p[i].x - 1] == Hashes(B, hash)[p[i].y - 1];
    }
    forall q | Chain(q, A, B) ensures |q| <= |p| {
      assert Chain(q, Hashes(A, hash), Hashes(B, hash));
    }
  }

  /** When the output is known to change as few lines as possible: no two lines collide, and the search is
      exhaustive, by -d or because no hash value is in file 2 more often than the search bound. */
  ghost predicate Least(minimal: bool, sq: nat, A: seq<string>, B: seq<string>, hash: string -> int) {
    St.Exhaustive(minimal, sq, Hashes(B, hash)) && NoCollision(A, B, hash)
  }

  /** The match vector as output brackets it. */
  ghost function WithEnds(J: seq<int>, m: nat, n: nat): seq<int>
    requires m + 1 < |J|
  {
    J[0 := 0][m + 1 := n + 1]
  }

  /** A bracketed match of equal lines, the longest there is when least is set. */
  ghost predicate LineMatch(K: seq<int>, A: seq<string>, B: seq<string>, least: bool) {
    && Bracketed(K, |A|, |B|)
    && PairsEqual(K, A, B)
    && (least ==> Longest(PairsOf(K, |A|), A, B))
  }

  lemma Matched(J: seq<int>, J': seq<int>, d1: Doc, d2: Doc, hash: string -> int, longest: bool)
    requires d1.Valid() && d2.Valid() && d1.nl && d2.nl
    requires DR.MatchOf(J, Hashes(d1.lines, hash), Hashes(d2.lines, hash), longest) && |J'| == |J|
    requires Increasing(J, |d1.lines|, |d2.lines|)
    requires forall x :: 1 <= x <= |d1.lines| ==> J'[x] == C.Checked(d1, d2, J, x)
    ensures |d1.lines| + 1 < |J'|
    ensures LineMatch(WithEnds(J', |d1.lines|, |d2.lines|), d1.lines, d2.lines,
                      longest && NoCollision(d1.lines, d2.lines, hash))
  {
    CheckedMatch(J, J', d1, d2, hash, longest);
  }

  lemma MatchIncreasing(J: seq<int>, v: seq<int>, w: seq<int>, longest: bool)
    requires DR.MatchOf(J, v, w, longest)
    ensures Increasing(J, |v|, |w|)
  {
  }

  /** Files that end in a newline are always indexed exactly. */
  lemma NeverLost(d1: Doc, d2: Doc, J: seq<int>)
    requires d1.Valid() && d2.Valid() && d1.nl && d2.nl && Increasing(J, |d1.lines|, |d2.lines|)
    ensures forall x :: 1 <= x <= |d1.lines| ==> !C.Loses(d1, d2, J, x)
  {
    forall x | 1 <= x <= |d1.lines| ensures !C.Loses(d1, d2, J, x) {
      if J[x] != 0 {
        C.TerminatedFiles(d1, x - 1, d2, J[x] - 1);
      }
    }
  }

  /** Every line is matched with the line of the same number. */
  ghost predicate InStepAll(K: seq<int>, m: nat) {
    m + 1 < |K| && forall i :: 0 <= i <= m + 1 ==> K[i] == i
  }

  /** Two files with the same lines are matched line by line, whatever the hash: prune sets everything aside. */
  lemma SameFiles(J: seq<int>, J': seq<int>, d1: Doc, d2: Doc, hash: string -> int)
    requires d1.Valid() && d2.Valid() && d1.nl && d2.nl && d1.lines == d2.lines
    requires |d1.lines| + 1 < |J| == |J'| && Increasing(J, |d1.lines|, |d2.lines|)
    requires DR.EndsKept(J, Hashes(d1.lines, hash), Hashes(d2.lines, hash))
    requires forall x :: 1 <= x <= |d1.lines| ==> J'[x] == C.Checked(d1, d2, J, x)
    ensures InStepAll(WithEnds(J', |d1.lines|, |d2.lines|), |d1.lines|)
  {
    var v := Hashes(d1.lines, hash);
    assert v[..|v|] == v && v[|v| - 0..] == [];
    assert P.Pruned(v, v, |v|, 0);
    forall x | 1 <= x <= |d1.lines| ensures J'[x] == x {
      C.TerminatedFiles(d1, x - 1, d2, J[x] - 1);
    }
  }

  lemma {:induction false} NoHunks(K: seq<int>, m: nat, p: nat)
    requires InStepAll(K, m) && p <= m + 1
    ensures HunksFrom(K, m, p) == []
    decreases m + 1 - p
  {
    if p <= m {
      NoHunks(K, m, p + 1);
    }
  }

  /** No hunks are printed, and they cover the files, only when the files have the same lines. */
  lemma NothingCovers(A: seq<string>, B: seq<string>)
    requires Covers([], 0, 0, A, B)
    ensures A == B
  {
    assert A[0..] == A && B[0..] == B;
  }

  /** Only an empty output names no hunks, and it changes nothing. */
  lemma NothingPrinted(mode: Mode, out: seq<string>, A: seq<string>, B: seq<string>)
    requires ContextShown(mode, out, |A|, |B|)
    ensures HunksIn(mode, out) == Some([]) ==> out == []
    ensures Apply(mode, [], A) == Some(A)
  {
    hide G.ContextOf, G.AllNear, G.Separate;
    assert A[0..] == A;
    if mode.Context? && HunksIn(mode, out) == Some([]) {
      var gs := G.Groups(out).value;
      NoGroups(gs, mode.ctx, |A|, |B|);
    } else if mode == Plain(Ed) && HunksIn(mode, out) == Some([]) {
      var es := EdScript.Edits(out).value;
      assert Reverse(es) == [];
    }
  }

  lemma NoGroups(gs: seq<G.Shown>, ctx: nat, n: nat, m: nat)
    requires G.InContext(gs, ctx, n, m) && G.AllHunks(gs) == []
    ensures gs == []
  {
    assert gs != [] ==> G.ContextOf(gs[0], ctx, n, m);
  }

  /** From the open files to the checked match vector and the line offsets. */
  method Compare(f1: Stream, f2: Stream, hash: string -> int, minimal: bool, sq: nat, ghost d1: Doc, ghost d2: Doc)
    returns (J: array<int>, ixold: array<int>, ixnew: array<int>, len0: nat, len1: nat)
    requires f1 != f2 && f1.text == d1.Text() && f2.text == d2.Text()
    requires d1.Valid() && d2.Valid() && d1.nl && d2.nl
    requires |d2.lines| <= St.INT_MAX
    requires DR.SentinelSafe(Hashes(d1.lines, hash), Hashes(d2.lines, hash))
    modifies f1, f2
    ensures fresh(J) && fresh(ixold) && fresh(ixnew) && J != ixold && J != ixnew
    ensures len0 == |d1.lines| && len1 == |d2.lines| && len0 + 1 < J.Length
    ensures Indexed(f1, ixold, d1) && Indexed(f2, ixnew, d2)
    ensures LineMatch(WithEnds(J[..], len0, len1), d1.lines, d2.lines, Least(minimal, sq, d1.lines, d2.lines, hash))
    ensures d1.lines == d2.lines ==> InStepAll(WithEnds(J[..], len0, len1), len0)
  {
    hide DR.SentinelSafe, DR.MatchOf, Hashes, Doc.Valid, Doc.Text, Doc.Start, C.Loses, C.Checked, LineMatch, WithEnds,
      NoCollision, P.TableValues, Increasing, St.Exhaustive, DR.EndsKept, InStepAll;
    ghost var v, w := Hashes(d1.lines, hash), Hashes(d2.lines, hash);
    var file0, file1;
    len0, file0 := Prepare(f1, hash, d1);
    len1, file1 := Prepare(f2, hash, d2);
    J := DR.Match(file0, len0, file1, len1, minimal, sq);
    ixold := new int[len0 + 2];
    ixnew := new int[len1 + 2];
    ghost var J1 := J[..];
    ghost var longest := St.Exhaustive(minimal, sq, w);
    MatchIncreasing(J1, v, w, longest);
    NeverLost(d1, d2, J1);
    C.Check(f1, f2, J, ixold, ixnew, len0, len1, d1, d2);
    Matched(J1, J[..], d1, d2, hash, longest);
    if d1.lines == d2.lines {
      SameFiles(J1, J[..], d1, d2, hash);
    }
  }

  /** What diffreg prints: the output names the hunks hs, which cover the two files, a reader turns the first file
      into the second with it, unified output shows just the context asked for, and when least is set no hunks that
      turn the first file into the second delete or add fewer lines. */
  ghost predicate Diffs(mode: Mode, out: seq<string>, hs: seq<Hunk>, A: seq<string>, B: seq<string>, least: bool) {
    && HunksIn(mode, out) == Some(hs) && Covers(hs, 0, 0, A, B)
    && Apply(mode, out, A) == Some(B)
    && ContextShown(mode, out, |A|, |B|)
    && (least ==> forall other :: Covers(other, 0, 0, A, B) ==>
          M.Deleted(hs) <= M.Deleted(other) && M.Added(hs) <= M.Added(other))
  }

  lemma DiffsBy(mode: Mode, K: seq<int>, hs: seq<Hunk>, A: seq<string>, B: seq<string>, least: bool)
    requires LineMatch(K, A, B, least) && hs == HunksFrom(K, |A|, 0)
    ensures Plan(K, |A|, |B|, hs) && Covers(hs, 0, 0, A, B)
    ensures AllFit(InOrder(mode, hs), |A|, |B|)
    ensures mode.Context? ==> U.Ordered([] + InOrder(mode, hs), 0, 0, |A|, |B|)
    ensures Diffs(mode, Printed(mode, InOrder(mode, hs), A, B), hs, A, B, least)
  {
    hide Apply, Printed, PairsEqual, AllFit, Longest, InOrder, Increasing, HunksFrom, Covers, U.Ordered, M.Deleted,
         M.Added, Apart, HunksIn, ContextShown;
    HunksCover(K, |A|, 0, A, B);
    HunksApart(K, |A|, 0);
    CoversOrdered(hs, A, B);
    OutputPatches(mode, hs, A, B);
    OutputNames(mode, hs, A, B);
    if least {
      forall other | Covers(other, 0, 0, A, B)
        ensures M.Deleted(hs) <= M.Deleted(other) && M.Added(hs) <= M.Added(other)
      {
        M.FewestChanges(K, A, B, hs, other);
      }
    }
  }

  /** diffreg on two texts that end in a newline. Whatever the hash function and the search bound, the output
      turns the first file into the second, and it is empty, with no change reported, exactly when the two files
      are the same. It changes as few lines as possible, as long as no two lines collide, with -d, and also
      without it when no hash value is in the second file more often than the search bound. */
  method Diff(text1: string, text2: string, hash: string -> int, minimal: bool, sq: nat, mode: Mode)
    returns (out: seq<string>, anychange: bool)
    requires Split(text1).nl && Split(text2).nl
    requires |Split(text2).lines| <= St.INT_MAX
    requires DR.SentinelSafe(Hashes(Split(text1).lines, hash), Hashes(Split(text2).lines, hash))
    ensures Apply(mode, out, Split(text1).lines) == Some(Split(text2).lines)
    ensures var least := Least(minimal, sq, Split(text1).lines, Split(text2).lines, hash);
      exists hs :: Diffs(mode, out, hs, Split(text1).lines, Split(text2).lines, least)
    ensures anychange <==> text1 != text2
    ensures out != [] <==> text1 != text2
  {
    hide DR.SentinelSafe, Hashes, Split, Doc.Text, Doc.Valid, LineMatch, Least, Indexed, Plan, Diffs, Printed, AllFit,
      Report.Valid, Covers, U.Ordered, HunksFrom, InOrder, Apply, InStepAll;
    ghost var d1, d2 := Split(text1), Split(text2);
    ghost var least := Least(minimal, sq, d1.lines, d2.lines, hash);
    var f1 := new Stream(text1);
    var f2 := new Stream(text2);
    var J, ixold, ixnew, len0, len1 := Compare(f1, f2, hash, minimal, sq, d1, d2);
    ghost var K := WithEnds(J[..], len0, len1);
    ghost var hs := HunksFrom(K, len0, 0);
    DiffsBy(mode, K, hs, d1.lines, d2.lines, least);
    var report := new Report(mode, f1, f2, ixold, ixnew, len0, len1, d1, d2);
    Output(J, report, K, hs);
    out, anychange := report.out, report.anychange;
    DiffsApply(mode, out, hs, d1.lines, d2.lines, least);
    SameWhen(mode, text1, text2, K, hs, out);
  }

  /** The two texts are the same exactly when there are no hunks, and when nothing is printed. */
  lemma SameWhen(mode: Mode, text1: string, text2: string, K: seq<int>, hs: seq<Hunk>, out: seq<string>)
    requires Split(text1).nl && Split(text2).nl
    requires var A, B := Split(text1).lines, Split(text2).lines;
      && (A == B ==> InStepAll(K, |A|))
      && |A| + 1 < |K| && hs == HunksFrom(K, |A|, 0)
      && Diffs(mode, out, hs, A, B, false)
    ensures text1 == text2 <==> hs == []
    ensures text1 == text2 <==> out == []
  {
    hide HunksFrom, InStepAll, Apply, Covers, HunksIn, ContextShown;
    var d1, d2 := Split(text1), Split(text2);
    SameLines(text1, text2);
    if d1.lines == d2.lines {
      NoHunks(K, |d1.lines|, 0);
    }
    if hs == [] {
      NothingCovers(d1.lines, d2.lines);
    }
    NothingPrinted(mode, out, d1.lines, d2.lines);
    NothingNamed(mode);
  }

  lemma NothingNamed(mode: Mode)
    ensures HunksIn(mode, []) == Some([])
  {
  }

  lemma SameLines(text1: string, text2: string)
    requires Split(text1).nl && Split(text2).nl
    ensures text1 == text2 <==> Split(text1).lines == Split(text2).lines
  {
    var d1, d2 := Split(text1), Split(text2);
    assert d1.lines == d2.lines ==> d1 == d2;
    assert d1.Text() == text1 && d2.Text() == text2;
  }

  lemma DiffsApply(mode: Mode, out: seq<string>, hs: seq<Hunk>, A: seq<string>, B: seq<string>, least: bool)
    requires Diffs(mode, out, hs, A, B, least)
    ensures Apply(mode, out, A) == Some(B) && Diffs(mode, out, hs, A, B, false)
  {
  }
}
