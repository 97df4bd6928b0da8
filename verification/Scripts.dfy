/** The text of one hunk in the line-oriented output formats. Lines are given without their newline. */
module Scripts {
  import opened Decimal
  import opened Hunks
  import opened HunkWalk
  import Sequences

  /** The line-oriented formats, one command per hunk: the default output, -e and -n. */
  datatype Format = Normal | Ed | Rcs

  /** Lines a..b, numbered from 1. */
  function Sub(L: seq<string>, a: int, b: int): (r: seq<string>)
    requires 1 <= a <= b + 1 <= |L| + 1
    ensures |r| == b - a + 1
  {
    L[a - 1..b]
  }

  /** The hunk speaks of lines that exist, n in the first file and m in the second. */
  predicate Fits(h: Hunk, n: int, m: int) {
    1 <= h.a <= h.b + 1 <= n + 1 && 1 <= h.c <= h.d + 1 <= m + 1
  }

  predicate AllFit(hs: seq<Hunk>, n: int, m: int) {
    forall i :: 0 <= i < |hs| ==> Fits(hs[i], n, m)
  }

  lemma AllFitAppend(hs: seq<Hunk>, h: Hunk, n: int, m: int)
    requires AllFit(hs, n, m) && Fits(h, n, m)
    ensures AllFit(hs + [h], n, m)
  {
  }

  function Letter(h: Hunk): char {
    if h.a > h.b then 'a' else if h.c > h.d then 'd' else 'c'
  }

  /** range: one number when the range is empty or a single line. */
  function RangeText(a: int, b: int): string
    requires 1 <= a && 0 <= b
  {
    Dec(if a > b then b else a) + (if a < b then "," + Dec(b) else "")
  }

  /** Every line behind a prefix. */
  function Prefixed(lead: string, L: seq<string>): (r: seq<string>)
    ensures |r| == |L|
    ensures forall i :: 0 <= i < |L| ==> r[i] == lead + L[i]
  {
    seq(|L|, i requires 0 <= i < |L| => lead + L[i])
  }

  /** The first line in a..b that is a lone dot, or 0. */
  function LoneDot(L: seq<string>, a: int, b: int): (t: int)
    requires 1 <= a <= b + 1 <= |L| + 1
    ensures t == 0 || a <= t <= b
    ensures t != 0 ==> L[t - 1] == "."
    ensures forall i :: a - 1 <= i < (if t == 0 then b else t - 1) ==> L[i] != "."
    decreases b - a + 1
  {
    if a > b then 0 else if L[a - 1] == "." then a else LoneDot(L, a + 1, b)
  }

  /** An ed command with its input text. A lone dot is entered as two dots, after which the input mode is
      left, the extra dot removed by a substitution and the rest appended by another command. */
  function EdText(h: Hunk, B: seq<string>): seq<string>
    requires 1 <= h.a <= h.b + 1 && 1 <= h.c <= h.d + 1 <= |B| + 1
    decreases h.d - h.c + 1
  {
    if h.Empty() then []
    else
      var command := [RangeText(h.a, h.b) + [Letter(h)]];
      var t := LoneDot(B, h.c, h.d);
      if t == 0 then command + Sub(B, h.c, h.d) + (if h.c <= h.d then ["."] else [])
      else
        var last := h.a + (t - h.c);
        command + Sub(B, h.c, t - 1) + ["..", ".", Dec(last) + "s/.//"]
        + EdText(Hunk(last + 1, last, t + 1, h.d), B)
  }

  function RcsText(h: Hunk, B: seq<string>): seq<string>
    requires 1 <= h.a <= h.b + 1 && 1 <= h.c <= h.d + 1 <= |B| + 1
  {
    var add := ["a" + Dec(h.b) + " " + Dec(h.d - h.c + 1)];
    if h.Empty() then []
    else if h.a > h.b then add + Sub(B, h.c, h.d)
    else ["d" + Dec(h.a) + " " + Dec(h.b - h.a + 1)] + (if h.c > h.d then [] else add) + Sub(B, h.c, h.d)
  }

  function NormalText(h: Hunk, A: seq<string>, B: seq<string>): seq<string>
    requires Fits(h, |A|, |B|)
  {
    if h.Empty() then []
    else
      [RangeText(h.a, h.b) + [Letter(h)] + RangeText(h.c, h.d)]
      + Prefixed("< ", Sub(A, h.a, h.b))
      + (if h.a <= h.b && h.c <= h.d then ["---"] else [])
      + Prefixed("> ", Sub(B, h.c, h.d))
  }

  function HunkText(f: Format, h: Hunk, A: seq<string>, B: seq<string>): seq<string>
    requires Fits(h, |A|, |B|)
  {
    match f
    case Normal => NormalText(h, A, B)
    case Ed => EdText(h, B)
    case Rcs => RcsText(h, B)
  }

  /** What change prints for the hunks hs in turn. */
  function Script(f: Format, hs: seq<Hunk>, A: seq<string>, B: seq<string>): seq<string>
    requires AllFit(hs, |A|, |B|)
  {
    if hs == [] then [] else Script(f, hs[..|hs| - 1], A, B) + HunkText(f, hs[|hs| - 1], A, B)
  }

  lemma ScriptNothing(f: Format, A: seq<string>, B: seq<string>)
    ensures Script(f, [], A, B) == []
  {
  }

  lemma ScriptSplit(f: Format, hs: seq<Hunk>, h: Hunk, A: seq<string>, B: seq<string>)
    requires Fits(h, |A|, |B|) && AllFit(hs, |A|, |B|)
    ensures AllFit(hs + [h], |A|, |B|)
    ensures Script(f, hs + [h], A, B) == Script(f, hs, A, B) + HunkText(f, h, A, B)
  {
    assert (hs + [h])[..|hs|] == hs;
  }

  /** The first hunk's text comes first. */
  lemma LastFits(hs: seq<Hunk>, n: nat, m: nat)
    requires hs != [] && AllFit(hs, n, m)
    ensures AllFit(hs[..|hs| - 1], n, m) && Fits(hs[|hs| - 1], n, m)
  {
    hide Fits;
  }

  lemma {:induction false} ScriptCons(f: Format, h: Hunk, hs: seq<Hunk>, A: seq<string>, B: seq<string>)
    requires Fits(h, |A|, |B|) && AllFit(hs, |A|, |B|)
    ensures AllFit([h] + hs, |A|, |B|)
    ensures Script(f, [h] + hs, A, B) == HunkText(f, h, A, B) + Script(f, hs, A, B)
  {
    hide HunkText, Fits, AllFit, Script;
    if hs == [] {
      Sequences.Whole([h]);
      ScriptNothing(f, A, B);
      ScriptSplit(f, [], h, A, B);
      Sequences.Whole(HunkText(f, h, A, B));
    } else {
      var t, l := hs[..|hs| - 1], hs[|hs| - 1];
      LastFits(hs, |A|, |B|);
      Sequences.Last(hs);
      ScriptCons(f, h, t, A, B);
      ScriptSplit(f, t, l, A, B);
      ScriptSplit(f, [h] + t, l, A, B);
      Sequences.Assoc([h], t, [l]);
      Sequences.Assoc(HunkText(f, h, A, B), Script(f, t, A, B), HunkText(f, l, A, B));
    }
  }

  lemma {:induction false} CoversFit(hs: seq<Hunk>, x: nat, y: nat, A: seq<string>, B: seq<string>)
    requires x <= |A| && y <= |B| && Covers(hs, x, y, A, B)
    ensures AllFit(hs, |A|, |B|)
  {
    if hs != [] {
      CoversFit(hs[1..], hs[0].b, hs[0].d, A, B);
      assert hs == [hs[0]] + hs[1..];
    }
  }

  lemma {:induction false} ReverseFits(hs: seq<Hunk>, n: int, m: int)
    requires AllFit(hs, n, m)
    ensures AllFit(Reverse(hs), n, m)
  {
    if hs != [] {
      ReverseFits(hs[1..], n, m);
    }
  }

  /** Common lines, a hunk's new lines and the rest of the new file. */
  lemma NewFile(h: Hunk, x: nat, y: nat, A: seq<string>, B: seq<string>)
    requires x < h.a <= h.b + 1 <= |A| + 1 && y < h.c <= h.d + 1 <= |B| + 1
    requires A[x..h.a - 1] == B[y..h.c - 1]
    ensures (A[x..h.a - 1] + B[h.c - 1..h.d]) + B[h.d..] == B[y..]
  {
    assert B[y..h.c - 1] + B[h.c - 1..h.d] == B[y..h.d];
    assert B[y..h.d] + B[h.d..] == B[y..];
  }
}
