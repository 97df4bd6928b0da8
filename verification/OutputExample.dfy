/** What diff prints for one small pair of files, in every format that is modelled: the letters, marks and numbers as
    they appear in the output. */
module OutputExample {
  import opened Decimal
  import opened Hunks
  import opened HunkWalk
  import opened Scripts
  import opened Printer
  import U = Unified

  /** What is printed for the files a b c d and a x d e, in every format, with one line of context and with none. */
  lemma Output()
    ensures var A, B, hs := ["a", "b", "c", "d"], ["a", "x", "d", "e"], [Hunk(2, 3, 2, 2), Hunk(5, 4, 4, 4)];
      && Covers(hs, 0, 0, A, B) && AllFit(hs, 4, 4) && AllFit(Reverse(hs), 4, 4) && U.Ordered([] + hs, 0, 0, 4, 4)
      && Printed(Plain(Normal), hs, A, B) == ["2,3c2", "< b", "< c", "---", "> x", "4a4", "> e"]
      && Printed(Plain(Ed), Reverse(hs), A, B) == ["4a", "e", ".", "2,3c", "x", "."]
      && Printed(Plain(Rcs), hs, A, B) == ["d2 2", "a3 1", "x", "a4 1", "e"]
      && Printed(Context(1), hs, A, B) == ["@@ -1,4 +1,4 @@", " a", "-b", "-c", "+x", " d", "+e"]
      && Printed(Context(0), hs, A, B) == ["@@ -2,2 +2 @@", "-b", "-c", "+x", "@@ -4,0 +4 @@", "+e"]
  {
    var A, B, h, g := ["a", "b", "c", "d"], ["a", "x", "d", "e"], Hunk(2, 3, 2, 2), Hunk(5, 4, 4, 4);
    var hs := [h, g];
    ExampleCovers(A, B, h, g);
    Numerals();
    ExampleScripts(A, B, h, g);
    ExampleGroups(A, B, h, g);
  }

  lemma Numerals()
    ensures Dec(1) == "1" && Dec(2) == "2" && Dec(3) == "3" && Dec(4) == "4"
  {
  }

  lemma ExampleCovers(A: seq<string>, B: seq<string>, h: Hunk, g: Hunk)
    requires A == ["a", "b", "c", "d"] && B == ["a", "x", "d", "e"] && h == Hunk(2, 3, 2, 2) && g == Hunk(5, 4, 4, 4)
    ensures Covers([h, g], 0, 0, A, B) && AllFit([h, g], 4, 4) && AllFit([g, h], 4, 4)
    ensures Reverse([h, g]) == [g, h] && U.Ordered([h, g], 0, 0, 4, 4)
  {
    assert A[0..1] == B[0..1] && A[3..4] == B[2..3] && A[4..] == B[4..];
    assert [h, g][1..] == [g] && [g][1..] == [];
    assert Covers([], 4, 4, A, B);
    assert Covers([g], 3, 2, A, B);
    assert Reverse([g]) == [g];
    assert U.Ordered([g], 3, 2, 4, 4);
  }

  /** Two hunks, one text after the other. */
  lemma TwoTexts(f: Format, h: Hunk, g: Hunk, A: seq<string>, B: seq<string>)
    requires Fits(h, |A|, |B|) && Fits(g, |A|, |B|)
    ensures AllFit([h, g], |A|, |B|)
    ensures Script(f, [h, g], A, B) == HunkText(f, h, A, B) + HunkText(f, g, A, B)
  {
    hide HunkText, Script, Fits;
    assert [h] + [] == [h] && [h] + [g] == [h, g];
    ScriptNothing(f, A, B);
    ScriptCons(f, h, [], A, B);
    ScriptSplit(f, [h], g, A, B);
    assert HunkText(f, h, A, B) + [] == HunkText(f, h, A, B);
  }

  lemma ExampleScripts(A: seq<string>, B: seq<string>, h: Hunk, g: Hunk)
    requires A == ["a", "b", "c", "d"] && B == ["a", "x", "d", "e"] && h == Hunk(2, 3, 2, 2) && g == Hunk(5, 4, 4, 4)
    requires AllFit([h, g], 4, 4) && AllFit([g, h], 4, 4)
    ensures Script(Normal, [h, g], A, B) == ["2,3c2", "< b", "< c", "---", "> x", "4a4", "> e"]
    ensures Script(Ed, [g, h], A, B) == ["4a", "e", ".", "2,3c", "x", "."]
    ensures Script(Rcs, [h, g], A, B) == ["d2 2", "a3 1", "x", "a4 1", "e"]
  {
    hide Dec, Script, Prefixed, RangeText, Sub;
    Numerals();
    Marked("< ", "b", "c");
    Marked("> ", "x", "e");
    TwoTexts(Normal, h, g, A, B);
    TwoTexts(Ed, g, h, A, B);
    TwoTexts(Rcs, h, g, A, B);
    Lines(A, B);
    Ranges();
    assert "< " + "b" == "< b" && "< " + "c" == "< c" && "> " + "x" == "> x" && "> " + "e" == "> e";
    assert "2,3" + ['c'] + "2" == "2,3c2" && "4" + ['a'] + "4" == "4a4";
    assert "2,3" + ['c'] == "2,3c" && "4" + ['a'] == "4a";
    assert "d" + "2" + " " + "2" == "d2 2" && "a" + "3" + " " + "1" == "a3 1" && "a" + "4" + " " + "1" == "a4 1";
    NoDots(B);
    assert HunkText(Normal, h, A, B) == ["2,3c2", "< b", "< c", "---", "> x"];
    assert HunkText(Normal, g, A, B) == ["4a4", "> e"];
    assert HunkText(Ed, h, A, B) == ["2,3c", "x", "."];
    assert HunkText(Ed, g, A, B) == ["4a", "e", "."];
    assert HunkText(Rcs, h, A, B) == ["d2 2", "a3 1", "x"];
    assert HunkText(Rcs, g, A, B) == ["a4 1", "e"];
  }

  lemma Marked(mark: string, s: string, t: string)
    ensures Prefixed(mark, [s]) == [mark + s] && Prefixed(mark, [t]) == [mark + t]
    ensures Prefixed(mark, [s, t]) == [mark + s, mark + t] && Prefixed(mark, []) == []
  {
  }

  lemma Lines(A: seq<string>, B: seq<string>)
    requires A == ["a", "b", "c", "d"] && B == ["a", "x", "d", "e"]
    ensures Sub(A, 1, 1) == ["a"] && Sub(A, 2, 3) == ["b", "c"] && Sub(A, 5, 4) == [] && Sub(A, 4, 4) == ["d"]
    ensures Sub(B, 2, 2) == ["x"] && Sub(B, 3, 3) == ["d"] && Sub(B, 4, 4) == ["e"] && Sub(B, 5, 4) == []
    ensures Sub(A, 2, 1) == [] && Sub(B, 3, 2) == [] && Sub(B, 4, 3) == []
  {
  }

  lemma Ranges()
    ensures RangeText(2, 3) == "2,3" && RangeText(2, 2) == "2" && RangeText(5, 4) == "4" && RangeText(4, 4) == "4"
  {
    Numerals();
  }

  lemma NoDots(B: seq<string>)
    requires B == ["a", "x", "d", "e"]
    ensures LoneDot(B, 2, 2) == 0 && LoneDot(B, 4, 4) == 0
  {
  }

  lemma ExampleGroups(A: seq<string>, B: seq<string>, h: Hunk, g: Hunk)
    requires A == ["a", "b", "c", "d"] && B == ["a", "x", "d", "e"] && h == Hunk(2, 3, 2, 2) && g == Hunk(5, 4, 4, 4)
    requires U.Ordered([h, g], 0, 0, 4, 4)
    ensures U.Ordered([] + [h, g], 0, 0, 4, 4)
    ensures U.Rest([], [h, g], 1, A, B) == ["@@ -1,4 +1,4 @@", " a", "-b", "-c", "+x", " d", "+e"]
    ensures U.Rest([], [h, g], 0, A, B) == ["@@ -2,2 +2 @@", "-b", "-c", "+x", "@@ -4,0 +4 @@", "+e"]
  {
    hide Dec;
    Numerals();
    assert [] + [h, g] == [h, g] && [h] + [g] == [h, g] && [h, g][1..] == [g] && [g][1..] == [] && [] + [h] == [h];
    assert [h, g] + [] == [h, g] && [g] + [] == [g];
    RestTwo(h, g, 1, A, B);
    RestTwo(h, g, 0, A, B);
    ExampleTogether(A, B, h, g);
    ExampleApart(A, B, h, g);
  }

  lemma RestTwo(h: Hunk, g: Hunk, ctx: nat, A: seq<string>, B: seq<string>)
    requires U.Ordered([h, g], 0, 0, |A|, |B|)
    ensures U.Ordered([] + [h, g], 0, 0, |A|, |B|) && U.Group([h], |A|, |B|) && U.Group([g], |A|, |B|)
    ensures U.Rest([], [h, g], ctx, A, B) ==
      if U.Far(h, g, ctx) then U.Dump([h], ctx, A, B) + U.Dump([g], ctx, A, B) else U.Dump([h, g], ctx, A, B)
  {
    hide U.Dump, U.Far;
    assert [] + [h, g] == [h, g] && [h] + [g] == [h, g] && [h, g][1..] == [g] && [g][1..] == [] && [] + [h] == [h];
    assert [h, g] + [] == [h, g] && [g] + [] == [g];
    U.OrderedParts([h], [g], 0, 0, |A|, |B|);
    assert U.Rest([h], [g], ctx, A, B) ==
      if U.Far(h, g, ctx) then U.Dump([h], ctx, A, B) + U.Dump([g], ctx, A, B) else U.Dump([h, g], ctx, A, B) by {
      assert U.Rest([g], [], ctx, A, B) == U.Dump([g], ctx, A, B);
      assert U.Rest([h, g], [], ctx, A, B) == U.Dump([h, g], ctx, A, B);
    }
  }

  lemma ExampleTogether(A: seq<string>, B: seq<string>, h: Hunk, g: Hunk)
    requires A == ["a", "b", "c", "d"] && B == ["a", "x", "d", "e"] && h == Hunk(2, 3, 2, 2) && g == Hunk(5, 4, 4, 4)
    requires U.Ordered([h, g], 0, 0, 4, 4)
    ensures U.Dump([h, g], 1, A, B) == ["@@ -1,4 +1,4 @@", " a", "-b", "-c", "+x", " d", "+e"]
  {
    hide Dec, Prefixed, Sub;
    Numerals();
    assert [h, g][1..] == [g] && [g][1..] == [];
    Lines(A, B);
    Marked(" ", "a", "d");
    Marked("-", "b", "c");
    Marked("+", "x", "e");
    assert " " + "a" == " a" && " " + "d" == " d" && "-" + "b" == "-b" && "-" + "c" == "-c";
    assert "+" + "x" == "+x" && "+" + "e" == "+e";
    assert U.Piece(h, 1, 1, A, B) == [" a", "-b", "-c", "+x"];
    assert U.Piece(g, 4, 3, A, B) == [" d", "+e"];
    assert U.Body([g], 4, 3, A, B) == [" d", "+e"];
    assert U.Header([h, g], 1, 4, 4) == "@@ -1,4 +1,4 @@";
  }

  lemma ExampleApart(A: seq<string>, B: seq<string>, h: Hunk, g: Hunk)
    requires A == ["a", "b", "c", "d"] && B == ["a", "x", "d", "e"] && h == Hunk(2, 3, 2, 2) && g == Hunk(5, 4, 4, 4)
    ensures U.Group([h], 4, 4) && U.Group([g], 4, 4)
    ensures U.Dump([h], 0, A, B) == ["@@ -2,2 +2 @@", "-b", "-c", "+x"]
    ensures U.Dump([g], 0, A, B) == ["@@ -4,0 +4 @@", "+e"]
  {
    hide Dec, Prefixed, Sub, U.Dump;
    Numerals();
    assert [h][1..] == [] && [g][1..] == [];
    Lines(A, B);
    Marked("-", "b", "c");
    Marked("+", "x", "e");
    Marked(" ", "", "");
    assert "-" + "b" == "-b" && "-" + "c" == "-c" && "+" + "x" == "+x" && "+" + "e" == "+e";
    assert U.Ordered([], 3, 2, 4, 4) && U.Ordered([], 4, 4, 4, 4);
    assert U.Piece(h, 2, 2, A, B) == ["-b", "-c", "+x"];
    assert U.Piece(g, 5, 4, A, B) == ["+e"];
    assert U.Header([h], 0, 4, 4) == "@@ -2,2 +2 @@";
    assert U.Header([g], 0, 4, 4) == "@@ -4,0 +4 @@";
    OneDump(h, A, B);
    OneDump(g, A, B);
  }

  lemma OneDump(h: Hunk, A: seq<string>, B: seq<string>)
    requires U.Group([h], |A|, |B|) && 1 <= h.a && 1 <= h.c && h.b <= |A| && h.d <= |B|
    ensures U.Dump([h], 0, A, B) == [U.Header([h], 0, |A|, |B|)] + U.Piece(h, h.a, h.c, A, B)
  {
    hide U.Piece, U.Header;
    assert [h][1..] == [];
    assert U.Body([h], h.a, h.c, A, B) == U.Piece(h, h.a, h.c, A, B) + [];
    assert Prefixed(" ", Sub(B, h.d + 1, h.d)) == [];
  }
}
