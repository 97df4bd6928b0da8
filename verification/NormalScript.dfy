/** A reader of the default diff output that takes nothing on trust: the line numbers of both files, the old
    text and the separators must all be right, or it refuses. */
module NormalScript {
  import opened Hunks
  import opened Scripts
  import EdScript
  import opened Wrappers
  import Sequences

  /** Old range, letter, new range. */
  function Parse(s: string): Option<(nat, nat, char, nat, nat)> {
    var r := EdScript.Parse(s);
    if r.None? || r.value.verb == "" then None
    else
      var q := EdScript.Parse(r.value.verb[1..]);
      if q.None? || q.value.verb != "" then None
      else Some((r.value.n, r.value.m, r.value.verb[0], q.value.n, q.value.m))
  }

  /** The lines without the given prefix; None when one does not have it. */
  function Strip(lead: string, L: seq<string>): (r: Option<seq<string>>)
    ensures r.Some? ==> |r.value| == |L|
  {
    if L == [] then Some([])
    else if !(lead <= L[0]) then None
    else
      var r := Strip(lead, L[1..]);
      if r.None? then r else Some([L[0][|lead|..]] + r.value)
  }

  /** The hunk a command line announces. */
  function HunkOf(p: (nat, nat, char, nat, nat)): Hunk {
    match p.2
    case 'a' => Hunk(p.0 + 1, p.1, p.3, p.4)
    case 'd' => Hunk(p.0, p.1, p.3 + 1, p.4)
    case _ => Hunk(p.0, p.1, p.3, p.4)
  }

  /** What follows a command line: the old lines, the separator, the new lines, and the rest of the script. */
  datatype Pieces = Pieces(minus: seq<string>, sep: seq<string>, plus: seq<string>, rest: seq<string>)

  function Cut(script: seq<string>, gone: nat, sep: nat, added: nat): (p: Pieces)
    requires |script| >= 1 + gone + sep + added
    ensures |p.rest| < |script| && |p.plus| == added
  {
    var i, j := 1 + gone, 1 + gone + sep;
    Pieces(script[1..i], script[i..j], script[j..j + added], script[j + added..])
  }

  /** The new file when lines pos.. of the original are still to come and made lines have been produced. */
  function Run(script: seq<string>, A: seq<string>, pos: nat, made: nat): Option<seq<string>>
    requires pos <= |A|
    decreases |script|
  {
    if script == [] then Some(A[pos..])
    else
      var p := Parse(script[0]);
      if p.None? then None
      else
        var h := HunkOf(p.value);
        var letter := p.value.2;
        if letter != Letter(h) || h.Empty() then None
        else if !(pos < h.a <= h.b + 1 <= |A| + 1 && h.c <= h.d + 1 && h.c - 1 == made + (h.a - 1 - pos)) then None
        else
          var gone, sep, added := h.b - h.a + 1, (if letter == 'c' then 1 else 0), h.d - h.c + 1;
          if |script| < 1 + gone + sep + added then None
          else
            var p := Cut(script, gone, sep, added);
            var o, n := Strip("< ", p.minus), Strip("> ", p.plus);
            if o != Some(A[h.a - 1..h.b]) || n.None? || (sep == 1 && p.sep != ["---"]) then None
            else
              var r := Run(p.rest, A, h.b, h.d);
              if r.None? then r else Some(A[pos..h.a - 1] + n.value + r.value)
  }

  lemma {:induction false} ParseHunk(h: Hunk)
    requires 1 <= h.a <= h.b + 1 && 1 <= h.c <= h.d + 1 && !h.Empty()
    ensures Parse(RangeText(h.a, h.b) + [Letter(h)] + RangeText(h.c, h.d))
         == Some((if h.a > h.b then h.b else h.a, h.b, Letter(h), if h.c > h.d then h.d else h.c, h.d))
  {
    hide EdScript.Parse, RangeText;
    var s := RangeText(h.a, h.b) + [Letter(h)] + RangeText(h.c, h.d);
    var rest := [Letter(h)] + RangeText(h.c, h.d);
    assert s == RangeText(h.a, h.b) + rest;
    EdScript.ParseCommand(h.a, h.b, rest);
    assert rest[1..] == RangeText(h.c, h.d) + "";
    EdScript.ParseCommand(h.c, h.d, "");
  }

  lemma {:induction false} StripPrefixed(lead: string, L: seq<string>)
    ensures Strip(lead, Prefixed(lead, L)) == Some(L)
  {
    var p := Prefixed(lead, L);
    if L != [] {
      assert p[1..] == Prefixed(lead, L[1..]);
      StripPrefixed(lead, L[1..]);
      assert p[0][|lead|..] == L[0];
      assert L == [L[0]] + L[1..];
    }
  }

  /** One round of the reader on a script that starts with the command of h and its lines. */
  lemma RunStep(h: Hunk, line: string, minus: seq<string>, sep: seq<string>, plus: seq<string>, rest: seq<string>,
                A: seq<string>, new': seq<string>, pos: nat, made: nat)
    requires 1 <= h.a <= h.b + 1 <= |A| + 1 && 1 <= h.c <= h.d + 1
    requires !h.Empty() && pos < h.a && h.c - 1 == made + (h.a - 1 - pos)
    requires Parse(line)
          == Some((if h.a > h.b then h.b else h.a, h.b, Letter(h), if h.c > h.d then h.d else h.c, h.d))
    requires sep == if Letter(h) == 'c' then ["---"] else []
    requires |minus| == h.b - h.a + 1 && |plus| == h.d - h.c + 1
    requires Strip("< ", minus) == Some(A[h.a - 1..h.b]) && Strip("> ", plus) == Some(new')
    ensures var r := Run(rest, A, h.b, h.d);
      Run([line] + (minus + (sep + (plus + rest))), A, pos, made) ==
      if r.None? then r else Some(A[pos..h.a - 1] + new' + r.value)
  {
    hide Parse, Strip, Letter, Cut;
    Letters(h);
    Sequences.Head(line, minus + (sep + (plus + rest)));
    CutParts(line, minus, sep, plus, rest);
  }

  lemma CutParts(line: string, minus: seq<string>, sep: seq<string>, plus: seq<string>, rest: seq<string>)
    ensures var script := [line] + (minus + (sep + (plus + rest)));
      && |script| >= 1 + |minus| + |sep| + |plus|
      && Cut(script, |minus|, |sep|, |plus|) == Pieces(minus, sep, plus, rest)
  {
    var i, j := 1 + |minus|, 1 + |minus| + |sep|;
    Sequences.Middle([line], minus, sep + (plus + rest), 1, i);
    Sequences.Assoc([line], minus, sep + (plus + rest));
    Sequences.Middle([line] + minus, sep, plus + rest, i, j);
    Sequences.AssocFour([line], minus, sep, plus + rest);
    Sequences.Middle([line] + minus + sep, plus, rest, j, j + |plus|);
  }

  /** The text of a hunk in the parts that the reader takes. */
  lemma NormalParts(h: Hunk, A: seq<string>, B: seq<string>, rest: seq<string>)
    requires Fits(h, |A|, |B|) && !h.Empty()
    ensures var line := RangeText(h.a, h.b) + [Letter(h)] + RangeText(h.c, h.d);
      var minus, plus := Prefixed("< ", Sub(A, h.a, h.b)), Prefixed("> ", Sub(B, h.c, h.d));
      var sep := if h.a <= h.b && h.c <= h.d then ["---"] else [];
      NormalText(h, A, B) + rest == [line] + (minus + (sep + (plus + rest)))
  {
    hide RangeText, Letter, Prefixed, Sub;
    var line := RangeText(h.a, h.b) + [Letter(h)] + RangeText(h.c, h.d);
    var minus, plus := Prefixed("< ", Sub(A, h.a, h.b)), Prefixed("> ", Sub(B, h.c, h.d));
    var sep := if h.a <= h.b && h.c <= h.d then ["---"] else [];
    Sequences.AssocFive([line], minus, sep, plus, rest);
  }

  lemma {:induction false} RunHunk(h: Hunk, A: seq<string>, B: seq<string>, rest: seq<string>, pos: nat, made: nat)
    requires Fits(h, |A|, |B|) && !h.Empty() && pos < h.a && h.c - 1 == made + (h.a - 1 - pos)
    ensures var r := Run(rest, A, h.b, h.d);
      Run(NormalText(h, A, B) + rest, A, pos, made) ==
      if r.None? then r else Some(A[pos..h.a - 1] + B[h.c - 1..h.d] + r.value)
  {
    hide Run, RangeText, Strip, Parse, Letter, NormalText, Prefixed;
    var line := RangeText(h.a, h.b) + [Letter(h)] + RangeText(h.c, h.d);
    var minus, plus := Prefixed("< ", Sub(A, h.a, h.b)), Prefixed("> ", Sub(B, h.c, h.d));
    var sep := if h.a <= h.b && h.c <= h.d then ["---"] else [];
    NormalParts(h, A, B, rest);
    ParseHunk(h);
    Letters(h);
    StripPrefixed("< ", Sub(A, h.a, h.b));
    StripPrefixed("> ", Sub(B, h.c, h.d));
    RunStep(h, line, minus, sep, plus, rest, A, Sub(B, h.c, h.d), pos, made);
  }

  lemma Letters(h: Hunk)
    requires !h.Empty()
    ensures Letter(h) == if h.a > h.b then 'a' else if h.c > h.d then 'd' else 'c'
  {
  }

  /** The default output of hunks that cover the files rebuilds B from A. */
  lemma {:induction false} NormalPatches(hs: seq<Hunk>, x: nat, y: nat, A: seq<string>, B: seq<string>)
    requires x <= |A| && y <= |B| && Covers(hs, x, y, A, B)
    requires AllFit(hs, |A|, |B|)
    ensures Run(Script(Normal, hs, A, B), A, x, y) == Some(B[y..])
  {
    hide Run, Script, NormalText;
    if hs == [] {
      ScriptNothing(Normal, A, B);
      RunNothing(A, x, y);
    } else {
      var h, t := hs[0], hs[1..];
      ScriptCons(Normal, h, t, A, B);
      assert hs == [h] + t;
      NormalPatches(t, h.b, h.d, A, B);
      assert |A[x..h.a - 1]| == |B[y..h.c - 1]|;
      RunHunk(h, A, B, Script(Normal, t, A, B), x, y);
      NewFile(h, x, y, A, B);
    }
  }

  lemma RunNothing(A: seq<string>, x: nat, y: nat)
    requires x <= |A|
    ensures Run([], A, x, y) == Some(A[x..])
  {
  }

  // ---------------------------------------------------------------- the hunks that a script names

  /** The hunks that the command lines announce, by their numbers on both sides, with the letter that goes with
      them. */
  function HunksIn(script: seq<string>): Option<seq<Hunk>>
    decreases |script|
  {
    if script == [] then Some([])
    else
      var p := Parse(script[0]);
      if p.None? then None
      else
        var h := HunkOf(p.value);
        if p.value.2 != Letter(h) || h.Empty() || h.a > h.b + 1 || h.c > h.d + 1 then None
        else
          var gone, sep, added := h.b - h.a + 1, (if p.value.2 == 'c' then 1 else 0), h.d - h.c + 1;
          if |script| < 1 + gone + sep + added then None
          else
            var r := HunksIn(Cut(script, gone, sep, added).rest);
            if r.None? then r else Some([h] + r.value)
  }

  lemma {:induction false} HunkNamed(h: Hunk, A: seq<string>, B: seq<string>, rest: seq<string>)
    requires Fits(h, |A|, |B|) && !h.Empty()
    ensures var r := HunksIn(rest);
      HunksIn(NormalText(h, A, B) + rest) == if r.None? then r else Some([h] + r.value)
  {
    hide Parse, NormalText, RangeText, Prefixed, Letter, HunksIn;
    var line := RangeText(h.a, h.b) + [Letter(h)] + RangeText(h.c, h.d);
    var minus, plus := Prefixed("< ", Sub(A, h.a, h.b)), Prefixed("> ", Sub(B, h.c, h.d));
    NormalParts(h, A, B, rest);
    ParseHunk(h);
    Letters(h);
    NamedStep(h, line, minus, if Letter(h) == 'c' then ["---"] else [], plus, rest);
  }

  lemma NamedStep(h: Hunk, line: string, minus: seq<string>, sep: seq<string>, plus: seq<string>, rest: seq<string>)
    requires 1 <= h.a <= h.b + 1 && 1 <= h.c <= h.d + 1 && !h.Empty()
    requires Parse(line)
          == Some((if h.a > h.b then h.b else h.a, h.b, Letter(h), if h.c > h.d then h.d else h.c, h.d))
    requires |minus| == h.b - h.a + 1 && |plus| == h.d - h.c + 1 && |sep| == if Letter(h) == 'c' then 1 else 0
    ensures var r := HunksIn(rest);
      HunksIn([line] + (minus + (sep + (plus + rest)))) == if r.None? then r else Some([h] + r.value)
  {
    hide Parse, Letter, Cut, HunksIn;
    Sequences.Head(line, minus + (sep + (plus + rest)));
    CutParts(line, minus, sep, plus, rest);
    NamedBy([line] + (minus + (sep + (plus + rest))), h);
  }

  lemma NamedBy(script: seq<string>, h: Hunk)
    requires 1 <= h.a <= h.b + 1 && 1 <= h.c <= h.d + 1 && !h.Empty() && script != []
    requires Parse(script[0])
          == Some((if h.a > h.b then h.b else h.a, h.b, Letter(h), if h.c > h.d then h.d else h.c, h.d))
    requires |script| >= 1 + (h.b - h.a + 1) + (if Letter(h) == 'c' then 1 else 0) + (h.d - h.c + 1)
    ensures var r := HunksIn(Cut(script, h.b - h.a + 1, if Letter(h) == 'c' then 1 else 0, h.d - h.c + 1).rest);
      HunksIn(script) == if r.None? then r else Some([h] + r.value)
  {
    hide Parse, Letter, Cut;
    Letters(h);
  }

  /** The default output names the hunks it shows, all four numbers of each. */
  lemma {:induction false} NormalNames(hs: seq<Hunk>, x: nat, y: nat, A: seq<string>, B: seq<string>)
    requires x <= |A| && y <= |B| && Covers(hs, x, y, A, B)
    requires AllFit(hs, |A|, |B|)
    ensures HunksIn(Script(Normal, hs, A, B)) == Some(hs)
  {
    hide HunksIn, Script, NormalText;
    if hs == [] {
      ScriptNothing(Normal, A, B);
      NothingNamed();
    } else {
      var h, t := hs[0], hs[1..];
      ScriptCons(Normal, h, t, A, B);
      assert hs == [h] + t;
      NormalNames(t, h.b, h.d, A, B);
      HunkNamed(h, A, B, Script(Normal, t, A, B));
    }
  }

  lemma NothingNamed()
    ensures HunksIn([]) == Some([])
  {
  }
}
