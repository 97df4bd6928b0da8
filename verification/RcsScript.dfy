/** A reader of RCS scripts (diff -n): every line number refers to the original file, and added text is
    counted, so it may hold anything. */
module RcsScript {
  import opened Decimal
  import opened Hunks
  import opened Scripts
  import opened Wrappers
  import Sequences

  /** "<letter><first number> <second number>" */
  function Parse(line: string): Option<(char, nat, nat)> {
    if line == "" then None
    else
      var s := line[1..];
      var k := DigitCount(s);
      if k == 0 || k == |s| || s[k] != ' ' then None
      else
        var t := s[k + 1..];
        var l := DigitCount(t);
        if l == 0 || l < |t| then None
        else Some((line[0], Number(s[..k]), Number(t)))
  }

  function Prepend(p: seq<string>, r: Option<seq<string>>): Option<seq<string>> {
    if r.None? then r else Some(p + r.value)
  }

  /** The new file from position pos of the original on. */
  function Run(script: seq<string>, A: seq<string>, pos: nat): Option<seq<string>>
    requires pos <= |A|
    decreases |script|
  {
    if script == [] then Some(A[pos..])
    else
      var p := Parse(script[0]);
      if p.None? then None
      else
        var n, count := p.value.1, p.value.2;
        if p.value.0 == 'd' && pos < n && n - 1 + count <= |A| then
          Prepend(A[pos..n - 1], Run(script[1..], A, n - 1 + count))
        else if p.value.0 == 'a' && pos <= n <= |A| && count < |script| then
          Prepend(A[pos..n] + script[1..count + 1], Run(script[count + 1..], A, n))
        else None
  }

  lemma {:induction false} ParseLine(c: char, n: nat, count: nat)
    ensures Parse([c] + Dec(n) + " " + Dec(count)) == Some((c, n, count))
  {
    var line := [c] + Dec(n) + " " + Dec(count);
    assert line[1..] == Dec(n) + (" " + Dec(count));
    ReadDec(n, " " + Dec(count));
    ReadDec(count, "");
    var s := line[1..];
    assert s[|Dec(n)| + 1..] == Dec(count) == Dec(count) + "";
    assert Dec(count)[..|Dec(count)|] == Dec(count);
  }

  lemma {:induction false} RunDelete(n: nat, count: nat, rest: seq<string>, A: seq<string>, pos: nat)
    requires pos < n && n - 1 + count <= |A|
    ensures Run(["d" + Dec(n) + " " + Dec(count)] + rest, A, pos) == Prepend(A[pos..n - 1], Run(rest, A, n - 1 + count))
  {
    hide Parse, Dec;
    ParseLine('d', n, count);
    Sequences.Head("d" + Dec(n) + " " + Dec(count), rest);
  }

  lemma {:induction false} RunAdd(n: nat, text: seq<string>, rest: seq<string>, A: seq<string>, pos: nat)
    requires pos <= n <= |A|
    ensures Run(["a" + Dec(n) + " " + Dec(|text|)] + text + rest, A, pos) == Prepend(A[pos..n] + text, Run(rest, A, n))
  {
    hide Parse, Dec;
    var add := "a" + Dec(n) + " " + Dec(|text|);
    ParseLine('a', n, |text|);
    Sequences.Assoc([add], text, rest);
    Sequences.Head(add, text + rest);
    Sequences.Middle([add], text, rest, 1, |text| + 1);
  }

  /** One hunk copies the lines before it and puts lines c..d of B in the place of a..b. */
  lemma {:induction false} RunHunk(h: Hunk, B: seq<string>, rest: seq<string>, A: seq<string>, pos: nat)
    requires pos < h.a <= h.b + 1 <= |A| + 1 && 1 <= h.c <= h.d + 1 <= |B| + 1 && !h.Empty()
    ensures Run(RcsText(h, B) + rest, A, pos) == Prepend(A[pos..h.a - 1] + B[h.c - 1..h.d], Run(rest, A, h.b))
  {
    hide Run, RcsText, Dec, Prepend;
    var text, more := Sub(B, h.c, h.d), Run(rest, A, h.b);
    var add := ["a" + Dec(h.b) + " " + Dec(|text|)];
    var del := ["d" + Dec(h.a) + " " + Dec(h.b - h.a + 1)];
    RcsParts(h, B, rest);
    if h.a > h.b {
      RunAdd(h.b, text, rest, A, pos);
    } else if h.c > h.d {
      RunDelete(h.a, h.b - h.a + 1, rest, A, pos);
      assert text == [];
      Sequences.Whole(A[pos..h.a - 1]);
    } else {
      RunDelete(h.a, h.b - h.a + 1, add + text + rest, A, pos);
      RunAdd(h.b, text, rest, A, h.b);
      assert A[h.b..h.b] == [];
      Sequences.Whole(text);
      PrependTwice(A[pos..h.a - 1], text, more);
    }
  }

  /** The text of a hunk in the parts that the reader takes. */
  lemma RcsParts(h: Hunk, B: seq<string>, rest: seq<string>)
    requires 1 <= h.a <= h.b + 1 && 1 <= h.c <= h.d + 1 <= |B| + 1 && !h.Empty()
    ensures var text := Sub(B, h.c, h.d);
      var add, del := ["a" + Dec(h.b) + " " + Dec(|text|)], ["d" + Dec(h.a) + " " + Dec(h.b - h.a + 1)];
      RcsText(h, B) + rest == if h.a > h.b then add + text + rest
                              else if h.c > h.d then del + rest else del + (add + text + rest)
  {
    hide Dec;
    var text := Sub(B, h.c, h.d);
    var add, del := ["a" + Dec(h.b) + " " + Dec(|text|)], ["d" + Dec(h.a) + " " + Dec(h.b - h.a + 1)];
    Sequences.Whole(add);
    Sequences.Whole(del);
    Sequences.AssocFour(del, add, text, rest);
    Sequences.AssocFour([], add, text, rest);
  }

  lemma PrependTwice(p: seq<string>, q: seq<string>, r: Option<seq<string>>)
    ensures Prepend(p, Prepend(q, r)) == Prepend(p + q, r)
  {
    if r.Some? {
      Sequences.Assoc(p, q, r.value);
    }
  }

  /** The script of hunks that cover the files rebuilds B from A. */
  lemma {:induction false} RcsPatches(hs: seq<Hunk>, x: nat, y: nat, A: seq<string>, B: seq<string>)
    requires x <= |A| && y <= |B| && Covers(hs, x, y, A, B)
    requires AllFit(hs, |A|, |B|)
    ensures Run(Script(Rcs, hs, A, B), A, x) == Some(B[y..])
  {
    hide Run, Script, RcsText;
    if hs == [] {
      ScriptNothing(Rcs, A, B);
      RunNothing(A, x);
    } else {
      var h, t := hs[0], hs[1..];
      ScriptCons(Rcs, h, t, A, B);
      assert hs == [h] + t;
      RcsPatches(t, h.b, h.d, A, B);
      RunHunk(h, B, Script(Rcs, t, A, B), A, x);
      NewFile(h, x, y, A, B);
    }
  }

  lemma RunNothing(A: seq<string>, x: nat)
    requires x <= |A|
    ensures Run([], A, x) == Some(A[x..])
  {
  }

  // ---------------------------------------------------------------- the hunks that a script names

  function Cons(e: Edit, r: Option<seq<Edit>>): Option<seq<Edit>> {
    if r.None? then r else Some([e] + r.value)
  }

  /** The edits of a script: an addition right behind a deletion belongs to it. */
  function Edits(script: seq<string>): Option<seq<Edit>>
    decreases |script|
  {
    if script == [] then Some([])
    else
      var p := Parse(script[0]);
      if p.None? || p.value.2 == 0 then None
      else
        var n, count := p.value.1, p.value.2;
        if p.value.0 == 'a' then
          if |script| <= count then None else Cons(Edit(n + 1, n, count), Edits(script[count + 1..]))
        else if p.value.0 == 'd' then
          var added := if |script| > 1 then AddedAt(script[1], n - 1 + count) else 0;
          if added == 0 then Cons(Edit(n, n - 1 + count, 0), Edits(script[1..]))
          else if |script| <= 1 + added then None
          else Cons(Edit(n, n - 1 + count, added), Edits(script[1..][added + 1..]))
        else None
  }

  /** How many lines the command adds behind line n. */
  function AddedAt(line: string, n: int): nat {
    var p := Parse(line);
    if p.Some? && p.value.0 == 'a' && p.value.1 == n then p.value.2 else 0
  }

  /** What follows is nothing, or starts with something else than an addition behind line n. */
  ghost predicate NoneAdded(script: seq<string>, n: int) {
    script == [] || AddedAt(script[0], n) == 0
  }

  /** A hunk's text names exactly that hunk. */
  lemma {:induction false} EditsHunk(h: Hunk, B: seq<string>, rest: seq<string>)
    requires 1 <= h.a <= h.b + 1 && 1 <= h.c <= h.d + 1 <= |B| + 1 && !h.Empty() && NoneAdded(rest, h.b)
    ensures Edits(RcsText(h, B) + rest) == Cons(Edit(h.a, h.b, h.d - h.c + 1), Edits(rest))
  {
    hide RcsText, Dec, Edits, NoneAdded;
    var text := Sub(B, h.c, h.d);
    RcsParts(h, B, rest);
    if h.a > h.b {
      AddNamed(h.b, text, rest);
    } else if h.c > h.d {
      DeleteNamed(h.a, h.b - h.a + 1, rest);
    } else {
      ChangeNamed(h.a, h.b - h.a + 1, text, rest);
    }
  }

  lemma AddNamed(n: nat, text: seq<string>, rest: seq<string>)
    requires text != []
    ensures Edits(["a" + Dec(n) + " " + Dec(|text|)] + text + rest) == Cons(Edit(n + 1, n, |text|), Edits(rest))
  {
    hide Parse, Dec, Cons;
    var add := "a" + Dec(n) + " " + Dec(|text|);
    ParseLine('a', n, |text|);
    Sequences.Assoc([add], text, rest);
    Sequences.Head(add, text + rest);
    Sequences.Middle([add], text, rest, 1, |text| + 1);
  }

  lemma DeleteNamed(n: nat, count: nat, rest: seq<string>)
    requires n > 0 && count > 0 && NoneAdded(rest, n - 1 + count)
    ensures Edits(["d" + Dec(n) + " " + Dec(count)] + rest) == Cons(Edit(n, n - 1 + count, 0), Edits(rest))
  {
    hide Parse, Dec, Cons, AddedAt;
    ParseLine('d', n, count);
    Sequences.Head("d" + Dec(n) + " " + Dec(count), rest);
    assert rest != [] ==> (["d" + Dec(n) + " " + Dec(count)] + rest)[1] == rest[0];
  }

  lemma ChangeNamed(n: nat, count: nat, text: seq<string>, rest: seq<string>)
    requires n > 0 && count > 0 && text != []
    ensures Edits(["d" + Dec(n) + " " + Dec(count)] + (["a" + Dec(n - 1 + count) + " " + Dec(|text|)] + text + rest))
         == Cons(Edit(n, n - 1 + count, |text|), Edits(rest))
  {
    hide Parse, Dec, Cons, AddedAt, Edits;
    var del, add := "d" + Dec(n) + " " + Dec(count), "a" + Dec(n - 1 + count) + " " + Dec(|text|);
    ParseLine('d', n, count);
    AddParsed(n - 1 + count, |text|);
    Sequences.Assoc([add], text, rest);
    Sequences.Head(del, [add] + (text + rest));
    Sequences.Middle([add], text, rest, 1, |text| + 1);
    ChangeStep([del] + ([add] + (text + rest)), n, count, |text|);
  }

  lemma ChangeStep(script: seq<string>, n: nat, count: nat, added: nat)
    requires |script| > 1 + added && n > 0 && count > 0 && added > 0
    requires Parse(script[0]) == Some(('d', n, count)) && AddedAt(script[1], n - 1 + count) == added
    ensures Edits(script) == Cons(Edit(n, n - 1 + count, added), Edits(script[1..][added + 1..]))
  {
    hide Parse, Cons, AddedAt;
  }

  lemma AddParsed(n: nat, count: nat)
    ensures AddedAt("a" + Dec(n) + " " + Dec(count), n) == count
  {
    hide Parse, Dec;
    ParseLine('a', n, count);
  }

  /** The script of hunks that are apart names them all. */
  lemma {:induction false} RcsNames(hs: seq<Hunk>, x: nat, y: nat, A: seq<string>, B: seq<string>)
    requires x <= |A| && y <= |B| && Covers(hs, x, y, A, B)
    requires AllFit(hs, |A|, |B|) && Apart(hs)
    ensures Edits(Script(Rcs, hs, A, B)) == Some(EditsOf(hs))
  {
    hide Edits, Script, RcsText, EditsOf;
    EditsFirst(hs);
    if hs == [] {
      ScriptNothing(Rcs, A, B);
      EditsNothing();
    } else {
      var h, t := hs[0], hs[1..];
      assert Apart(t);
      assert hs == [h] + t;
      ScriptCons(Rcs, h, t, A, B);
      RcsNames(t, h.b, h.d, A, B);
      if t == [] {
        ScriptNothing(Rcs, A, B);
      } else {
        assert hs[0].b + 1 < hs[1].a;
        ScriptCons(Rcs, t[0], t[1..], A, B);
        assert t == [t[0]] + t[1..];
        FirstLine(t[0], B, Script(Rcs, t[1..], A, B), h.b);
      }
      EditsHunk(h, B, Script(Rcs, t, A, B));
    }
  }

  lemma EditsFirst(hs: seq<Hunk>)
    ensures EditsOf([]) == []
    ensures hs != [] ==>
      EditsOf(hs) == [Edit(hs[0].a, hs[0].b, hs[0].d - hs[0].c + 1)] + EditsOf(hs[1..])
  {
  }

  lemma EditsNothing()
    ensures Edits([]) == Some([])
  {
  }

  /** The first line of a later hunk adds nothing behind line n. */
  lemma FirstLine(h: Hunk, B: seq<string>, rest: seq<string>, n: int)
    requires 1 <= h.a <= h.b + 1 && 1 <= h.c <= h.d + 1 <= |B| + 1 && !h.Empty() && n + 1 < h.a
    ensures NoneAdded(RcsText(h, B) + rest, n)
  {
    hide Parse, RcsText, Dec;
    var text := Sub(B, h.c, h.d);
    RcsParts(h, B, rest);
    ParseLine('a', h.b, |text|);
    ParseLine('d', h.a, h.b - h.a + 1);
  }

  /** The hunks of a whole script. */
  function HunksIn(script: seq<string>): Option<seq<Hunk>> {
    var r := Edits(script);
    if r.None? then None else Some(Located(r.value, 0))
  }

  lemma RcsHunks(hs: seq<Hunk>, A: seq<string>, B: seq<string>)
    requires Covers(hs, 0, 0, A, B) && AllFit(hs, |A|, |B|) && Apart(hs)
    ensures HunksIn(Script(Rcs, hs, A, B)) == Some(hs)
  {
    hide Script, Covers, EditsOf;
    RcsNames(hs, 0, 0, A, B);
    LocatedHunks(hs, 0, 0, A, B);
  }
}
