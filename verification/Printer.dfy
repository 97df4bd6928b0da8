/** fetch, change, range, uni_range and dump_unified_vec: the hunks as they are printed, character by character. */
module Printer {
  import opened Decimal
  import opened FileText
  import opened Hunks
  import opened Scripts
  import opened Unified
  import Sequences

  /** diff_format, for the formats that are modelled, and diff_context. */
  datatype Mode = Plain(f: Format) | Context(ctx: nat)

  /** Lines printed so far, and the hunks that wait in context_vec. */
  datatype Pending = Pending(out: seq<string>, vec: seq<Hunk>)

  /** One call of change: dump the group first when the new hunk is far from it. */
  ghost function UniStep(s: Pending, h: Hunk, ctx: nat, A: seq<string>, B: seq<string>): Pending {
    if s.vec != [] && Far(s.vec[|s.vec| - 1], h, ctx) then
      Pending(s.out + if Group(s.vec, |A|, |B|) then Dump(s.vec, ctx, A, B) else [], [h])
    else Pending(s.out, s.vec + [h])
  }

  /** The state after the hunks hs. */
  ghost function UniState(hs: seq<Hunk>, ctx: nat, A: seq<string>, B: seq<string>): Pending {
    if hs == [] then Pending([], [])
    else UniStep(UniState(hs[..|hs| - 1], ctx, A, B), hs[|hs| - 1], ctx, A, B)
  }

  /** What waits are the last hunks, and they make a group. */
  ghost predicate UniOk(s: Pending, hs: seq<Hunk>, n: int, m: int) {
    && (hs != [] ==> s.vec != [])
    && |s.vec| <= |hs| && s.vec == hs[|hs| - |s.vec|..]
    && (s.vec != [] ==> Group(s.vec, n, m))
  }

  lemma {:induction false} UniStateOk(hs: seq<Hunk>, ctx: nat, A: seq<string>, B: seq<string>)
    requires Ordered(hs, 0, 0, |A|, |B|)
    ensures UniOk(UniState(hs, ctx, A, B), hs, |A|, |B|)
  {
    hide UniOk, UniStep, Ordered;
    if hs == [] {
      UniOkNothing(|A|, |B|);
    } else {
      var init := hs[..|hs| - 1];
      OrderedInit(hs, |A|, |B|);
      UniStateOk(init, ctx, A, B);
      UniStepOk(UniState(init, ctx, A, B), hs, ctx, A, B);
    }
  }

  lemma UniOkNothing(n: int, m: int)
    ensures UniOk(Pending([], []), [], n, m)
  {}

  lemma UniStepOk(s: Pending, hs: seq<Hunk>, ctx: nat, A: seq<string>, B: seq<string>)
    requires hs != [] && Ordered(hs, 0, 0, |A|, |B|)
    requires UniOk(s, hs[..|hs| - 1], |A|, |B|)
    ensures UniOk(UniStep(s, hs[|hs| - 1], ctx, A, B), hs, |A|, |B|)
  {
    hide UniStep, Ordered, UniOk;
    var n := |hs| - 1;
    var i := UniOkParts(s, hs[..n], |A|, |B|);
    UniStepVec(s, hs[n], ctx, A, B);
    SuffixLonger(hs, n, i);
    OrderedSuffix(hs, n, |A|, |B|);
    OrderedSuffix(hs, i, |A|, |B|);
    if UniStep(s, hs[n], ctx, A, B).vec == [hs[n]] {
      UniOkIf(UniStep(s, hs[n], ctx, A, B), hs, n, |A|, |B|);
    } else {
      UniOkIf(UniStep(s, hs[n], ctx, A, B), hs, i, |A|, |B|);
    }
  }

  lemma UniOkParts(s: Pending, hs: seq<Hunk>, n: int, m: int) returns (i: nat)
    requires UniOk(s, hs, n, m)
    ensures i <= |hs| && s.vec == hs[i..]
  {
    i := |hs| - |s.vec|;
  }

  lemma UniOkIf(s: Pending, hs: seq<Hunk>, i: nat, n: int, m: int)
    requires i < |hs| && s.vec == hs[i..] && Ordered(hs[i..], 0, 0, n, m)
    ensures UniOk(s, hs, n, m)
  {
    hide Ordered;
  }

  lemma UniStepVec(s: Pending, h: Hunk, ctx: nat, A: seq<string>, B: seq<string>)
    ensures UniStep(s, h, ctx, A, B).vec == [h] || UniStep(s, h, ctx, A, B).vec == s.vec + [h]
  {
    hide Dump, Far, Group;
  }

  lemma SuffixLonger(hs: seq<Hunk>, n: nat, i: nat)
    requires i <= n && n + 1 == |hs|
    ensures hs[..n][i..] + [hs[n]] == hs[i..] && [hs[n]] == hs[n..]
  {
  }

  lemma OrderedInit(hs: seq<Hunk>, n: int, m: int)
    requires hs != [] && Ordered(hs, 0, 0, n, m)
    ensures Ordered(hs[..|hs| - 1], 0, 0, n, m)
  {
    assert hs == hs[..|hs| - 1] + [hs[|hs| - 1]];
    OrderedParts(hs[..|hs| - 1], [hs[|hs| - 1]], 0, 0, n, m);
  }

  lemma OrderedSuffix(hs: seq<Hunk>, k: nat, n: int, m: int)
    requires k <= |hs| && Ordered(hs, 0, 0, n, m)
    ensures Ordered(hs[k..], 0, 0, n, m)
  {
    assert hs == hs[..k] + hs[k..];
    OrderedParts(hs[..k], hs[k..], 0, 0, n, m);
  }

  lemma UniStateStep(hs: seq<Hunk>, h: Hunk, ctx: nat, A: seq<string>, B: seq<string>)
    requires Ordered(hs + [h], 0, 0, |A|, |B|)
    ensures Ordered(hs, 0, 0, |A|, |B|)
    ensures UniState(hs + [h], ctx, A, B) == UniStep(UniState(hs, ctx, A, B), h, ctx, A, B)
  {
    hide UniStep, Group, Ordered;
    var all := hs + [h];
    OrderedInit(all, |A|, |B|);
    assert all[..|all| - 1] == hs && all[|all| - 1] == h;
  }

  lemma UniStateNothing(ctx: nat, A: seq<string>, B: seq<string>)
    ensures UniState([], ctx, A, B) == Pending([], [])
  {
  }

  /** The whole output is the same however it is split into what is printed and what is to come. */
  lemma {:induction false} UniStateRest(hs: seq<Hunk>, more: seq<Hunk>, ctx: nat, A: seq<string>, B: seq<string>)
    requires Ordered(hs + more, 0, 0, |A|, |B|)
    ensures Ordered(hs, 0, 0, |A|, |B|) && Ordered([] + (hs + more), 0, 0, |A|, |B|)
    ensures Ordered(UniState(hs, ctx, A, B).vec + more, 0, 0, |A|, |B|)
    ensures var s := UniState(hs, ctx, A, B); s.out + Rest(s.vec, more, ctx, A, B) == Rest([], hs + more, ctx, A, B)
    decreases |hs|
  {
    hide Dump, Far, Ordered, Group, UniState, UniStep, Rest;
    OrderedParts(hs, more, 0, 0, |A|, |B|);
    assert [] + (hs + more) == hs + more;
    if hs == [] {
      UniStateNothing(ctx, A, B);
      assert hs + more == more;
    } else {
      var init, h := hs[..|hs| - 1], hs[|hs| - 1];
      assert hs == init + [h];
      assert init + ([h] + more) == hs + more;
      UniStateRest(init, [h] + more, ctx, A, B);
      UniStateStep(init, h, ctx, A, B);
      RestStep(UniState(init, ctx, A, B), h, more, ctx, A, B);
    }
  }

  lemma RestStep(s: Pending, h: Hunk, more: seq<Hunk>, ctx: nat, A: seq<string>, B: seq<string>)
    requires Ordered(s.vec + ([h] + more), 0, 0, |A|, |B|)
    ensures s.vec != [] ==> Group(s.vec, |A|, |B|)
    ensures var t := UniStep(s, h, ctx, A, B);
      && Ordered(t.vec + more, 0, 0, |A|, |B|)
      && s.out + Rest(s.vec, [h] + more, ctx, A, B) == t.out + Rest(t.vec, more, ctx, A, B)
  {
    hide Dump, Far;
    OrderedParts(s.vec, [h] + more, 0, 0, |A|, |B|);
    assert ([h] + more)[1..] == more;
    assert (s.vec + [h]) + more == s.vec + ([h] + more);
    if s.vec != [] && Far(s.vec[|s.vec| - 1], h, ctx) {
      var r := Rest([h], more, ctx, A, B);
      assert (s.out + Dump(s.vec, ctx, A, B)) + r == s.out + (Dump(s.vec, ctx, A, B) + r);
    }
  }

  /** The file d is open as f, and ix holds the offsets that check recorded for it. */
  ghost predicate Indexed(f: Stream, ix: array<int>, d: Doc)
    reads ix
  {
    && d.Valid() && d.nl && f.text == d.Text()
    && |d.lines| < ix.Length
    && forall i :: 0 <= i <= |d.lines| ==> ix[i] == d.Start(i)
  }

  const NONE: char := '\0'

  lemma LineChars(d: Doc, i: nat, k: nat)
    requires d.Valid() && d.nl && i < |d.lines| && k <= |d.lines[i]|
    ensures d.Start(i + 1) == d.Start(i) + |d.lines[i]| + 1
    ensures d.Start(i) + k < |d.Text()|
    ensures d.Text()[d.Start(i) + k] == if k < |d.lines[i]| then d.lines[i][k] else NL
    ensures k < |d.lines[i]| ==> d.lines[i][k] != NL
  {
    d.Read(i, k);
  }

  class Report {
    const mode: Mode
    const f1: Stream
    const f2: Stream
    const ixold: array<int>
    const ixnew: array<int>
    const len0: nat
    const len1: nat
    ghost const d1: Doc
    ghost const d2: Doc
    var out: seq<string>        // completed output lines
    var cur: string             // the line being printed
    var edoffset: nat
    var anychange: bool
    var vec: seq<Hunk>          // context_vec_start .. context_vec_ptr
    ghost var hunks: seq<Hunk>  // the hunks printed or collected so far

    ghost predicate Ready()
      reads this, ixold, ixnew
    {
      Indexed(f1, ixold, d1) && Indexed(f2, ixnew, d2) && len0 == |d1.lines| && len1 == |d2.lines|
    }

    /** The output so far is what the format prescribes for the hunks so far. */
    ghost predicate Valid()
      reads this, ixold, ixnew
    {
      && Ready() && cur == ""
      && AllFit(hunks, |d1.lines|, |d2.lines|)
      && (anychange <==> hunks != [])
      && match mode
         case Plain(f) => out == Script(f, hunks, d1.lines, d2.lines) && vec == []
         case Context(ctx) =>
           && Ordered(hunks, 0, 0, |d1.lines|, |d2.lines|) && NoneEmpty(hunks)
           && Pending(out, vec) == UniState(hunks, ctx, d1.lines, d2.lines)
    }

    constructor (mode: Mode, f1: Stream, f2: Stream, ixold: array<int>, ixnew: array<int>, len0: nat, len1: nat,
                 ghost d1: Doc, ghost d2: Doc)
      requires Indexed(f1, ixold, d1) && Indexed(f2, ixnew, d2) && len0 == |d1.lines| && len1 == |d2.lines|
      ensures Valid() && hunks == []
      ensures this.mode == mode && this.f1 == f1 && this.f2 == f2 && this.ixold == ixold && this.ixnew == ixnew
      ensures this.len0 == len0 && this.len1 == len1 && this.d1 == d1 && this.d2 == d2
    {
      this.mode, this.f1, this.f2, this.ixold, this.ixnew, this.d1, this.d2 := mode, f1, f2, ixold, ixnew, d1, d2;
      this.len0, this.len1 := len0, len1;
      out, cur, edoffset, anychange, vec, hunks := [], "", 0, false, [], [];
    }

    lemma Lengths()
      requires Valid()
      ensures len0 == |d1.lines| && len1 == |d2.lines|
    {
    }

    /** printf("%c") */
    method PutChar(c: char)
      modifies this`out, this`cur
      ensures c == NL ==> out == old(out) + [old(cur)] && cur == ""
      ensures c != NL ==> out == old(out) && cur == old(cur) + [c]
    {
      if c == NL {
        out := out + [cur];
        cur := "";
      } else {
        cur := cur + [c];
      }
    }

    /** printf of text that ends the current line. */
    method PutLine(s: string)
      modifies this`out, this`cur
      ensures out == old(out) + [if old(cur) == "" then s else old(cur) + s] && cur == ""
    {
      assert "" + s == s;
      out := out + [cur + s];
      cur := "";
    }

    method Range(a: int, b: int)
      requires 1 <= a && 0 <= b
      modifies this`cur
      ensures cur == old(cur) + RangeText(a, b) && cur != ""
      ensures old(cur) == "" ==> cur == RangeText(a, b)
    {
      assert "" + RangeText(a, b) == RangeText(a, b);
      cur := cur + Dec(if a > b then b else a);
      if a < b {
        cur := cur + "," + Dec(b);
      }
    }

    function Lead(ch: char): string {
      if ch == NONE then "" else if mode.Context? then [ch] else [ch, ' ']
    }

    /** The inner loop of fetch: one line, character by character. A lone dot is doubled for ed. */
    method FetchLine(lb: Stream, ix: array<int>, i: nat, ch: char, ghost d: Doc) returns (dot: bool)
      requires Indexed(lb, ix, d) && 1 <= i <= |d.lines| && cur == "" && ch != NL
      requires mode == Plain(Ed) ==> ch == NONE
      modifies this`out, this`cur, lb
      ensures dot <==> mode == Plain(Ed) && d.lines[i - 1] == "."
      ensures cur == "" && out == old(out) + [if dot then ".." else Lead(ch) + d.lines[i - 1]]
    {
      hide Doc.Start, Doc.Text, Doc.Valid;
      ghost var line := d.lines[i - 1];
      lb.Seek(ix[i - 1]);
      LineChars(d, i - 1, 0);
      var nc := ix[i] - ix[i - 1];
      if ch != NONE {
        PutChar(ch);
        if !mode.Context? {
          PutChar(' ');
        }
      }
      var j, lastc := 0, NONE;
      while j < nc
        invariant 0 <= j <= nc == |line| + 1
        invariant lb.pos == d.Start(i - 1) + j
        invariant if j <= |line| then cur == Lead(ch) + line[..j] && out == old(out)
                  else cur == "" && out == old(out) + [Lead(ch) + line]
        invariant 0 < j <= |line| ==> lastc == line[j - 1]
        invariant j > 1 && mode == Plain(Ed) ==> line != "."
      {
        LineChars(d, i - 1, j);
        var c := lb.Getc();
        assert j == |line| ==> line[..j] == line;
        if mode == Plain(Ed) && j == 1 && c == NL as int && lastc == '.' {
          assert line == "." && cur == "." && "." + "." == "..";
          PutLine(".");
          return true;
        }
        PutChar(c as char);
        lastc := c as char;
        j := j + 1;
      }
      dot := false;
    }

    /** fetch: lines a..b of a file behind the mark ch; for ed it stops after a lone dot and says where. */
    method Fetch(ix: array<int>, a: int, b: int, lb: Stream, ch: char, ghost d: Doc)
      requires Indexed(lb, ix, d) && 1 <= a <= b + 1 <= |d.lines| + 1 && cur == "" && ch != NL
      requires mode == Plain(Ed) ==> ch == NONE
      modifies this`out, this`cur, this`edoffset, lb
      ensures cur == ""
      ensures var t := if mode == Plain(Ed) then LoneDot(d.lines, a, b) else 0;
              if t == 0 then edoffset == 0 && out == old(out) + Prefixed(Lead(ch), Sub(d.lines, a, b))
              else edoffset == t - a + 1 && out == old(out) + Sub(d.lines, a, t - 1) + [".."]
    {
      hide Prefixed, LoneDot, Sub, Indexed, Fetched;
      edoffset := 0;
      if a > b {
        FetchNone(d.lines, a, b, Lead(ch));
        return;
      }
      ghost var base := out;
      var i := a;
      FetchFirst(base, d.lines, a, Lead(ch));
      while i <= b
        invariant a <= i <= b + 1 && cur == "" && edoffset == 0
        invariant Fetched(base, out, d.lines, a, i - 1, Lead(ch))
        invariant mode == Plain(Ed) ==> LoneDot(d.lines, a, b) == LoneDot(d.lines, i, b)
      {
        ghost var before := out;
        var dot := FetchLine(lb, ix, i, ch, d);
        FetchStep(base, before, d.lines, a, i, Lead(ch));
        DotStep(d.lines, i, b);
        if dot {
          FetchedDot(base, before, d.lines, a, i - 1);
          edoffset := i - a + 1;
          return;
        }
        i := i + 1;
      }
      FetchedAll(base, out, d.lines, a, b, Lead(ch));
      FetchNone(d.lines, b + 1, b, Lead(ch));
    }

    /** The command line of change and the text that follows it, up to a lone dot. */
    method EmitEdCommand(a: int, b: int, c: int, d: int)
      requires mode == Plain(Ed) && Ready() && cur == ""
      requires 1 <= a <= b + 1 && 1 <= c <= d + 1 <= |d2.lines| + 1
      modifies this`out, this`cur, this`edoffset, f2
      ensures cur == ""
      ensures var t, command := LoneDot(d2.lines, c, d), [RangeText(a, b) + [Letter(Hunk(a, b, c, d))]];
              if t == 0 then edoffset == 0 && out == old(out) + command + Prefixed("", Sub(d2.lines, c, d))
              else edoffset == t - c + 1 && out == old(out) + command + Sub(d2.lines, c, t - 1) + [".."]
    {
      hide RangeText, Prefixed, Sub, LoneDot, Doc.Valid, Doc.Text, Doc.Start;
      Range(a, b);
      PutLine([if a > b then 'a' else if c > d then 'd' else 'c']);
      Fetch(ixnew, c, d, f2, NONE, d2);
    }

    /** The end of the text behind a doubled dot, and the command that takes one dot away again. */
    method EmitSubstitute(last: nat)
      requires cur == ""
      modifies this`out, this`cur
      ensures cur == "" && out == old(out) + ["."] + [Dec(last) + "s/.//"]
    {
      PutLine(".");
      PutLine(Dec(last) + "s/.//");
    }

    /** change for -e, with its restart after every line that had to be escaped. */
    method EmitEd(h: Hunk)
      requires mode == Plain(Ed) && Ready() && cur == "" && Fits(h, |d1.lines|, |d2.lines|)
      modifies this`out, this`cur, this`edoffset, this`anychange, f2
      ensures cur == "" && out == old(out) + EdText(h, d2.lines)
      ensures anychange == (old(anychange) || !h.Empty())
    {
      hide Owed, EdText, RangeText, Letter, Prefixed, Sub, LoneDot, Indexed;
      var a, b, c, d := h.a, h.b, h.c, h.d;
      ghost var total := out + EdText(h, d2.lines);
      EdStart(total, out, h, d2.lines);
      while true
        invariant Ready() && cur == "" && edoffset >= 0
        invariant 1 <= a <= b + 1 && 1 <= c <= d + 1 <= |d2.lines| + 1
        invariant Owed(total, out, Hunk(a, b, c, d), d2.lines)
        invariant anychange || (anychange == old(anychange) && a == h.a && b == h.b && c == h.c && d == h.d)
        invariant anychange ==> old(anychange) || !h.Empty()
        decreases d - c
      {
        ghost var rest, before := Hunk(a, b, c, d), out;
        if a > b && c > d {
          EdNothing(total, out, rest, d2.lines);
          return;
        }
        anychange := true;
        EmitEdCommand(a, b, c, d);
        if edoffset != 0 {
          EmitSubstitute(a + edoffset - 1);
          EdResume(total, before, out, rest, LoneDot(d2.lines, c, d), d2.lines);
          b := a + edoffset - 1;
          a := b + 1;
          c := c + edoffset;
          continue;
        }
        if c <= d {
          PutLine(".");
        }
        EdDone(total, before, out, rest, d2.lines);
        return;
      }
    }

    /** change for -n. */
    method EmitRcs(h: Hunk)
      requires mode == Plain(Rcs) && Ready() && cur == "" && Fits(h, |d1.lines|, |d2.lines|)
      modifies this`out, this`cur, this`edoffset, this`anychange, f2
      ensures cur == "" && out == old(out) + RcsText(h, d2.lines)
      ensures anychange == (old(anychange) || !h.Empty())
    {
      hide RcsText, Prefixed, Sub, Doc.Valid, Doc.Text, Doc.Start;
      if h.a > h.b && h.c > h.d {
        RcsIs(h, d2.lines);
        return;
      }
      anychange := true;
      if h.a > h.b {
        PutLine("a" + Dec(h.b) + " " + Dec(h.d - h.c + 1));
      } else {
        PutLine("d" + Dec(h.a) + " " + Dec(h.b - h.a + 1));
        if !(h.c > h.d) {
          PutLine("a" + Dec(h.b) + " " + Dec(h.d - h.c + 1));
        }
      }
      Fetch(ixnew, h.c, h.d, f2, NONE, d2);
      RcsIs(h, d2.lines);
    }

    /** change for the default format. */
    method EmitNormal(h: Hunk)
      requires mode == Plain(Normal) && Ready() && cur == "" && Fits(h, |d1.lines|, |d2.lines|)
      modifies this`out, this`cur, this`edoffset, this`anychange, f1, f2
      ensures cur == "" && out == old(out) + NormalText(h, d1.lines, d2.lines)
      ensures anychange == (old(anychange) || !h.Empty())
    {
      hide NormalText, RangeText, Doc.Valid, Doc.Text, Doc.Start, Prefixed;
      if h.a > h.b && h.c > h.d {
        NormalIs(h, d1.lines, d2.lines);
        return;
      }
      ghost var before := out;
      anychange := true;
      NormalCommand(h);
      ghost var command := out[|before|..];
      Fetch(ixold, h.a, h.b, f1, '<', d1);
      if h.a <= h.b && h.c <= h.d {
        PutLine("---");
      }
      Fetch(ixnew, h.c, h.d, f2, '>', d2);
      NormalIs(h, d1.lines, d2.lines);
      RegroupNormal(before, command, Prefixed("< ", Sub(d1.lines, h.a, h.b)), Prefixed("> ", Sub(d2.lines, h.c, h.d)));
    }

    /** The command line of the default format. */
    method NormalCommand(h: Hunk)
      requires cur == "" && 1 <= h.a <= h.b + 1 && 1 <= h.c <= h.d + 1
      modifies this`out, this`cur
      ensures cur == ""
      ensures out == old(out)
        + [RangeText(h.a, h.b) + [if h.a > h.b then 'a' else if h.c > h.d then 'd' else 'c'] + RangeText(h.c, h.d)]
    {
      hide RangeText;
      Range(h.a, h.b);
      cur := cur + [if h.a > h.b then 'a' else if h.c > h.d then 'd' else 'c'];
      Range(h.c, h.d);
      PutChar(NL);
    }

    /** fetch with a mark, as the unified format uses it. */
    method FetchMarked(ix: array<int>, a: int, b: int, lb: Stream, ch: char, ghost d: Doc)
      requires mode.Context? && Indexed(lb, ix, d) && 1 <= a <= b + 1 <= |d.lines| + 1
      requires cur == "" && ch != NL && ch != NONE
      modifies this`out, this`cur, this`edoffset, lb
      ensures cur == "" && out == old(out) + Prefixed([ch], Sub(d.lines, a, b))
    {
      Fetch(ix, a, b, lb, ch, d);
    }

    method UniRangeOut(a: int, b: int)
      requires 0 <= a <= b + 1 && 0 <= b
      modifies this`cur
      ensures cur == old(cur) + UniRange(a, b)
    {
      if a < b {
        cur := cur + (Dec(a) + "," + Dec(b - a + 1));
      } else if a == b {
        cur := cur + Dec(b);
      } else {
        cur := cur + (Dec(b) + ",0");
      }
    }

    /** One turn of dump_unified_vec's loop. */
    method DumpPiece(h: Hunk, lowa: int, lowc: int)
      requires mode.Context? && Ready() && cur == ""
      requires 1 <= lowa <= h.a <= h.b + 1 <= |d1.lines| + 1 && 1 <= lowc <= h.c <= h.d + 1 <= |d2.lines| + 1
      requires !h.Empty()
      modifies this`out, this`cur, this`edoffset, f1, f2
      ensures cur == "" && out == old(out) + Piece(h, lowa, lowc, d1.lines, d2.lines)
    {
      hide Prefixed, Piece, Sub, Indexed;
      var ch := if h.a <= h.b && h.c <= h.d then 'c' else if h.a <= h.b then 'd' else 'a';
      PieceAfter(out, h, lowa, lowc, d1.lines, d2.lines);
      if ch == 'c' {
        FetchMarked(ixold, lowa, h.a - 1, f1, ' ', d1);
        FetchMarked(ixold, h.a, h.b, f1, '-', d1);
        FetchMarked(ixnew, h.c, h.d, f2, '+', d2);
      } else if ch == 'd' {
        FetchMarked(ixold, lowa, h.a - 1, f1, ' ', d1);
        FetchMarked(ixold, h.a, h.b, f1, '-', d1);
      } else {
        FetchMarked(ixnew, lowc, h.c - 1, f2, ' ', d2);
        FetchMarked(ixnew, h.c, h.d, f2, '+', d2);
      }
    }

    /** The header line of a group. */
    method DumpHeader(lowa: int, upb: int, lowc: int, upd: int)
      requires cur == "" && 0 <= lowa <= upb + 1 && 0 <= upb && 0 <= lowc <= upd + 1 && 0 <= upd
      modifies this`out, this`cur
      ensures cur == "" && out == old(out) + ["@@ -" + UniRange(lowa, upb) + " +" + UniRange(lowc, upd) + " @@"]
    {
      hide UniRange;
      assert "" + "@@ -" == "@@ -";
      cur := cur + "@@ -";
      UniRangeOut(lowa, upb);
      cur := cur + " +";
      UniRangeOut(lowc, upd);
      cur := cur + " @@";
      PutChar(NL);
    }

    /** dump_unified_vec's loop. */
    method DumpBody(lowa0: int, lowc0: int)
      requires mode.Context? && Ready() && cur == "" && NoneEmpty(vec)
      requires 1 <= lowa0 && 1 <= lowc0 && Ordered(vec, lowa0 - 1, lowc0 - 1, |d1.lines|, |d2.lines|)
      modifies this`out, this`cur, this`edoffset, f1, f2
      ensures cur == "" && out == old(out) + Body(vec, lowa0, lowc0, d1.lines, d2.lines)
    {
      hide Prefixed, Piece, Body, Ordered, Sub, Indexed;
      var lowa, lowc := lowa0, lowc0;
      ghost var A, B := d1.lines, d2.lines;
      ghost var body := Body(vec, lowa, lowc, A, B);
      ghost var done := [];
      assert vec[0..] == vec;
      var k := 0;
      while k < |vec|
        invariant 0 <= k <= |vec| && cur == ""
        invariant 1 <= lowa && 1 <= lowc && Ordered(vec[k..], lowa - 1, lowc - 1, |A|, |B|)
        invariant out == old(out) + done && body == done + Body(vec[k..], lowa, lowc, A, B)
      {
        BodyStep(done, vec, k, lowa, lowc, A, B);
        Sequences.Assoc(old(out), done, Piece(vec[k], lowa, lowc, A, B));
        DumpPiece(vec[k], lowa, lowc);
        done := done + Piece(vec[k], lowa, lowc, A, B);
        lowa := vec[k].b + 1;
        lowc := vec[k].d + 1;
        k := k + 1;
      }
      BodyEnd(vec[k..], lowa, lowc, A, B);
    }

    /** dump_unified_vec: print the group that waits in context_vec and forget it. */
    method DumpUnified()
      requires mode.Context? && Ready() && cur == ""
      requires vec != [] ==> Group(vec, |d1.lines|, |d2.lines|)
      requires NoneEmpty(vec)
      modifies this`out, this`cur, this`edoffset, this`vec, f1, f2
      ensures cur == "" && vec == []
      ensures old(vec) == [] ==> out == old(out)
      ensures old(vec) != [] ==> out == old(out) + Dump(old(vec), mode.ctx, d1.lines, d2.lines)
    {
      hide Prefixed, Piece, UniRange, Body, Ordered, Sub, Indexed;
      if vec == [] {
        return;
      }
      ghost var A, B := d1.lines, d2.lines;
      GroupEnds(vec, mode.ctx, len0, len1);
      var lowa, upb := LowA(vec, mode.ctx), UpB(vec, mode.ctx, len0);
      var lowc, upd := LowC(vec, mode.ctx), UpD(vec, mode.ctx, len1);
      var last := vec[|vec| - 1];
      DumpStart(vec, mode.ctx, A, B);
      DumpHeader(lowa, upb, lowc, upd);
      DumpBody(lowa, lowc);
      FetchMarked(ixnew, last.d + 1, upd, f2, ' ', d2);
      DumpIs(vec, mode.ctx, A, B);
      vec := [];
    }

    /** Dump the waiting group when the next hunk is far from it. */
    method DumpIfFar(h: Hunk)
      requires mode.Context? && Ready() && cur == "" && NoneEmpty(vec)
      requires vec != [] && Group(vec, |d1.lines|, |d2.lines|)
      modifies this`out, this`cur, this`edoffset, this`vec, f1, f2
      ensures cur == ""
      ensures var next := UniStep(Pending(old(out), old(vec)), h, mode.ctx, d1.lines, d2.lines);
              out == next.out && vec + [h] == next.vec
    {
      hide Group, Indexed, Dump, UniStep, NoneEmpty;
      UniStepIs(Pending(out, vec), h, mode.ctx, d1.lines, d2.lines);
      if h.a > vec[|vec| - 1].b + 2 * mode.ctx + 1 && h.c > vec[|vec| - 1].d + 2 * mode.ctx + 1 {
        DumpUnified();
        assert vec + [h] == [h];
      }
    }

    /** change in the unified format: collect the hunk, after dumping the group it is far from. */
    method Collect(h: Hunk)
      requires mode.Context? && Valid() && !h.Empty()
      requires Ordered(hunks + [h], 0, 0, |d1.lines|, |d2.lines|) && Fits(h, |d1.lines|, |d2.lines|)
      modifies this, f1, f2
      ensures Valid() && hunks == old(hunks) + [h]
    {
      hide Ordered, Group, Indexed, Dump, UniState, UniStep, NoneEmpty, AllFit, Fits, Script;
      CollectStep(hunks, h, mode.ctx, d1.lines, d2.lines);
      AllFitAppend(hunks, h, |d1.lines|, |d2.lines|);
      if !anychange {
        anychange := true;
        UniStepFirst(Pending(out, vec), h, mode.ctx, d1.lines, d2.lines);
      } else {
        DumpIfFar(h);
      }
      vec := vec + [h];
      hunks := hunks + [h];
    }

    /** change */
    method Change(h: Hunk)
      requires Valid() && Fits(h, |d1.lines|, |d2.lines|)
      requires mode.Context? && !h.Empty() ==> Ordered(hunks + [h], 0, 0, |d1.lines|, |d2.lines|)
      modifies this, f1, f2
      ensures Valid() && hunks == old(hunks) + NonEmpty(h)
    {
      hide Ordered, Indexed, UniState, Script, EdText, RcsText, NormalText, Fits;
      match mode
      case Context(_) =>
        if h.a > h.b && h.c > h.d {
          return;
        }
        Collect(h);
      case Plain(f) =>
        ScriptAdds(f, hunks, h, d1.lines, d2.lines);
        match f {
          case Ed => EmitEd(h);
          case Rcs => EmitRcs(h);
          case Normal => EmitNormal(h);
        }
        hunks := hunks + NonEmpty(h);
    }

    /** The end of output: the unified format still has a group to dump. */
    method Finish()
      requires Valid()
      modifies this, f1, f2
      ensures AllFit(hunks, |d1.lines|, |d2.lines|)
      ensures mode.Context? ==> Ordered([] + hunks, 0, 0, |d1.lines|, |d2.lines|)
      ensures hunks == old(hunks) && cur == "" && (anychange <==> hunks != [])
      ensures out == Printed(mode, hunks, d1.lines, d2.lines)
    {
      hide Ordered, Group, Indexed, Dump, UniState, Script, Fits, Rest;
      if mode.Context? {
        assert hunks + [] == hunks;
        UniStateOk(hunks, mode.ctx, d1.lines, d2.lines);
        UniStateRest(hunks, [], mode.ctx, d1.lines, d2.lines);
        NoneEmptySuffix(hunks, |hunks| - |vec|, Hunk(1, 1, 1, 1));
        RestEnd(vec, mode.ctx, d1.lines, d2.lines);
        if anychange {
          DumpUnified();
        } else {
          UniStateNothing(mode.ctx, d1.lines, d2.lines);
        }
      }
    }
  }

  lemma CollectStep(hs: seq<Hunk>, h: Hunk, ctx: nat, A: seq<string>, B: seq<string>)
    requires Ordered(hs + [h], 0, 0, |A|, |B|) && NoneEmpty(hs) && !h.Empty()
    ensures Ordered(hs, 0, 0, |A|, |B|) && NoneEmpty(hs + [h])
    ensures var s := UniState(hs, ctx, A, B);
      && (hs == [] <==> s.vec == []) && NoneEmpty(s.vec)
      && (s.vec != [] ==> Group(s.vec, |A|, |B|))
      && UniState(hs + [h], ctx, A, B) == UniStep(s, h, ctx, A, B)
  {
    hide Ordered, Group, UniStep, UniState, NoneEmpty;
    UniStateStep(hs, h, ctx, A, B);
    UniStateOk(hs, ctx, A, B);
    UniStateNothing(ctx, A, B);
    NoneEmptySuffix(hs, |hs| - |UniState(hs, ctx, A, B).vec|, h);
  }

  lemma UniStepFirst(s: Pending, h: Hunk, ctx: nat, A: seq<string>, B: seq<string>)
    requires s.vec == []
    ensures UniStep(s, h, ctx, A, B) == Pending(s.out, s.vec + [h])
  {
  }

  lemma UniStepIs(s: Pending, h: Hunk, ctx: nat, A: seq<string>, B: seq<string>)
    requires s.vec != [] ==> Group(s.vec, |A|, |B|)
    ensures UniStep(s, h, ctx, A, B) ==
         if s.vec != [] && h.a > s.vec[|s.vec| - 1].b + 2 * ctx + 1 && h.c > s.vec[|s.vec| - 1].d + 2 * ctx + 1
         then Pending(s.out + Dump(s.vec, ctx, A, B), [h]) else Pending(s.out, s.vec + [h])
  {
    hide Group, Dump;
  }

  /** The complete output for the hunks hs. */
  ghost function Printed(mode: Mode, hs: seq<Hunk>, A: seq<string>, B: seq<string>): seq<string>
    requires AllFit(hs, |A|, |B|)
    requires mode.Context? ==> Ordered([] + hs, 0, 0, |A|, |B|)
  {
    match mode
    case Plain(f) => Script(f, hs, A, B)
    case Context(ctx) => Rest([], hs, ctx, A, B)
  }

  lemma RestEnd(vec: seq<Hunk>, ctx: nat, A: seq<string>, B: seq<string>)
    requires Ordered(vec + [], 0, 0, |A|, |B|)
    ensures vec != [] ==> Group(vec, |A|, |B|)
    ensures Rest(vec, [], ctx, A, B) == if vec == [] then [] else Dump(vec, ctx, A, B)
  {
    assert vec + [] == vec;
  }

  lemma NoneEmptySuffix(hs: seq<Hunk>, k: nat, h: Hunk)
    requires k <= |hs| && NoneEmpty(hs)
    ensures NoneEmpty(hs[k..])
    ensures !h.Empty() ==> NoneEmpty(hs + [h])
  {
  }

  lemma ScriptAdds(f: Format, hs: seq<Hunk>, h: Hunk, A: seq<string>, B: seq<string>)
    requires Fits(h, |A|, |B|) && AllFit(hs, |A|, |B|)
    ensures AllFit(hs + NonEmpty(h), |A|, |B|)
    ensures Script(f, hs + NonEmpty(h), A, B) == Script(f, hs, A, B) + HunkText(f, h, A, B)
  {
    if h.Empty() {
      assert hs + NonEmpty(h) == hs;
      assert HunkText(f, h, A, B) == [];
    } else {
      ScriptSplit(f, hs, h, A, B);
    }
  }

  ghost predicate NoneEmpty(hs: seq<Hunk>) {
    forall i :: 0 <= i < |hs| ==> !hs[i].Empty()
  }

  lemma PieceIs(h: Hunk, la: int, lc: int, A: seq<string>, B: seq<string>)
    requires 1 <= la <= h.a <= h.b + 1 <= |A| + 1 && 1 <= lc <= h.c <= h.d + 1 <= |B| + 1 && !h.Empty()
    ensures Piece(h, la, lc, A, B) ==
      if h.a > h.b then Prefixed([' '], Sub(B, lc, h.c - 1)) + Prefixed(['+'], Sub(B, h.c, h.d))
      else if h.c > h.d then Prefixed([' '], Sub(A, la, h.a - 1)) + Prefixed(['-'], Sub(A, h.a, h.b))
      else Prefixed([' '], Sub(A, la, h.a - 1)) + Prefixed(['-'], Sub(A, h.a, h.b)) + Prefixed(['+'], Sub(B, h.c, h.d))
  {
    assert " " == [' '] && "+" == ['+'] && "-" == ['-'];
    if h.c > h.d {
      assert Prefixed("+", Sub(B, h.c, h.d)) == [];
    }
  }

  lemma PieceAfter(out: seq<string>, h: Hunk, la: int, lc: int, A: seq<string>, B: seq<string>)
    requires 1 <= la <= h.a <= h.b + 1 <= |A| + 1 && 1 <= lc <= h.c <= h.d + 1 <= |B| + 1 && !h.Empty()
    ensures out + Piece(h, la, lc, A, B) ==
      if h.a > h.b then out + Prefixed([' '], Sub(B, lc, h.c - 1)) + Prefixed(['+'], Sub(B, h.c, h.d))
      else if h.c > h.d then out + Prefixed([' '], Sub(A, la, h.a - 1)) + Prefixed(['-'], Sub(A, h.a, h.b))
      else out + Prefixed([' '], Sub(A, la, h.a - 1)) + Prefixed(['-'], Sub(A, h.a, h.b))
           + Prefixed(['+'], Sub(B, h.c, h.d))
  {
    hide Prefixed, Sub, Piece;
    PieceIs(h, la, lc, A, B);
    var P, M := Prefixed([' '], Sub(A, la, h.a - 1)), Prefixed(['-'], Sub(A, h.a, h.b));
    var I := Prefixed(['+'], Sub(B, h.c, h.d));
    Sequences.Assoc(out, Prefixed([' '], Sub(B, lc, h.c - 1)), I);
    Sequences.Assoc(out, P, M);
    Sequences.AssocFour(out, P, M, I);
  }

  lemma DumpStart(vec: seq<Hunk>, ctx: nat, A: seq<string>, B: seq<string>)
    requires Group(vec, |A|, |B|) && 0 <= UpB(vec, ctx, |A|) && 0 <= UpD(vec, ctx, |B|)
    ensures Ordered(vec[0..], LowA(vec, ctx) - 1, LowC(vec, ctx) - 1, |A|, |B|)
    ensures vec[0..] == vec && 1 <= LowA(vec, ctx) && 1 <= LowC(vec, ctx)
    ensures Header(vec, ctx, |A|, |B|)
         == "@@ -" + UniRange(LowA(vec, ctx), UpB(vec, ctx, |A|))
            + " +" + UniRange(LowC(vec, ctx), UpD(vec, ctx, |B|)) + " @@"
  {
    assert vec[0..] == vec;
  }

  lemma BodyStep(done: seq<string>, vec: seq<Hunk>, k: nat, la: int, lc: int, A: seq<string>, B: seq<string>)
    requires k < |vec| && 1 <= la && 1 <= lc && Ordered(vec[k..], la - 1, lc - 1, |A|, |B|)
    ensures la <= vec[k].a <= vec[k].b + 1 <= |A| + 1 && lc <= vec[k].c <= vec[k].d + 1 <= |B| + 1
    ensures Ordered(vec[k + 1..], vec[k].b, vec[k].d, |A|, |B|)
    ensures done + Body(vec[k..], la, lc, A, B)
         == (done + Piece(vec[k], la, lc, A, B)) + Body(vec[k + 1..], vec[k].b + 1, vec[k].d + 1, A, B)
  {
    hide Piece;
    Sequences.Behind(vec, k);
    Sequences.Assoc(done, Piece(vec[k], la, lc, A, B), Body(vec[k + 1..], vec[k].b + 1, vec[k].d + 1, A, B));
  }

  lemma BodyEnd(vec: seq<Hunk>, la: int, lc: int, A: seq<string>, B: seq<string>)
    requires vec == [] && 1 <= la && 1 <= lc && Ordered(vec, la - 1, lc - 1, |A|, |B|)
    ensures Body(vec, la, lc, A, B) == []
  {
  }

  lemma DumpIs(vec: seq<Hunk>, ctx: nat, A: seq<string>, B: seq<string>)
    requires Group(vec, |A|, |B|)
    requires LowA(vec, ctx) >= 1 && LowC(vec, ctx) >= 1
    requires Ordered(vec, LowA(vec, ctx) - 1, LowC(vec, ctx) - 1, |A|, |B|)
    requires 0 <= vec[|vec| - 1].d <= UpD(vec, ctx, |B|) <= |B|
    ensures Dump(vec, ctx, A, B) == [Header(vec, ctx, |A|, |B|)] + Body(vec, LowA(vec, ctx), LowC(vec, ctx), A, B)
                                    + Prefixed([' '], Sub(B, vec[|vec| - 1].d + 1, UpD(vec, ctx, |B|)))
  {
    assert " " == [' '];
  }

  /** With out written, the text of the hunk h makes up the total. */
  ghost predicate Owed(total: seq<string>, out: seq<string>, h: Hunk, B: seq<string>)
    requires 1 <= h.a <= h.b + 1 && 1 <= h.c <= h.d + 1 <= |B| + 1
  {
    total == out + EdText(h, B)
  }

  lemma EdStart(total: seq<string>, out: seq<string>, h: Hunk, B: seq<string>)
    requires 1 <= h.a <= h.b + 1 && 1 <= h.c <= h.d + 1 <= |B| + 1 && total == out + EdText(h, B)
    ensures Owed(total, out, h, B)
  {
    hide EdText;
  }

  lemma EdNothing(total: seq<string>, out: seq<string>, h: Hunk, B: seq<string>)
    requires 1 <= h.a <= h.b + 1 && 1 <= h.c <= h.d + 1 <= |B| + 1 && h.Empty()
    requires Owed(total, out, h, B)
    ensures out == total
  {
  }

  lemma EdDone(total: seq<string>, before: seq<string>, out: seq<string>, h: Hunk, B: seq<string>)
    requires 1 <= h.a <= h.b + 1 && 1 <= h.c <= h.d + 1 <= |B| + 1 && !h.Empty() && LoneDot(B, h.c, h.d) == 0
    requires Owed(total, before, h, B)
    requires var text := before + [RangeText(h.a, h.b) + [Letter(h)]] + Prefixed("", Sub(B, h.c, h.d));
      out == if h.c <= h.d then text + ["."] else text
    ensures out == total
  {
    hide RangeText, Letter, Prefixed, Sub, LoneDot;
    EdWhole(h, B);
    Sequences.AssocFour(before, [RangeText(h.a, h.b) + [Letter(h)]], Prefixed("", Sub(B, h.c, h.d)), ["."]);
  }

  lemma EdWhole(h: Hunk, B: seq<string>)
    requires 1 <= h.a <= h.b + 1 && 1 <= h.c <= h.d + 1 <= |B| + 1 && !h.Empty() && LoneDot(B, h.c, h.d) == 0
    ensures var text := [RangeText(h.a, h.b) + [Letter(h)]] + Prefixed("", Sub(B, h.c, h.d));
      EdText(h, B) == if h.c <= h.d then text + ["."] else text
  {
    PrefixedNone(Sub(B, h.c, h.d));
  }

  lemma RcsIs(h: Hunk, B: seq<string>)
    requires 1 <= h.a <= h.b + 1 && 1 <= h.c <= h.d + 1 <= |B| + 1
    ensures h.Empty() ==> RcsText(h, B) == []
    ensures var text := Prefixed("", Sub(B, h.c, h.d));
      var add, del := ["a" + Dec(h.b) + " " + Dec(h.d - h.c + 1)], ["d" + Dec(h.a) + " " + Dec(h.b - h.a + 1)];
      && (h.a > h.b && h.c <= h.d ==> RcsText(h, B) == add + text)
      && (h.a <= h.b && h.c > h.d ==> RcsText(h, B) == del + text)
      && (h.a <= h.b && h.c <= h.d ==> RcsText(h, B) == del + add + text)
  {
    PrefixedNone(Sub(B, h.c, h.d));
  }

  lemma NormalIs(h: Hunk, A: seq<string>, B: seq<string>)
    requires Fits(h, |A|, |B|)
    ensures h.Empty() ==> NormalText(h, A, B) == []
    ensures !h.Empty() ==>
      var letter := if h.a > h.b then 'a' else if h.c > h.d then 'd' else 'c';
      var line := RangeText(h.a, h.b) + [letter] + RangeText(h.c, h.d);
      var minus, plus := Prefixed("< ", Sub(A, h.a, h.b)), Prefixed("> ", Sub(B, h.c, h.d));
      NormalText(h, A, B) == if h.a <= h.b && h.c <= h.d then [line] + minus + ["---"] + plus else [line] + minus + plus
  {
    assert forall p: seq<string>, q: seq<string> {:trigger p + [] + q} :: p + [] + q == p + q;
  }

  lemma RegroupNormal(a: seq<string>, b: seq<string>, c: seq<string>, d: seq<string>)
    ensures a + (b + c + d) == a + b + c + d
    ensures a + (b + c + ["---"] + d) == a + b + c + ["---"] + d
  {}

  lemma EdResume(total: seq<string>, before: seq<string>, out: seq<string>, h: Hunk, t: int, B: seq<string>)
    requires 1 <= h.a <= h.b + 1 && 1 <= h.c <= h.d + 1 <= |B| + 1 && t == LoneDot(B, h.c, h.d) != 0
    requires Owed(total, before, h, B)
    requires out == before + [RangeText(h.a, h.b) + [Letter(h)]] + Sub(B, h.c, t - 1)
                    + [".."] + ["."] + [Dec(h.a + (t - h.c)) + "s/.//"]
    ensures Owed(total, out, Hunk(h.a + (t - h.c) + 1, h.a + (t - h.c), t + 1, h.d), B)
  {
    hide EdText, Sub, RangeText, LoneDot;
    EdRestart(h, B, t);
    var head, sub := [RangeText(h.a, h.b) + [Letter(h)]], Sub(B, h.c, t - 1);
    var s, more := [Dec(h.a + (t - h.c)) + "s/.//"], EdText(Hunk(h.a + (t - h.c) + 1, h.a + (t - h.c), t + 1, h.d), B);
    RegroupEd(before, head, sub, s, more);
  }

  lemma RegroupEd(a: seq<string>, b: seq<string>, c: seq<string>, s: seq<string>, m: seq<string>)
    ensures a + (b + c + [".."] + ["."] + s + m) == (a + b + c + [".."] + ["."] + s) + m
  {}

  lemma DotLines(head: seq<string>, s: string)
    ensures head + ["..", ".", s] == head + [".."] + ["."] + [s]
  {
    assert ["..", ".", s] == [".."] + ["."] + [s];
  }

  lemma EdRestart(h: Hunk, B: seq<string>, t: int)
    requires 1 <= h.a <= h.b + 1 && 1 <= h.c <= h.d + 1 <= |B| + 1 && t == LoneDot(B, h.c, h.d) != 0
    ensures var last := h.a + (t - h.c + 1) - 1;
      EdText(h, B) == [RangeText(h.a, h.b) + [Letter(h)]] + Sub(B, h.c, t - 1) + [".."] + ["."] + [Dec(last) + "s/.//"]
                      + EdText(Hunk(last + 1, last, t + 1, h.d), B)
  {
    hide Sub, RangeText, Dec, Letter, LoneDot;
    var last := h.a + (t - h.c);
    DotLines([RangeText(h.a, h.b) + [Letter(h)]] + Sub(B, h.c, t - 1), Dec(last) + "s/.//");
  }

  lemma FetchNone(L: seq<string>, a: int, b: int, lead: string)
    requires 1 <= a == b + 1 <= |L| + 1
    ensures Prefixed(lead, Sub(L, a, b)) == [] && LoneDot(L, a, b) == 0
  {
  }

  /** Lines a..i have been put behind what was in base. */
  ghost predicate Fetched(base: seq<string>, out: seq<string>, L: seq<string>, a: int, i: int, lead: string)
    requires 1 <= a <= i + 1 <= |L| + 1
  {
    out == base + Prefixed(lead, Sub(L, a, i))
  }

  lemma FetchFirst(base: seq<string>, L: seq<string>, a: int, lead: string)
    requires 1 <= a <= |L| + 1
    ensures Fetched(base, base, L, a, a - 1, lead)
  {
    FetchNone(L, a, a - 1, lead);
    Sequences.Whole(base);
  }

  lemma FetchStep(base: seq<string>, before: seq<string>, L: seq<string>, a: int, i: int, lead: string)
    requires 1 <= a <= i <= |L| && Fetched(base, before, L, a, i - 1, lead)
    ensures Fetched(base, before + [lead + L[i - 1]], L, a, i, lead)
  {
    PrefixedLast(L, a, i, lead);
    Sequences.Assoc(base, Prefixed(lead, Sub(L, a, i - 1)), [lead + L[i - 1]]);
  }

  lemma PrefixedLast(L: seq<string>, a: int, i: int, lead: string)
    requires 1 <= a <= i <= |L|
    ensures Prefixed(lead, Sub(L, a, i)) == Prefixed(lead, Sub(L, a, i - 1)) + [lead + L[i - 1]]
  {
    assert Sub(L, a, i) == Sub(L, a, i - 1) + [L[i - 1]];
  }

  lemma DotStep(L: seq<string>, i: int, b: int)
    requires 1 <= i <= b <= |L|
    ensures LoneDot(L, i, b) == if L[i - 1] == "." then i else LoneDot(L, i + 1, b)
  {
  }

  lemma FetchedDot(base: seq<string>, out: seq<string>, L: seq<string>, a: int, i: int)
    requires 1 <= a <= i + 1 <= |L| + 1 && Fetched(base, out, L, a, i, "")
    ensures out == base + Sub(L, a, i)
  {
    PrefixedNone(Sub(L, a, i));
  }

  lemma FetchedAll(base: seq<string>, out: seq<string>, L: seq<string>, a: int, b: int, lead: string)
    requires 1 <= a <= b + 1 <= |L| + 1 && Fetched(base, out, L, a, b, lead)
    ensures out == base + Prefixed(lead, Sub(L, a, b))
  {
  }

  lemma PrefixedNone(L: seq<string>)
    ensures Prefixed("", L) == L
  {
    assert forall i :: 0 <= i < |L| ==> "" + L[i] == L[i];
  }
}
