/** A small ed: the commands that diff -e emits, run on a buffer of lines. It is the reference the ed output
    is measured against. */
module EdScript {
  import opened Decimal
  import opened Hunks
  import opened Scripts
  import opened HunkWalk
  import opened Wrappers
  import Sequences

  /** An address, an optional second address, and the rest of the command line. */
  datatype Command = Command(n: nat, m: nat, verb: string)

  /** Stricter than ed: a second address must be above the first, so a single line has one number only. */

  function Parse(line: string): Option<Command> {
    var k := DigitCount(line);
    if k == 0 then None
    else
      var n := Number(line[..k]);
      var rest := line[k..];
      if rest != "" && rest[0] == ',' then
        var l := DigitCount(rest[1..]);
        if l == 0 || Number(rest[1..][..l]) <= n then None
        else Some(Command(n, Number(rest[1..][..l]), rest[1..][l..]))
      else Some(Command(n, n, rest))
  }

  /** Input mode: the lines up to a lone dot; None when the script ends first. */
  function Input(script: seq<string>): (r: Option<(seq<string>, seq<string>)>)
    ensures r.Some? ==> |r.value.1| < |script|
  {
    if script == [] then None
    else if script[0] == "." then Some(([], script[1..]))
    else
      var r := Input(script[1..]);
      if r.None? then None else Some(([script[0]] + r.value.0, r.value.1))
  }

  /** Run a script; None is ed's "?". */
  function Run(script: seq<string>, buf: seq<string>): Option<seq<string>>
    decreases |script|
  {
    if script == [] then Some(buf)
    else
      var p := Parse(script[0]);
      if p.None? || p.value.m > |buf| then None
      else
        var n, m := p.value.n, p.value.m;
        if p.value.verb == "a" then
          var i := Input(script[1..]);
          if i.None? then None else Run(i.value.1, buf[..m] + i.value.0 + buf[m..])
        else if n == 0 then None
        else if p.value.verb == "c" then
          var i := Input(script[1..]);
          if i.None? then None else Run(i.value.1, buf[..n - 1] + i.value.0 + buf[m..])
        else if p.value.verb == "d" then Run(script[1..], buf[..n - 1] + buf[m..])
        else if p.value.verb == "s/.//" && n == m && buf[n - 1] != "" then
          Run(script[1..], buf[n - 1 := buf[n - 1][1..]])
        else None
  }

  lemma {:induction false} ParseCommand(a: int, b: int, verb: string)
    requires 1 <= a <= b + 1
    requires verb == "" || (!IsDigit(verb[0]) && verb[0] != ',')
    ensures Parse(RangeText(a, b) + verb) == Some(Command(if a > b then b else a, b, verb))
  {
    hide Dec, Number, DigitCount;
    var line := RangeText(a, b) + verb;
    if a < b {
      assert line == Dec(a) + ("," + (Dec(b) + verb));
      ReadDec(a, "," + (Dec(b) + verb));
      ReadDec(b, verb);
      assert ("," + (Dec(b) + verb))[1..] == Dec(b) + verb;
    } else {
      assert RangeText(a, b) == Dec(b);
      ReadDec(b, verb);
    }
  }

  lemma {:induction false} InputUpToDot(text: seq<string>, rest: seq<string>)
    requires forall i :: 0 <= i < |text| ==> text[i] != "."
    ensures Input(text + ["."] + rest) == Some((text, rest))
  {
    var s := text + ["."] + rest;
    if text == [] {
      assert s[1..] == rest;
    } else {
      assert s[1..] == text[1..] + ["."] + rest;
      InputUpToDot(text[1..], rest);
      assert text == [text[0]] + text[1..];
    }
  }

  /** One command with text that holds no lone dot. */
  lemma {:induction false} RunEntry(h: Hunk, text: seq<string>, rest: seq<string>, buf: seq<string>)
    requires 1 <= h.a <= h.b + 1 <= |buf| + 1 && h.c <= h.d
    requires forall i :: 0 <= i < |text| ==> text[i] != "."
    ensures Run([RangeText(h.a, h.b) + [Letter(h)]] + text + ["."] + rest, buf)
         == Run(rest, buf[..h.a - 1] + text + buf[h.b..])
  {
    hide Parse, Input, RangeText;
    var s := [RangeText(h.a, h.b) + [Letter(h)]] + text + ["."] + rest;
    ParseCommand(h.a, h.b, [Letter(h)]);
    assert s[1..] == text + ["."] + rest;
    InputUpToDot(text, rest);
  }

  lemma {:induction false} RunDelete(h: Hunk, rest: seq<string>, buf: seq<string>)
    requires 1 <= h.a <= h.b <= |buf| && h.c > h.d
    ensures Run([RangeText(h.a, h.b) + [Letter(h)]] + rest, buf) == Run(rest, buf[..h.a - 1] + buf[h.b..])
  {
    var s := [RangeText(h.a, h.b) + [Letter(h)]] + rest;
    ParseCommand(h.a, h.b, [Letter(h)]);
    assert s[1..] == rest;
  }

  lemma {:induction false} RunSubstitute(n: nat, rest: seq<string>, buf: seq<string>)
    requires 1 <= n <= |buf| && buf[n - 1] == ".."
    ensures Run([Dec(n) + "s/.//"] + rest, buf) == Run(rest, buf[n - 1 := "."])
  {
    hide Parse, Input, Dec;
    var s := [Dec(n) + "s/.//"] + rest;
    assert RangeText(n, n) == Dec(n);
    ParseCommand(n, n, "s/.//");
    assert s[1..] == rest;
    assert ".."[1..] == ".";
  }

  /** The text of one hunk replaces lines a..b of the buffer by lines c..d of B, whatever they hold. */
  lemma {:induction false} RunHunk(h: Hunk, B: seq<string>, rest: seq<string>, buf: seq<string>)
    requires Fits(h, |buf|, |B|)
    ensures Run(EdText(h, B) + rest, buf) == Run(rest, buf[..h.a - 1] + B[h.c - 1..h.d] + buf[h.b..])
    decreases h.d - h.c + 1
  {
    hide Run, Parse, Input, RangeText;
    if h.Empty() {
      assert EdText(h, B) + rest == rest;
      assert buf[..h.a - 1] + B[h.c - 1..h.d] + buf[h.b..] == buf;
      return;
    }
    var command := [RangeText(h.a, h.b) + [Letter(h)]];
    var t := LoneDot(B, h.c, h.d);
    if h.c > h.d {
      assert EdText(h, B) + rest == command + rest;
      RunDelete(h, rest, buf);
      assert buf[..h.a - 1] + B[h.c - 1..h.d] + buf[h.b..] == buf[..h.a - 1] + buf[h.b..];
    } else if t == 0 {
      var text := Sub(B, h.c, h.d);
      assert EdText(h, B) + rest == command + text + ["."] + rest;
      RunEntry(h, text, rest, buf);
    } else {
      RunDotted(h, B, rest, buf, t);
    }
  }

  lemma {:induction false} RunDotted(h: Hunk, B: seq<string>, rest: seq<string>, buf: seq<string>, t: int)
    requires Fits(h, |buf|, |B|) && t == LoneDot(B, h.c, h.d) != 0
    ensures Run(EdText(h, B) + rest, buf) == Run(rest, buf[..h.a - 1] + B[h.c - 1..h.d] + buf[h.b..])
    decreases h.d - h.c + 1, 0
  {
    hide Run, Parse, Input, RangeText, EdText;
    var last := h.a + (t - h.c);
    var h' := Hunk(last + 1, last, t + 1, h.d);
    var text := Sub(B, h.c, t - 1) + [".."];
    var more := EdText(h', B) + rest;
    var buf1 := buf[..h.a - 1] + text + buf[h.b..];
    DottedText(h, B, rest, t);
    RunEntry(h, text, [Dec(last) + "s/.//"] + more, buf);
    DottedBuffer(h, B, buf, t);
    RunSubstitute(last, more, buf1);
    RunHunk(h', B, rest, buf1[last - 1 := "."]);
  }

  lemma {:induction false} DottedText(h: Hunk, B: seq<string>, rest: seq<string>, t: int)
    requires 1 <= h.a <= h.b + 1 && 1 <= h.c <= h.d + 1 <= |B| + 1 && t == LoneDot(B, h.c, h.d) != 0
    ensures var last := h.a + (t - h.c);
      EdText(h, B) + rest ==
      [RangeText(h.a, h.b) + [Letter(h)]] + (Sub(B, h.c, t - 1) + [".."]) + ["."]
      + ([Dec(last) + "s/.//"] + (EdText(Hunk(last + 1, last, t + 1, h.d), B) + rest))
  {
    hide RangeText, LoneDot, Sub, Dec, Letter;
    var last := h.a + (t - h.c);
    var command, sub := [RangeText(h.a, h.b) + [Letter(h)]], Sub(B, h.c, t - 1);
    var s := Dec(last) + "s/.//";
    var more := EdText(Hunk(last + 1, last, t + 1, h.d), B);
    assert EdText(h, B) == command + sub + ["..", ".", s] + more;
    DotParts(command, sub, s, more, rest);
  }

  lemma DotParts(command: seq<string>, sub: seq<string>, s: string, more: seq<string>, rest: seq<string>)
    ensures command + sub + ["..", ".", s] + more + rest == command + (sub + [".."]) + ["."] + ([s] + (more + rest))
  {
    assert ["..", ".", s] == [".."] + (["."] + [s]);
    Sequences.AssocFour(command, sub, [".."], ["."] + [s]);
    Sequences.AssocFour(command + (sub + [".."]), ["."], [s], more + rest);
    Sequences.Assoc(command, sub, [".."]);
    Sequences.Assoc(command + sub + ["..", ".", s], more, rest);
    assert command + sub + ["..", ".", s] == (command + (sub + [".."])) + (["."] + [s]);
  }

  /** The buffer after the dotted part: the escaped line is back, and what follows is appended after it. */
  lemma {:induction false} DottedBuffer(h: Hunk, B: seq<string>, buf: seq<string>, t: int)
    requires 1 <= h.a <= h.b + 1 && h.b <= |buf| && 1 <= h.c <= t <= h.d <= |B| && B[t - 1] == "."
    ensures var last := h.a + (t - h.c);
      var buf1 := buf[..h.a - 1] + (Sub(B, h.c, t - 1) + [".."]) + buf[h.b..];
      && 1 <= last <= |buf1| && buf1[last - 1] == ".."
      && var buf2 := buf1[last - 1 := "."];
      && buf2[..last] + B[t..h.d] + buf2[last..] == buf[..h.a - 1] + B[h.c - 1..h.d] + buf[h.b..]
  {
    hide Sub;
    var last := h.a + (t - h.c);
    var head, tail := buf[..h.a - 1], buf[h.b..];
    var sub := Sub(B, h.c, t - 1);
    Undot(head, sub, tail);
    UndottedLines(B, h.c, t, h.d);
    Sequences.Assoc(head, sub + ["."], B[t..h.d]);
  }

  lemma UndottedLines(B: seq<string>, c: int, t: int, d: int)
    requires 1 <= c <= t <= d <= |B| && B[t - 1] == "."
    ensures |Sub(B, c, t - 1)| == t - c && (Sub(B, c, t - 1) + ["."]) + B[t..d] == B[c - 1..d]
  {
    assert Sub(B, c, t - 1) + ["."] == B[c - 1..t];
    Sequences.Cut(B, c - 1, t, d);
  }

  lemma Undot(head: seq<string>, sub: seq<string>, tail: seq<string>)
    ensures var last := |head| + |sub| + 1;
      var buf1 := head + (sub + [".."]) + tail;
      && 1 <= last <= |buf1| && buf1[last - 1] == ".."
      && var buf2 := buf1[last - 1 := "."];
      && buf2[..last] == head + (sub + ["."]) && buf2[last..] == tail
  {
    var last := |head| + |sub| + 1;
    var buf2 := (head + (sub + [".."]) + tail)[last - 1 := "."];
    assert buf2 == (head + (sub + ["."])) + tail;
    Sequences.Parts(head + (sub + ["."]), tail);
  }

  /** Last hunk first, the ed script leaves every line before a hunk where the file had it, so the whole
      script turns A into B. */
  lemma {:induction false} EdPatches(hs: seq<Hunk>, x: nat, y: nat, A: seq<string>, B: seq<string>, rest: seq<string>)
    requires x <= |A| && y <= |B| && Covers(hs, x, y, A, B)
    requires AllFit(Reverse(hs), |A|, |B|)
    ensures Run(Script(Ed, Reverse(hs), A, B) + rest, A) == Run(rest, A[..x] + B[y..])
  {
    hide Run, EdText, Script;
    if hs == [] {
      ScriptNothing(Ed, A, B);
      assert Script(Ed, Reverse(hs), A, B) + rest == rest;
      assert A[..x] + A[x..] == A;
    } else {
      var h, t := hs[0], hs[1..];
      CoversFit(t, h.b, h.d, A, B);
      ReverseFits(t, |A|, |B|);
      ScriptSplit(Ed, Reverse(t), h, A, B);
      var text, before := EdText(h, B), Script(Ed, Reverse(t), A, B);
      assert (before + text) + rest == before + (text + rest);
      EdPatches(t, h.b, h.d, A, B, text + rest);
      RunHunk(h, B, rest, A[..h.b] + B[h.d..]);
      BufferStep(h, x, y, A, B);
    }
  }

  lemma BufferStep(h: Hunk, x: nat, y: nat, A: seq<string>, B: seq<string>)
    requires x < h.a <= h.b + 1 <= |A| + 1 && y < h.c <= h.d + 1 <= |B| + 1
    requires A[x..h.a - 1] == B[y..h.c - 1]
    ensures var buf := A[..h.b] + B[h.d..]; buf[..h.a - 1] + B[h.c - 1..h.d] + buf[h.b..] == A[..x] + B[y..]
  {
    var buf := A[..h.b] + B[h.d..];
    assert buf[..h.a - 1] == A[..x] + A[x..h.a - 1];
    assert buf[h.b..] == B[h.d..];
    assert B[y..] == B[y..h.c - 1] + B[h.c - 1..h.d] + B[h.d..];
  }

  // ---------------------------------------------------------------- the hunks that a script names

  /** How many lines a command enters behind line n, through any number of escaped dots, and what follows. */
  function Entered(script: seq<string>, n: nat): (r: Option<(nat, seq<string>)>)
    ensures r.Some? ==> |r.value.1| < |script|
    decreases |script|
  {
    var i := Input(script);
    if i.None? then None
    else
      var count, rest := |i.value.0|, i.value.1;
      if rest == [] || Parse(rest[0]) != Some(Command(n + count, n + count, "s/.//")) then Some((count, rest))
      else if |rest| == 1 || Parse(rest[1]) != Some(Command(n + count, n + count, "a")) then Some((count, rest[1..]))
      else
        var more := Entered(rest[2..], n + count);
        if more.None? then None else Some((count + more.value.0, more.value.1))
  }

  function Cons(e: Edit, r: Option<seq<Edit>>): Option<seq<Edit>> {
    if r.None? then r else Some([e] + r.value)
  }

  /** The edits of a script, in its order: 'd' adds nothing, 'a' and 'c' add something. */
  function Edits(script: seq<string>): Option<seq<Edit>>
    decreases |script|
  {
    if script == [] then Some([])
    else
      var p := Parse(script[0]);
      if p.None? then None
      else
        var n, m := p.value.n, p.value.m;
        if p.value.verb == "d" && n > 0 then Cons(Edit(n, m, 0), Edits(script[1..]))
        else if (p.value.verb == "a" && n == m) || (p.value.verb == "c" && n > 0) then
          var first := if p.value.verb == "a" then m + 1 else n;
          var r := Entered(script[1..], first - 1);
          if r.None? || r.value.0 == 0 then None
          else Cons(Edit(first, m, r.value.0), Edits(r.value.1))
        else None
  }

  /** What follows is nothing, or starts with a command on lines before n. */
  ghost predicate Before(script: seq<string>, n: int) {
    script == [] || (Parse(script[0]).Some? && Parse(script[0]).value.m < n && Parse(script[0]).value.verb != "s/.//")
  }

  /** The lines of a hunk are all counted as its own, through every restart. */
  lemma {:induction false} EnteredHunk(h: Hunk, B: seq<string>, rest: seq<string>)
    requires 1 <= h.a <= h.b + 1 && 1 <= h.c <= h.d <= |B| && Before(rest, h.a)
    ensures Entered((EdText(h, B) + rest)[1..], h.a - 1) == Some((h.d - h.c + 1, rest))
    decreases h.d - h.c
  {
    hide Parse, Input, RangeText, EdText, Sub, LoneDot;
    var t := LoneDot(B, h.c, h.d);
    if t == 0 {
      var text := Sub(B, h.c, h.d);
      PlainText(h, B, rest);
      SubAt(B, h.c, h.d);
      InputUpToDot(text, rest);
    } else {
      var last := h.a + (t - h.c);
      var h' := Hunk(last + 1, last, t + 1, h.d);
      var more := EdText(h', B) + rest;
      DottedRest(h, B, rest, t);
      SubAt(B, h.c, t - 1);
      InputUpToDot(Sub(B, h.c, t - 1) + [".."], [Dec(last) + "s/.//"] + more);
      SubstituteParsed(last);
      Sequences.Head(Dec(last) + "s/.//", more);
      if t == h.d {
        NoText(h', B, rest);
      } else {
        CommandLine(h', B, rest);
        EnteredHunk(h', B, rest);
        assert ([Dec(last) + "s/.//"] + more)[2..] == more[1..];
        assert ([Dec(last) + "s/.//"] + more)[1] == more[0];
      }
    }
  }

  lemma SubAt(B: seq<string>, c: int, d: int)
    requires 1 <= c <= d + 1 <= |B| + 1
    ensures |Sub(B, c, d)| == d - c + 1
    ensures LoneDot(B, c, d) == 0 ==> forall i :: 0 <= i < d - c + 1 ==> Sub(B, c, d)[i] != "."
  {
  }

  lemma SubstituteParsed(n: nat)
    requires n >= 1
    ensures Parse(Dec(n) + "s/.//") == Some(Command(n, n, "s/.//"))
  {
    hide Parse, Dec;
    assert RangeText(n, n) == Dec(n) + "";
    assert RangeText(n, n) == Dec(n);
    ParseCommand(n, n, "s/.//");
  }

  lemma NoText(h: Hunk, B: seq<string>, rest: seq<string>)
    requires 1 <= h.a <= h.b + 1 && 1 <= h.c <= h.d + 1 <= |B| + 1 && h.Empty()
    ensures EdText(h, B) + rest == rest
  {
  }

  lemma PlainText(h: Hunk, B: seq<string>, rest: seq<string>)
    requires 1 <= h.a <= h.b + 1 && 1 <= h.c <= h.d <= |B| && LoneDot(B, h.c, h.d) == 0
    ensures (EdText(h, B) + rest)[1..] == Sub(B, h.c, h.d) + ["."] + rest
  {
    hide RangeText, Sub, LoneDot;
    var command := RangeText(h.a, h.b) + [Letter(h)];
    Sequences.AssocFour([command], Sub(B, h.c, h.d), ["."], rest);
    Sequences.Head(command, Sub(B, h.c, h.d) + (["."] + rest));
    Sequences.Assoc(Sub(B, h.c, h.d), ["."], rest);
  }

  lemma DottedRest(h: Hunk, B: seq<string>, rest: seq<string>, t: int)
    requires 1 <= h.a <= h.b + 1 && 1 <= h.c <= h.d <= |B| && t == LoneDot(B, h.c, h.d) != 0
    ensures var last := h.a + (t - h.c);
      (EdText(h, B) + rest)[1..] == (Sub(B, h.c, t - 1) + [".."]) + ["."]
        + ([Dec(last) + "s/.//"] + (EdText(Hunk(last + 1, last, t + 1, h.d), B) + rest))
  {
    hide RangeText, LoneDot, Sub, Dec, Letter, EdText;
    DottedText(h, B, rest, t);
    var last := h.a + (t - h.c);
    var command, text := RangeText(h.a, h.b) + [Letter(h)], Sub(B, h.c, t - 1) + [".."];
    var more := [Dec(last) + "s/.//"] + (EdText(Hunk(last + 1, last, t + 1, h.d), B) + rest);
    Sequences.AssocFour([command], text, ["."], more);
    Sequences.Head(command, text + (["."] + more));
    Sequences.Assoc(text, ["."], more);
  }

  /** The command line of a hunk. */
  lemma CommandLine(h: Hunk, B: seq<string>, rest: seq<string>)
    requires 1 <= h.a <= h.b + 1 && 1 <= h.c <= h.d + 1 <= |B| + 1 && !h.Empty()
    ensures EdText(h, B) + rest != []
    ensures Parse((EdText(h, B) + rest)[0]) == Some(Command(if h.a > h.b then h.b else h.a, h.b, [Letter(h)]))
  {
    hide Parse, RangeText, Sub, LoneDot;
    ParseCommand(h.a, h.b, [Letter(h)]);
    assert EdText(h, B)[0] == RangeText(h.a, h.b) + [Letter(h)];
  }

  /** A hunk's text names exactly that hunk. */
  lemma {:induction false} EditsHunk(h: Hunk, B: seq<string>, rest: seq<string>)
    requires 1 <= h.a <= h.b + 1 && 1 <= h.c <= h.d + 1 <= |B| + 1 && !h.Empty() && Before(rest, h.a)
    ensures Edits(EdText(h, B) + rest) == Cons(Edit(h.a, h.b, h.d - h.c + 1), Edits(rest))
  {
    hide Parse, Input, RangeText, EdText, Entered;
    CommandLine(h, B, rest);
    if h.c <= h.d {
      EnteredHunk(h, B, rest);
    } else {
      DeleteText(h, B, rest);
    }
  }

  lemma DeleteText(h: Hunk, B: seq<string>, rest: seq<string>)
    requires 1 <= h.a <= h.b && 1 <= h.c == h.d + 1 <= |B| + 1
    ensures (EdText(h, B) + rest)[1..] == rest
  {
    hide RangeText;
    assert EdText(h, B) == [RangeText(h.a, h.b) + [Letter(h)]];
    Sequences.Head(RangeText(h.a, h.b) + [Letter(h)], rest);
  }

  /** The edits es, and then those of the rest. */
  function Joined(es: seq<Edit>, r: Option<seq<Edit>>): Option<seq<Edit>> {
    if r.None? then r else Some(es + r.value)
  }

  /** The script names the hunks, last one first. */
  lemma {:induction false} EdNames(hs: seq<Hunk>, x: nat, y: nat, A: seq<string>, B: seq<string>, rest: seq<string>)
    requires x <= |A| && y <= |B| && Covers(hs, x, y, A, B)
    requires AllFit(Reverse(hs), |A|, |B|) && Before(rest, x + 1)
    ensures Edits(Script(Ed, Reverse(hs), A, B) + rest) == Joined(EditsOf(Reverse(hs)), Edits(rest))
  {
    hide Edits, EdText, Script, Parse;
    if hs == [] {
      ScriptNothing(Ed, A, B);
      Sequences.Whole(rest);
      NothingJoined(Edits(rest));
    } else {
      var h, t := hs[0], hs[1..];
      CoversFit(t, h.b, h.d, A, B);
      ReverseFits(t, |A|, |B|);
      ScriptSplit(Ed, Reverse(t), h, A, B);
      Sequences.Assoc(Script(Ed, Reverse(t), A, B), EdText(h, B), rest);
      CommandLine(h, B, rest);
      EdNames(t, h.b, h.d, A, B, EdText(h, B) + rest);
      EditsHunk(h, B, rest);
      EditsLast(Reverse(t), h);
      JoinedOne(EditsOf(Reverse(t)), Edit(h.a, h.b, h.d - h.c + 1), Edits(rest));
    }
  }

  lemma NothingJoined(r: Option<seq<Edit>>)
    ensures Joined([], r) == r
  {
    if r.Some? {
      Sequences.Whole(r.value);
    }
  }

  lemma JoinedOne(es: seq<Edit>, e: Edit, r: Option<seq<Edit>>)
    ensures Joined(es, Cons(e, r)) == Joined(es + [e], r)
  {
    if r.Some? {
      Sequences.Assoc(es, [e], r.value);
    }
  }

  lemma {:induction false} EditsLast(hs: seq<Hunk>, h: Hunk)
    ensures EditsOf(hs + [h]) == EditsOf(hs) + [Edit(h.a, h.b, h.d - h.c + 1)]
  {
    if hs == [] {
      assert hs + [h] == [h];
    } else {
      assert (hs + [h])[1..] == hs[1..] + [h];
      EditsLast(hs[1..], h);
    }
  }

  lemma {:induction false} EditsReversed(hs: seq<Hunk>)
    ensures EditsOf(Reverse(hs)) == Reverse(EditsOf(hs))
  {
    if hs != [] {
      EditsReversed(hs[1..]);
      EditsLast(Reverse(hs[1..]), hs[0]);
      assert EditsOf(hs)[1..] == EditsOf(hs[1..]);
    }
  }

  /** The hunks of a whole script: its edits, first one first. */
  function HunksIn(script: seq<string>): Option<seq<Hunk>> {
    var r := Edits(script);
    if r.None? then None else Some(Located(Reverse(r.value), 0))
  }

  lemma EdHunks(hs: seq<Hunk>, A: seq<string>, B: seq<string>)
    requires Covers(hs, 0, 0, A, B) && AllFit(Reverse(hs), |A|, |B|)
    ensures HunksIn(Script(Ed, Reverse(hs), A, B)) == Some(hs)
  {
    hide Script, Covers, EditsOf;
    EdNames(hs, 0, 0, A, B, []);
    Sequences.Whole(Script(Ed, Reverse(hs), A, B));
    Sequences.Whole(EditsOf(Reverse(hs)));
    EditsReversed(hs);
    ReverseTwice(EditsOf(hs));
    LocatedHunks(hs, 0, 0, A, B);
  }
}
