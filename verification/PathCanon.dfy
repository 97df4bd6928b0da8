/** canonicalize_pathname_custom, with all flags, on paths without ':': several passes that edit the
    NUL-terminated buffer in place. Every pass keeps the meaning of the path and removes one kind of clutter. */
module PathCanon {
  import opened PathMeaning
  import Sequences

  const NUL: char := '\0'

  /** From offset off on, the buffer holds the string t and its terminator. */
  ghost predicate Holds(buf: seq<char>, off: nat, t: string) {
    && off + |t| < |buf|
    && buf[off..off + |t|] == t
    && buf[off + |t|] == NUL
    && NUL !in t
  }

  /** The text of t without the characters i..j. */
  function Cut(t: string, i: nat, j: nat): string
    requires i <= j <= |t|
  {
    t[..i] + t[j..]
  }

  lemma HoldsAt(buf: seq<char>, off: nat, t: string, i: nat)
    requires Holds(buf, off, t) && i <= |t|
    ensures off + i < |buf| && buf[off + i] == if i < |t| then t[i] else NUL
    ensures i < |t| ==> buf[off + i] != NUL
  {
    assert i < |t| ==> t[i] == buf[off..off + |t|][i];
  }

  /** strlen */
  method StrLen(buf: array<char>, off: nat, ghost t: string) returns (n: nat)
    requires Holds(buf[..], off, t)
    ensures n == |t|
  {
    n := 0;
    HoldsAt(buf[..], off, t, 0);
    while buf[off + n] != NUL
      invariant n <= |t| && off + n < buf.Length && buf[off + n] == if n < |t| then t[n] else NUL
      decreases |t| - n
    {
      n := n + 1;
      HoldsAt(buf[..], off, t, n);
    }
    HoldsAt(buf[..], off, t, n);
  }

  /** str_move(path + i, path + j): the tail from j, terminator included, moves down to i. */
  method StrMove(buf: array<char>, off: nat, i: nat, j: nat, ghost t: string)
    requires Holds(buf[..], off, t) && i <= j <= |t|
    modifies buf
    ensures Holds(buf[..], off, Cut(t, i, j))
    ensures buf[..off] == old(buf[..off])
  {
    HoldsTail(buf[..], off, t, j);
    var n := StrLen(buf, off + j, t[j..]);
    var k := 0;
    while k <= n
      invariant 0 <= k <= n + 1
      invariant forall x :: 0 <= x < off + i ==> buf[x] == old(buf[x])
      invariant forall y :: off + i <= y < off + i + k ==> buf[y] == old(buf[y - i + j])
      invariant forall x :: off + j + k <= x < buf.Length ==> buf[x] == old(buf[x])
    {
      buf[off + i + k] := buf[off + j + k];
      k := k + 1;
    }
    HoldsCut(old(buf[..]), buf[..], off, t, i, j);
  }

  lemma HoldsTail(buf: seq<char>, off: nat, t: string, j: nat)
    requires Holds(buf, off, t) && j <= |t|
    ensures Holds(buf, off + j, t[j..])
  {
    assert buf[off + j..off + |t|] == buf[off..off + |t|][j..];
  }

  lemma HoldsCut(buf: seq<char>, buf': seq<char>, off: nat, t: string, i: nat, j: nat)
    requires Holds(buf, off, t) && i <= j <= |t| && |buf'| == |buf|
    requires forall x :: 0 <= x < off + i ==> buf'[x] == buf[x]
    requires forall y :: off + i <= y <= off + i + |t| - j ==> buf'[y] == buf[y - i + j]
    ensures Holds(buf', off, Cut(t, i, j)) && buf'[..off] == buf[..off]
  {
    var u := Cut(t, i, j);
    forall x | 0 <= x < |u| ensures buf'[off + x] == u[x] {
      if x < i {
        HoldsAt(buf, off, t, x);
      } else {
        HoldsAt(buf, off, t, x - i + j);
      }
    }
    assert buf'[off..off + |u|] == u;
    assert buf'[off + |u|] == buf[off + |t|];
  }

  /** *p = '\0' */
  method Terminate(buf: array<char>, off: nat, n: nat, ghost t: string)
    requires Holds(buf[..], off, t) && n <= |t|
    modifies buf
    ensures Holds(buf[..], off, t[..n])
    ensures buf[..off] == old(buf[..off])
  {
    ghost var was := buf[..];
    buf[off + n] := NUL;
    assert buf[..][off..off + n] == was[off..off + |t|][..n];
  }

  // ---------------------------------------------------------------- what the passes remove

  predicate SlashAt(t: string, q: nat) { q < |t| && t[q] == SEP }

  /** "//" at q. */
  predicate DoubleAt(t: string, q: nat) { SlashAt(t, q) && SlashAt(t, q + 1) }

  /** "/./" at q. */
  predicate DotAt(t: string, q: nat) { q + 2 < |t| && t[q] == SEP && t[q + 1] == '.' && t[q + 2] == SEP }

  ghost predicate NoDoubleTo(t: string, p: nat) { forall q: nat :: q < p ==> !DoubleAt(t, q) }
  ghost predicate NoDotTo(t: string, p: nat) { forall q: nat :: q < p ==> !DotAt(t, q) }
  ghost predicate NoDouble(t: string) { forall q: nat :: !DoubleAt(t, q) }
  ghost predicate NoDot(t: string) { forall q: nat :: !DotAt(t, q) }

  /** Dropping the second of two separators keeps the meaning. */
  lemma {:induction false} DropSlash(t: string, p: nat)
    requires DoubleAt(t, p)
    ensures Meaning(Cut(t, p + 1, p + 2)) == Meaning(t)
  {
    var x, z := t[..p], t[p + 2..];
    var abs := Absolute(t);
    assert t == x + [SEP] + ([SEP] + z);
    assert [SEP] + z == "" + [SEP] + z;
    assert Cut(t, p + 1, p + 2) == x + [SEP] + z;
    WalkSplit(abs, [], x, [SEP] + z);
    WalkSplit(abs, Walk(abs, [], x), "", z);
    WalkOne(abs, Walk(abs, [], x), "");
    WalkSplit(abs, [], x, z);
  }

  lemma {:induction false} DropSlashes(t: string, p: nat, s: nat)
    requires p + 1 < s <= |t| && t[p] == SEP && forall x :: p < x < s ==> t[x] == SEP
    ensures Meaning(Cut(t, p + 1, s)) == Meaning(t)
    decreases s
  {
    if s == p + 2 {
      DropSlash(t, p);
    } else {
      DropSlashes(t, p, s - 1);
      var u := Cut(t, p + 1, s - 1);
      DropSlash(u, p);
      assert Cut(u, p + 1, p + 2) == Cut(t, p + 1, s);
    }
  }

  /** "/./" means "/". */
  lemma {:induction false} DropDot(t: string, p: nat)
    requires DotAt(t, p)
    ensures Meaning(Cut(t, p, p + 2)) == Meaning(t)
  {
    var x, z := t[..p], t[p + 3..];
    var abs := Absolute(t);
    assert t == x + [SEP] + ("." + [SEP] + z);
    assert Cut(t, p, p + 2) == x + [SEP] + z;
    WalkSplit(abs, [], x, "." + [SEP] + z);
    WalkSplit(abs, Walk(abs, [], x), ".", z);
    WalkOne(abs, Walk(abs, [], x), ".");
    WalkSplit(abs, [], x, z);
  }

  // ---------------------------------------------------------------- the passes

  /** The first character after the run of separators at p. */
  method SkipSlashes(buf: array<char>, off: nat, p: nat, ghost t: string) returns (s: nat)
    requires Holds(buf[..], off, t) && DoubleAt(t, p)
    ensures p + 2 <= s <= |t| && (s == |t| || t[s] != SEP)
    ensures forall x :: p <= x < s ==> t[x] == SEP
  {
    hide Holds;
    s := p + 2;
    HoldsAt(buf[..], off, t, s);
    while buf[off + s] == SEP
      invariant p + 2 <= s <= |t|
      invariant off + s < buf.Length && buf[off + s] == if s < |t| then t[s] else NUL
      invariant forall x :: p <= x < s ==> t[x] == SEP
      decreases |t| - s
    {
      s := s + 1;
      HoldsAt(buf[..], off, t, s);
    }
  }

  /** Collapse multiple slashes. */
  method JoinSlashes(buf: array<char>, off: nat, ghost t: string) returns (ghost t': string)
    requires Holds(buf[..], off, t) && t != ""
    modifies buf
    ensures Holds(buf[..], off, t') && buf[..off] == old(buf[..off])
    ensures Meaning(t') == Meaning(t) && NoDouble(t') && 0 < |t'| <= |t|
  {
    hide Holds, Meaning;
    t' := t;
    var p := 0;
    HoldsAt(buf[..], off, t', 0);
    while buf[off + p] != NUL
      invariant Holds(buf[..], off, t') && buf[..off] == old(buf[..off])
      invariant p <= |t'| && 0 < |t'| <= |t|
      invariant off + p < buf.Length && buf[off + p] == if p < |t'| then t'[p] else NUL
      invariant p < |t'| ==> buf[off + p] != NUL
      invariant Meaning(t') == Meaning(t)
      invariant NoDoubleTo(t', p)
      decreases |t'| - p
    {
      HoldsAt(buf[..], off, t', p + 1);
      if buf[off + p] == SEP && buf[off + p + 1] == SEP {
        var s := SkipSlashes(buf, off, p, t');
        DropSlashes(t', p, s);
        StrMove(buf, off, p + 1, s, t');
        CutSlashes(t', p, s);
        t' := Cut(t', p + 1, s);
      }
      p := p + 1;
      HoldsAt(buf[..], off, t', p);
    }
    HoldsAt(buf[..], off, t', p);
  }

  lemma CutSlashes(t: string, p: nat, s: nat)
    requires p + 1 < s <= |t| && t[p] == SEP && (s == |t| || t[s] != SEP)
    requires NoDoubleTo(t, p)
    ensures NoDoubleTo(Cut(t, p + 1, s), p + 1)
  {
    var u := Cut(t, p + 1, s);
    forall q: nat | q < p + 1 ensures !DoubleAt(u, q) {
      assert q < p ==> !DoubleAt(t, q);
    }
  }

  /** Collapse "/./" to "/". */
  method JoinDots(buf: array<char>, off: nat, ghost t: string) returns (ghost t': string)
    requires Holds(buf[..], off, t) && NoDouble(t) && t != ""
    modifies buf
    ensures Holds(buf[..], off, t') && buf[..off] == old(buf[..off])
    ensures Meaning(t') == Meaning(t) && NoDouble(t') && NoDot(t') && 0 < |t'| <= |t|
  {
    hide Holds, Meaning;
    t' := t;
    var p := 0;
    HoldsAt(buf[..], off, t', 0);
    while buf[off + p] != NUL
      invariant Holds(buf[..], off, t') && buf[..off] == old(buf[..off])
      invariant p <= |t'| && 0 < |t'| <= |t|
      invariant off + p < buf.Length && buf[off + p] == if p < |t'| then t'[p] else NUL
      invariant p < |t'| ==> buf[off + p] != NUL
      invariant Meaning(t') == Meaning(t) && NoDouble(t')
      invariant NoDotTo(t', p)
      decreases |t'| - p, |t'|
    {
      HoldsAt(buf[..], off, t', p + 1);
      if p + 2 <= |t'| {
        HoldsAt(buf[..], off, t', p + 2);
      }
      if buf[off + p] == SEP && buf[off + p + 1] == '.' && buf[off + p + 2] == SEP {
        DropDot(t', p);
        StrMove(buf, off, p, p + 2, t');
        CutDot(t', p);
        t' := Cut(t', p, p + 2);
      } else {
        p := p + 1;
      }
      HoldsAt(buf[..], off, t', p);
    }
    HoldsAt(buf[..], off, t', p);
  }

  lemma CutDot(t: string, p: nat)
    requires DotAt(t, p) && NoDouble(t)
    requires NoDotTo(t, p)
    ensures NoDouble(Cut(t, p, p + 2))
    ensures NoDotTo(Cut(t, p, p + 2), p)
  {
    var u := Cut(t, p, p + 2);
    forall q: nat ensures !DoubleAt(u, q) {
      assert !DoubleAt(t, q) && !DoubleAt(t, q + 2);
      assert p > 0 ==> !DoubleAt(t, p - 1);
    }
    forall q: nat | q < p ensures !DotAt(u, q) {
      assert !DotAt(t, q);
      assert p > 0 ==> !DoubleAt(t, p - 1);
    }
  }

  // ---------------------------------------------------------------- trailing slashes, leading "./", trailing "/."

  predicate NoTrailing(t: string) { |t| <= 1 || t[|t| - 1] != SEP }
  predicate NoLeadingDot(t: string) { !(|t| >= 2 && t[0] == '.' && t[1] == SEP) }
  predicate NoTrailingDot(t: string) { !(|t| >= 2 && t[|t| - 1] == '.' && t[|t| - 2] == SEP) }

  lemma ShorterClean(t: string, n: nat)
    requires NoDouble(t) && NoDot(t) && n <= |t|
    ensures NoDouble(t[..n]) && NoDot(t[..n])
  {
    forall q: nat ensures !DoubleAt(t[..n], q) && !DotAt(t[..n], q) {
      assert !DoubleAt(t, q) && !DotAt(t, q);
    }
  }

  lemma LaterClean(t: string, n: nat)
    requires NoDouble(t) && NoDot(t) && n <= |t|
    ensures NoDouble(t[n..]) && NoDot(t[n..])
  {
    forall q: nat ensures !DoubleAt(t[n..], q) && !DotAt(t[n..], q) {
      assert !DoubleAt(t, q + n) && !DotAt(t, q + n);
    }
  }

  lemma DropTrailing(t: string)
    requires |t| >= 2 && t[|t| - 1] == SEP
    ensures Meaning(t[..|t| - 1]) == Meaning(t)
  {
    var x, abs := t[..|t| - 1], Absolute(t);
    assert t == x + [SEP] + "";
    WalkSplit(abs, [], x, "");
    WalkOne(abs, Walk(abs, [], x), "");
  }

  lemma DropTrailingDot(t: string)
    requires |t| >= 3 && t[|t| - 1] == '.' && t[|t| - 2] == SEP
    ensures Meaning(t[..|t| - 2]) == Meaning(t)
  {
    var x, abs := t[..|t| - 2], Absolute(t);
    assert t == x + [SEP] + ".";
    WalkSplit(abs, [], x, ".");
    WalkOne(abs, Walk(abs, [], x), ".");
  }

  lemma DropLeadingDot(t: string)
    requires |t| >= 2 && t[0] == '.' && t[1] == SEP && NoDouble(t)
    ensures |t| > 2 ==> Meaning(t[2..]) == Meaning(t)
    ensures |t| == 2 ==> Meaning(t[..1]) == Meaning(t)
  {
    assert t == "." + [SEP] + t[2..];
    assert !DoubleAt(t, 1);
    WalkSplit(false, [], ".", t[2..]);
    WalkOne(false, [], ".");
    if |t| == 2 {
      WalkOne(false, [], "");
      assert t[..1] == ".";
    }
  }

  lemma SlashDotMeans()
    ensures Meaning("/.") == Meaning("/") == (true, [])
  {
    assert "/." == "" + [SEP] + "." && "/" == "" + [SEP] + "";
    WalkSplit(true, [], "", ".");
    WalkSplit(true, [], "", "");
    WalkOne(true, [], "");
    WalkOne(true, [], ".");
  }

  /** Remove trailing slashes. */
  method TrimTrailing(buf: array<char>, off: nat, ghost t: string) returns (ghost t': string)
    requires Holds(buf[..], off, t) && NoDouble(t) && NoDot(t) && t != ""
    modifies buf
    ensures Holds(buf[..], off, t') && buf[..off] == old(buf[..off])
    ensures Meaning(t') == Meaning(t) && NoDouble(t') && NoDot(t') && NoTrailing(t') && 0 < |t'| <= |t|
  {
    hide Holds, Meaning, NoDouble, NoDot;
    t' := t;
    var n := StrLen(buf, off, t);
    var p := n - 1;
    HoldsAt(buf[..], off, t', p);
    while p > 0 && buf[off + p] == SEP
      invariant Holds(buf[..], off, t') && buf[..off] == old(buf[..off])
      invariant 0 <= p == |t'| - 1 && off + p < buf.Length && buf[off + p] == t'[p]
      invariant Meaning(t') == Meaning(t) && NoDouble(t') && NoDot(t') && 0 < |t'| <= |t|
      decreases p
    {
      DropTrailing(t');
      ShorterClean(t', p);
      Terminate(buf, off, p, t');
      t' := t'[..p];
      p := p - 1;
      HoldsAt(buf[..], off, t', p);
    }
  }

  /** Remove a leading "./"; done when nothing else is left of the path. */
  method TrimLeading(buf: array<char>, off: nat, ghost t: string) returns (done: bool, ghost t': string)
    requires Holds(buf[..], off, t) && NoDouble(t) && NoDot(t) && t != ""
    modifies buf
    ensures Holds(buf[..], off, t') && buf[..off] == old(buf[..off])
    ensures Meaning(t') == Meaning(t) && NoDouble(t') && NoDot(t') && NoLeadingDot(t') && 0 < |t'| <= |t|
    ensures done ==> |t'| == 1
    ensures NoTrailing(t) ==> NoTrailing(t')
  {
    hide Holds, Meaning, NoDouble, NoDot;
    t', done := t, false;
    HoldsAt(buf[..], off, t, 0);
    HoldsAt(buf[..], off, t, 1);
    if buf[off] == '.' && buf[off + 1] == SEP {
      HoldsAt(buf[..], off, t, 2);
      DropLeadingDot(t);
      LaterClean(t, 2);
      ShorterClean(t, 1);
      if buf[off + 2] == NUL {
        Terminate(buf, off, 1, t);
        t', done := t[..1], true;
      } else {
        StrMove(buf, off, 0, 2, t);
        t' := t[2..];
        assert Cut(t, 0, 2) == t';
        SecondDot(t);
      }
    }
  }

  lemma SecondDot(t: string)
    requires NoDot(t) && |t| > 2 && t[1] == SEP
    ensures NoLeadingDot(t[2..])
  {
    assert !DotAt(t, 1);
  }

  /** Remove a trailing "/" or "/."; done when the path is down to one character. */
  method TrimTrailingDot(buf: array<char>, off: nat, ghost t: string) returns (done: bool, ghost t': string)
    requires Holds(buf[..], off, t) && NoDouble(t) && NoDot(t) && NoLeadingDot(t) && t != ""
    modifies buf
    ensures Holds(buf[..], off, t') && buf[..off] == old(buf[..off])
    ensures Meaning(t') == Meaning(t) && NoDouble(t') && NoDot(t') && NoLeadingDot(t') && 0 < |t'| <= |t|
    ensures done ==> |t'| == 1
    ensures NoTrailing(t) && !done ==> |t'| >= 1 && NoTrailing(t') && NoTrailingDot(t')
  {
    hide Holds, Meaning, NoDouble, NoDot;
    t', done := t, false;
    var len := StrLen(buf, off, t);
    if len < 2 {
      done := true;
      return;
    }
    HoldsAt(buf[..], off, t, len - 1);
    HoldsAt(buf[..], off, t, len - 2);
    if buf[off + len - 1] == SEP {
      DropTrailing(t);
      ShorterClean(t, len - 1);
      Terminate(buf, off, len - 1, t);
      t' := t[..len - 1];
    } else if buf[off + len - 1] == '.' && buf[off + len - 2] == SEP {
      if len == 2 {
        assert t == "/." && t[..1] == "/";
        SlashDotMeans();
        ShorterClean(t, 1);
        Terminate(buf, off, 1, t);
        t', done := t[..1], true;
      } else {
        DropTrailingDot(t);
        ShorterClean(t, len - 2);
        BeforeTrailingDot(t);
        Terminate(buf, off, len - 2, t);
        t' := t[..len - 2];
      }
    }
  }

  lemma BeforeTrailingDot(t: string)
    requires NoDouble(t) && NoDot(t) && |t| >= 3 && t[|t| - 1] == '.' && t[|t| - 2] == SEP
    ensures NoTrailing(t[..|t| - 2]) && NoTrailingDot(t[..|t| - 2])
  {
    assert !DoubleAt(t, |t| - 3);
    assert |t| >= 4 ==> !DotAt(t, |t| - 4);
  }

  // ---------------------------------------------------------------- "/.."

  /** A path after the first two groups of passes: no empty and no "." components. */
  ghost predicate Tidy(t: string) {
    t != "" && NoDouble(t) && NoDot(t) && NoTrailing(t) && NoLeadingDot(t) && NoTrailingDot(t)
  }

  /** "/.." at p, as a whole component. */
  predicate Pattern(t: string, p: nat) {
    p + 2 < |t| && t[p] == SEP && t[p + 1] == '.' && t[p + 2] == '.' && (p + 3 == |t| || t[p + 3] == SEP)
  }

  /** Where the component that ends before p starts. */
  function TokenStart(t: string, p: nat): (s: nat)
    requires p <= |t|
    ensures s <= p && SEP !in t[s..p] && (s == 0 || t[s - 1] == SEP)
  {
    if p == 0 || t[p - 1] == SEP then p
    else
      var s := TokenStart(t, p - 1);
      assert t[s..p] == t[s..p - 1] + [t[p - 1]];
      s
  }

  predicate AfterDots(t: string, p: nat)
    requires p <= |t|
  {
    t[TokenStart(t, p)..p] == ".."
  }

  /** A ".." that would take back the component before it. */
  predicate Collapsible(t: string, p: nat) {
    Pattern(t, p) && !AfterDots(t, p)
  }

  ghost predicate SettledTo(t: string, p: nat) { forall q: nat :: q < p ==> !Collapsible(t, q) }

  lemma {:induction false} TokenStartPrefix(t: string, u: string, p: nat)
    requires p <= |t| && p <= |u| && t[..p] == u[..p]
    ensures TokenStart(t, p) == TokenStart(u, p)
  {
    if p > 0 {
      assert t[..p][p - 1] == u[..p][p - 1];
      assert t[..p - 1] == t[..p][..p - 1] && u[..p - 1] == u[..p][..p - 1];
      TokenStartPrefix(t, u, p - 1);
    }
  }

  lemma LastOfSlice(t: string, i: nat, p: nat)
    requires i < p <= |t| && SEP !in t[i..p]
    ensures t[p - 1] != SEP && SEP !in t[i..p - 1]
  {
    assert t[i..p] == t[i..p - 1] + [t[p - 1]];
    assert t[p - 1] in t[i..p];
  }

  lemma {:induction false} TokenStartIs(t: string, i: nat, p: nat)
    requires i <= p <= |t| && SEP !in t[i..p] && (i == 0 || t[i - 1] == SEP)
    ensures TokenStart(t, p) == i
  {
    if i < p {
      LastOfSlice(t, i, p);
      TokenStartIs(t, i, p - 1);
    }
  }

  /** Looking at u instead of t makes no difference for a ".." that ends before they part, or exactly where
      u ends and t has a separator. */
  lemma CollapsibleSame(t: string, u: string, q: nat, n: nat)
    requires n <= |t| && n <= |u| && t[..n] == u[..n] && Collapsible(u, q) && q + 3 <= n
    requires q + 3 < n || (n == |u| && (n == |t| || t[n] == SEP)) || (n < |t| && n < |u| && t[n] == u[n])
    ensures Collapsible(t, q)
  {
    assert forall x :: 0 <= x < n ==> t[x] == t[..n][x] == u[x];
    assert t[..q] == t[..n][..q] && u[..q] == u[..n][..q];
    TokenStartPrefix(t, u, q);
    assert t[TokenStart(t, q)..q] == t[..q][TokenStart(t, q)..] && u[TokenStart(t, q)..q] == u[..q][TokenStart(t, q)..];
  }

  // "token/../foo" -> "foo"

  lemma {:induction false} PopMeaning(t: string, s: nat, p: nat)
    requires Tidy(t) && Pattern(t, p) && p + 3 < |t| && s == TokenStart(t, p) && s < p && t[s..p] != ".."
    ensures Meaning(Cut(t, s, p + 4)) == Meaning(t)
  {
    hide Walk, TokenStart;
    var abs, token, y := Absolute(t), t[s..p], t[p + 4..];
    assert !DoubleAt(t, p + 3) && y != "";
    TokenIsName(t, s, p);
    PopToken(abs, token, y);
    if s == 0 {
      assert t == token + [SEP] + (".." + [SEP] + y);
      assert Cut(t, 0, p + 4) == y;
      assert t[0] == token[0] && token[0] in token;
    } else {
      var x := t[..s - 1];
      assert t == x + [SEP] + (token + [SEP] + (".." + [SEP] + y));
      assert Cut(t, s, p + 4) == x + [SEP] + y;
      WalkSplit(abs, [], x, token + [SEP] + (".." + [SEP] + y));
      WalkSplit(abs, [], x, y);
    }
  }

  lemma TokenIsName(t: string, s: nat, p: nat)
    requires Tidy(t) && p < |t| && t[p] == SEP && s == TokenStart(t, p) && s < p
    ensures t[s..p] != "" && t[s..p] != "." && SEP !in t[s..p]
  {
    var token := t[s..p];
    assert token[0] == t[s] && |token| == p - s;
    NotDot(t, s);
    assert p == s + 1 ==> token == [t[s]];
  }

  lemma NotDot(t: string, s: nat)
    requires Tidy(t) && s + 1 < |t| && (s == 0 || t[s - 1] == SEP)
    ensures !(t[s] == '.' && t[s + 1] == SEP)
  {
    assert s > 0 ==> !DotAt(t, s - 1);
  }

  /** A name followed by ".." leaves the stack as it was. */
  lemma {:induction false} PopToken(abs: bool, token: string, y: string)
    requires SEP !in token && token != "" && token != "." && token != ".."
    ensures forall st :: Walk(abs, st, token + [SEP] + (".." + [SEP] + y)) == Walk(abs, st, y)
    ensures forall st :: Walk(abs, st, token + [SEP] + "..") == st
  {
    forall st ensures Walk(abs, st, token + [SEP] + (".." + [SEP] + y)) == Walk(abs, st, y) {
      WalkSplit(abs, st, token, ".." + [SEP] + y);
      WalkOne(abs, st, token);
      WalkSplit(abs, st + [token], "..", y);
      WalkOne(abs, st + [token], "..");
      assert (st + [token])[..|st|] == st;
    }
    forall st ensures Walk(abs, st, token + [SEP] + "..") == st {
      WalkSplit(abs, st, token, "..");
      WalkOne(abs, st, token);
      WalkOne(abs, st + [token], "..");
      assert (st + [token])[..|st|] == st;
    }
  }

  lemma PopTidy(t: string, s: nat, p: nat)
    requires Tidy(t) && Pattern(t, p) && p + 3 < |t| && s == TokenStart(t, p) && s < p
    ensures Tidy(Cut(t, s, p + 4))
  {
    var u := Cut(t, s, p + 4);
    assert !DoubleAt(t, p + 3) && !DotAt(t, p + 3);
    forall q: nat ensures !DoubleAt(u, q) && !DotAt(u, q) {
      assert !DoubleAt(t, q) && !DotAt(t, q);
      assert q + 1 >= s ==> !DoubleAt(t, q - s + p + 4) && !DotAt(t, q - s + p + 4);
    }
  }

  lemma PopSettled(t: string, s: nat, p: nat)
    requires Pattern(t, p) && p + 3 < |t| && s == TokenStart(t, p) && s < p && SettledTo(t, p)
    ensures SettledTo(Cut(t, s, p + 4), if s > 0 then s - 1 else s)
  {
    var u := Cut(t, s, p + 4);
    forall q: nat | q + 1 < s ensures !Collapsible(u, q) {
      if Collapsible(u, q) {
        assert u[..s] == t[..s];
        CollapsibleSame(t, u, q, s);
      }
    }
  }

  // "/../foo" -> "/foo"

  lemma {:induction false} RootMeaning(t: string)
    requires Pattern(t, 0)
    ensures |t| > 3 ==> Meaning(Cut(t, 1, 4)) == Meaning(t)
    ensures |t| == 3 ==> Meaning("/") == Meaning(t)
  {
    hide Walk;
    assert t == "" + [SEP] + t[1..] && "/" == "" + [SEP] + "";
    WalkSplit(true, [], "", t[1..]);
    WalkOne(true, [], "");
    if |t| == 3 {
      assert t[1..] == "..";
      WalkSplit(true, [], "", "");
      WalkOne(true, [], "..");
    } else {
      assert t[1..] == ".." + [SEP] + t[4..];
      WalkSplit(true, [], "..", t[4..]);
      WalkOne(true, [], "..");
      assert Cut(t, 1, 4) == "" + [SEP] + t[4..];
      WalkSplit(true, [], "", t[4..]);
    }
  }

  lemma RootTidy(t: string)
    requires Tidy(t) && Pattern(t, 0) && |t| > 3
    ensures Tidy(Cut(t, 1, 4))
  {
    assert Cut(t, 1, 4) == t[3..];
    LaterClean(t, 3);
  }

  // trailing ".."

  lemma {:induction false} LastMeaning(t: string, s: nat, p: nat)
    requires Tidy(t) && Pattern(t, p) && p + 3 == |t| && s == TokenStart(t, p) && s < p && t[s..p] != ".."
    ensures s == 0 ==> Meaning(".") == Meaning(t)
    ensures s == 1 ==> Meaning(t[..1]) == Meaning(t)
    ensures s > 1 ==> Meaning(t[..s - 1]) == Meaning(t)
  {
    hide Walk, TokenStart;
    var abs, token := Absolute(t), t[s..p];
    TokenIsName(t, s, p);
    PopToken(abs, token, "");
    if s == 0 {
      assert t == token + [SEP] + "..";
      assert t[0] == token[0] && token[0] in token;
      WalkOne(false, [], ".");
    } else {
      var x := t[..s - 1];
      assert t == x + [SEP] + (token + [SEP] + "..");
      WalkSplit(abs, [], x, token + [SEP] + "..");
      if s == 1 {
        assert t[..1] == "" + [SEP] + "";
        WalkSplit(abs, [], "", "");
        WalkOne(abs, [], "");
      }
    }
  }

  lemma LastTidy(t: string, s: nat)
    requires Tidy(t) && 2 <= s < |t| && t[s - 1] == SEP
    ensures Tidy(t[..s - 1])
  {
    ShorterClean(t, s - 1);
    assert !DoubleAt(t, s - 2);
    assert s >= 3 ==> !DotAt(t, s - 3);
  }

  lemma LastSettled(t: string, s: nat, p: nat)
    requires 2 <= s <= p < |t| && t[s - 1] == SEP && SettledTo(t, p)
    ensures SettledTo(t[..s - 1], |t|)
  {
    var u := t[..s - 1];
    forall q: nat | q < |t| ensures !Collapsible(u, q) {
      if Collapsible(u, q) {
        CollapsibleSame(t, u, q, s - 1);
      }
    }
  }

  /** Search for the previous token: from p - 1 back to the separator before it. */
  method PreviousToken(buf: array<char>, off: nat, p: nat, ghost t: string) returns (s: nat)
    requires Holds(buf[..], off, t) && p < |t|
    ensures s == TokenStart(t, p)
  {
    hide Holds;
    var q: int := p - 1;
    if q >= 0 {
      HoldsAt(buf[..], off, t, q);
    }
    while q >= 0 && buf[off + q] != SEP
      invariant -1 <= q < p && TokenStart(t, p) == TokenStart(t, q + 1)
      invariant q >= 0 ==> off + q < buf.Length && buf[off + q] == t[q]
    {
      q := q - 1;
      if q >= 0 {
        HoldsAt(buf[..], off, t, q);
      }
    }
    s := q + 1;
  }

  /** Whether "/.." stands at p, as a whole component. */
  method IsPattern(buf: array<char>, off: nat, p: nat, ghost t: string) returns (yes: bool)
    requires Holds(buf[..], off, t) && p + 2 < |t|
    ensures yes == Pattern(t, p)
  {
    hide Holds;
    HoldsAt(buf[..], off, t, p);
    HoldsAt(buf[..], off, t, p + 1);
    HoldsAt(buf[..], off, t, p + 2);
    HoldsAt(buf[..], off, t, p + 3);
    yes := !(buf[off + p] != SEP || buf[off + p + 1] != '.' || buf[off + p + 2] != '.'
             || (buf[off + p + 3] != SEP && buf[off + p + 3] != NUL));
  }

  /** Nothing left to collapse. */
  ghost predicate Settled(t: string) {
    |t| == 1 || (Tidy(t) && SettledTo(t, |t|))
  }

  /** "token/../foo" -> "foo", "/../foo" -> "/foo". */
  method TakeBack(buf: array<char>, off: nat, s: nat, p: nat, ghost t: string) returns (p': nat, ghost t': string)
    requires Holds(buf[..], off, t) && Tidy(t) && SettledTo(t, p)
    requires Collapsible(t, p) && p + 3 < |t| && s == TokenStart(t, p)
    modifies buf
    ensures Holds(buf[..], off, t') && buf[..off] == old(buf[..off])
    ensures Meaning(t') == Meaning(t) && Tidy(t') && SettledTo(t', p') && p' <= |t'| < |t|
  {
    hide Holds, Meaning, Tidy, SettledTo;
    HoldsAt(buf[..], off, t, s);
    TokenBefore(t, s, p);
    if s == 0 && buf[off + s] == SEP {
      RootMeaning(t);
      RootTidy(t);
      StrMove(buf, off, s + 1, p + 4, t);
      t' := Cut(t, 1, 4);
      NothingBefore(t');
    } else {
      PopMeaning(t, s, p);
      PopTidy(t, s, p);
      PopSettled(t, s, p);
      StrMove(buf, off, s, p + 4, t);
      t' := Cut(t, s, p + 4);
    }
    p' := if s > 0 then s - 1 else s;
  }

  lemma NothingBefore(t: string)
    ensures SettledTo(t, 0)
  {}

  /** The component before a ".." is empty only at the very front. */
  lemma TokenBefore(t: string, s: nat, p: nat)
    requires Tidy(t) && p < |t| && t[p] == SEP && s == TokenStart(t, p)
    ensures s == p <==> p == 0
    ensures s == 0 && t[0] == SEP ==> p == 0
  {
    assert s == p && p > 0 ==> DoubleAt(t, p - 1);
    assert s < p ==> t[s..p][0] == t[s];
  }

  /** "token/.." -> ".", "foo/token/.." -> "foo". */
  method TakeBackLast(buf: array<char>, off: nat, s: nat, p: nat, ghost t: string) returns (ghost t': string)
    requires Holds(buf[..], off, t) && Tidy(t) && SettledTo(t, p)
    requires Collapsible(t, p) && p + 3 == |t| && s == TokenStart(t, p)
    modifies buf
    ensures Holds(buf[..], off, t') && buf[..off] == old(buf[..off])
    ensures Meaning(t') == Meaning(t) && Settled(t') && 0 < |t'| < |t|
  {
    hide Holds, Meaning, Tidy, SettledTo;
    HoldsAt(buf[..], off, t, 0);
    TokenBefore(t, s, p);
    if s == 0 {
      if buf[off] != SEP {
        LastMeaning(t, s, p);
        HoldsPut(buf[..], off, t, '.');
        buf[off] := '.';
        Terminate(buf, off, 1, t[0 := '.']);
        t' := ".";
        assert t[0 := '.'][..1] == t';
      } else {
        RootMeaning(t);
        Terminate(buf, off, 1, t);
        t' := "/";
        assert t[..1] == t';
      }
    } else {
      LastMeaning(t, s, p);
      if s == 1 {
        Terminate(buf, off, s, t);
        t' := t[..1];
      } else {
        LastTidy(t, s);
        LastSettled(t, s, p);
        Terminate(buf, off, s - 1, t);
        t' := t[..s - 1];
        SettledSooner(t', |t|, |t'|);
      }
    }
  }

  lemma SettledSooner(t: string, m: nat, n: nat)
    requires SettledTo(t, m) && n <= m
    ensures SettledTo(t, n)
  {}

  lemma HoldsPut(buf: seq<char>, off: nat, t: string, c: char)
    requires Holds(buf, off, t) && t != "" && c != NUL
    ensures Holds(buf[off := c], off, t[0 := c])
    ensures buf[off := c][..off] == buf[..off]
  {
    assert buf[off := c][off..off + |t|] == t[0 := c];
  }

  lemma SettledStep(t: string, p: nat, p': nat)
    requires SettledTo(t, p) && p <= p'
    requires !Collapsible(t, p) && (p' <= p + 1 || (Pattern(t, p) && p' <= p + 3))
    ensures SettledTo(t, p')
  {
    forall q: nat | q < p' ensures !Collapsible(t, q) {
      if q > p {
        assert t[q] == '.';
      }
    }
  }

  lemma SettledEnd(t: string, p: nat)
    requires SettledTo(t, p) && p + 2 >= |t|
    ensures SettledTo(t, |t|)
  {
  }

  /** Collapse "/.." with the previous part of the path. */
  method Collapse(buf: array<char>, off: nat, ghost t: string) returns (ghost t': string)
    requires Holds(buf[..], off, t) && Tidy(t)
    modifies buf
    ensures Holds(buf[..], off, t') && buf[..off] == old(buf[..off])
    ensures Meaning(t') == Meaning(t) && Settled(t') && 0 < |t'| <= |t|
  {
    hide Holds, Meaning, Tidy, SettledTo;
    t' := t;
    var p := 0;
    NothingBefore(t);
    TidyNonempty(t);
    Ends(buf[..], off, t', 0);
    while buf[off + p] != NUL && buf[off + p + 1] != NUL && buf[off + p + 2] != NUL
      invariant Holds(buf[..], off, t') && buf[..off] == old(buf[..off])
      invariant Stops(buf[..], off, t', p) && 0 < |t'| <= |t|
      invariant Meaning(t') == Meaning(t) && Tidy(t') && SettledTo(t', p)
      decreases |t'|, |t'| - p
    {
      var dots := IsPattern(buf, off, p, t');
      if !dots {
        SettledStep(t', p, p + 1);
        p := p + 1;
      } else {
        var s := PreviousToken(buf, off, p, t');
        HoldsAt(buf[..], off, t', s);
        HoldsAt(buf[..], off, t', s + 1);
        DotsToken(t', s, p);
        HoldsAt(buf[..], off, t', p + 3);
        if buf[off + s] == '.' && buf[off + s + 1] == '.' && s + 2 == p {
          SettledStep(t', p, p + 3);
          p := p + 3;
        } else if buf[off + p + 3] != NUL {
          p, t' := TakeBack(buf, off, s, p, t');
          TidyNonempty(t');
        } else {
          t' := TakeBackLast(buf, off, s, p, t');
          return;
        }
      }
      Ends(buf[..], off, t', p);
    }
    SettledEnd(t', p);
  }

  lemma TidyNonempty(t: string)
    requires Tidy(t)
    ensures t != ""
  {}

  /** Reading from p on, the terminator comes at the end of t and no earlier. */
  ghost predicate Stops(buf: seq<char>, off: nat, t: string, p: nat) {
    && p <= |t| && off + |t| < |buf|
    && (buf[off + p] == NUL <==> p == |t|)
    && (p + 1 <= |t| ==> (buf[off + p + 1] == NUL <==> p + 1 == |t|))
    && (p + 2 <= |t| ==> (buf[off + p + 2] == NUL <==> p + 2 == |t|))
  }

  lemma Ends(buf: seq<char>, off: nat, t: string, p: nat)
    requires Holds(buf, off, t) && p <= |t|
    ensures Stops(buf, off, t, p)
  {
    HoldsAt(buf, off, t, p);
    if p + 1 <= |t| {
      HoldsAt(buf, off, t, p + 1);
    }
    if p + 2 <= |t| {
      HoldsAt(buf, off, t, p + 2);
    }
  }

  lemma DotsToken(t: string, s: nat, p: nat)
    requires p < |t| && s == TokenStart(t, p)
    ensures AfterDots(t, p) <==> s + 2 == p && t[s] == '.' && t[s + 1] == '.'
  {
    assert s + 2 == p ==> t[s..p] == [t[s], t[s + 1]];
  }

  // ---------------------------------------------------------------- a settled path is its own normal form

  /** The text between the separators. */
  function Components(s: string): (cs: seq<string>)
    ensures cs != []
    decreases |s|
  {
    var k := Slash(s);
    if k == |s| then [s] else [s[..k]] + Components(s[k + 1..])
  }

  lemma JoinMore(c: string, cs: seq<string>)
    requires cs != []
    ensures Join([c] + cs) == c + [SEP] + Join(cs)
  {
    assert ([c] + cs)[1..] == cs;
  }

  lemma JoinOne(s: string)
    ensures Join([s]) == s
  {}

  lemma ComponentsIs(s: string)
    ensures var k := Slash(s); Components(s) == if k == |s| then [s] else [s[..k]] + Components(s[k + 1..])
  {
    hide Slash;
  }

  lemma {:induction false} JoinComponents(s: string)
    ensures Join(Components(s)) == s
    decreases |s|
  {
    hide Components, Join;
    var k := Slash(s);
    ComponentsIs(s);
    if k < |s| {
      JoinComponents(s[k + 1..]);
      JoinMore(s[..k], Components(s[k + 1..]));
      assert s == s[..k] + [SEP] + s[k + 1..];
    } else {
      JoinOne(s);
    }
  }

  /** What the stack has on top when the walk reaches position i of a settled path. */
  ghost predicate OnTop(t: string, i: nat, st: seq<string>) {
    && i < |t| && (i == 0 || t[i - 1] == SEP)
    && (i == 0 ==> !Absolute(t))
    && (st == [] <==> i == if Absolute(t) then 1 else 0)
    && (st != [] ==> i > 0 && st[|st| - 1] == t[TokenStart(t, i - 1)..i - 1])
    && (Absolute(t) && st != [] ==> st[|st| - 1] != "..")
  }

  /** Each component of a settled path just stays on the stack. */
  lemma {:induction false} PushKeeps(t: string, i: nat, st: seq<string>)
    requires |t| > 1 && Tidy(t) && SettledTo(t, |t|) && OnTop(t, i, st)
    ensures var c := t[i..][..Slash(t[i..])];
      c != "" && Push(Absolute(t), st, c) == st + [c] && (Absolute(t) ==> c != "..")
  {
    var k := Slash(t[i..]);
    var c := t[i..][..k];
    assert c == t[i..i + k] && (i + k < |t| ==> t[i + k] == t[i..][k]);
    assert k == 0 && i > 0 ==> DoubleAt(t, i - 1);
    LoneDot(t, i, i + k);
    if c == ".." && i > 0 {
      assert t[i] == c[0] && t[i + 1] == c[1];
      assert Pattern(t, i - 1) && !Collapsible(t, i - 1);
    }
  }

  /** No component of a tidy path is a lone dot. */
  lemma LoneDot(t: string, i: nat, e: nat)
    requires Tidy(t) && |t| > 1 && i <= e <= |t| && (i == 0 || t[i - 1] == SEP) && (e == |t| || t[e] == SEP)
    ensures t[i..e] != "."
  {
    var c := t[i..e];
    assert e == i + 1 ==> c == [t[i]];
    if i + 1 < |t| {
      NotDot(t, i);
    }
  }

  lemma {:induction false} WalkKeeps(t: string, i: nat, st: seq<string>)
    requires |t| > 1 && Tidy(t) && SettledTo(t, |t|) && OnTop(t, i, st)
    requires i < |t|
    ensures Walk(Absolute(t), st, t[i..]) == st + Components(t[i..])
    decreases |t| - i
  {
    hide Tidy, SettledTo, OnTop, Push, TokenStart, Walk, Components;
    var k := Slash(t[i..]);
    var c := t[i..][..k];
    PushKeeps(t, i, st);
    if k < |t[i..]| {
      assert t[i..][k + 1..] == t[i + k + 1..];
      OnTopNext(t, i, st);
      InRange(t, i + k + 1, st + [c]);
      WalkKeeps(t, i + k + 1, st + [c]);
    }
    KeepOne(Absolute(t), st, t[i..]);
  }

  lemma InRange(t: string, i: nat, st: seq<string>)
    requires OnTop(t, i, st)
    ensures i < |t|
  {}

  lemma {:induction false} KeepOne(abs: bool, st: seq<string>, s: string)
    requires Push(abs, st, s[..Slash(s)]) == st + [s[..Slash(s)]]
    requires Slash(s) < |s| ==>
      Walk(abs, st + [s[..Slash(s)]], s[Slash(s) + 1..]) == st + [s[..Slash(s)]] + Components(s[Slash(s) + 1..])
    ensures Walk(abs, st, s) == st + Components(s)
  {
    hide Push;
    var k := Slash(s);
    if k < |s| {
      Sequences.Assoc(st, [s[..k]], Components(s[k + 1..]));
    } else {
      assert s[..k] == s;
    }
  }

  lemma OnTopNext(t: string, i: nat, st: seq<string>)
    requires |t| > 1 && Tidy(t) && OnTop(t, i, st)
    requires Slash(t[i..]) < |t[i..]|
    requires Absolute(t) ==> t[i..][..Slash(t[i..])] != ".."
    ensures OnTop(t, i + Slash(t[i..]) + 1, st + [t[i..][..Slash(t[i..])]])
  {
    hide Tidy;
    var p := i + Slash(t[i..]);
    assert t[i..][..p - i] == t[i..p] && t[i..][p - i] == t[p];
    NotAtEnd(t, p);
    TokenStartIs(t, i, p);
  }

  lemma NotAtEnd(t: string, p: nat)
    requires Tidy(t) && |t| > 1 && p < |t| && t[p] == SEP
    ensures p + 1 < |t|
  {}

  /** Nothing left to collapse: the path is its own normal form. */
  lemma {:induction false} SettledIsNormal(t: string)
    requires Settled(t)
    ensures Normalized(t) == t
  {
    if |t| == 1 {
      OneCharacter(t);
    } else if Absolute(t) {
      assert t == "" + [SEP] + t[1..];
      WalkSplit(true, [], "", t[1..]);
      WalkOne(true, [], "");
      WalkKeeps(t, 1, []);
      assert [] + Components(t[1..]) == Components(t[1..]);
      JoinComponents(t[1..]);
    } else {
      assert t[0..] == t;
      WalkKeeps(t, 0, []);
      assert [] + Components(t) == Components(t);
      JoinComponents(t);
    }
  }

  lemma OneCharacter(t: string)
    requires |t| == 1
    ensures Normalized(t) == t
  {
    if t[0] == SEP {
      assert t == "" + [SEP] + "";
      WalkSplit(true, [], "", "");
      WalkOne(true, [], "");
    } else {
      assert SEP !in t;
      WalkOne(false, [], t);
      assert t == "." <==> t[0] == '.';
    }
  }

  // ---------------------------------------------------------------- the whole path

  /** The length of a leading "//server", 0 if there is none. */
  function UncLength(s: string): (n: nat)
    ensures n < |s| || n == 0
    ensures n > 0 ==> s[n] == SEP
  {
    if |s| >= 2 && s[0] == SEP && s[1] == SEP then
      var k := Slash(s[2..]);
      if k > 0 && 2 + k < |s| then 2 + k else 0
    else 0
  }

  /** What the canonicalizer computes: the "//server" part as it is, the normal form of the rest. */
  function Canonical(s: string): string {
    if s == "" then "" else s[..UncLength(s)] + Normalized(s[UncLength(s)..])
  }

  /** The length of the "//server" part. */
  method ServerPart(path: array<char>, ghost s: string) returns (n: nat)
    requires Holds(path[..], 0, s)
    ensures n == UncLength(s)
  {
    hide Holds;
    n := 0;
    HoldsAt(path[..], 0, s, 0);
    if path[0] == SEP {
      HoldsAt(path[..], 0, s, 1);
      if path[1] == SEP {
        var p := 2;
        HoldsAt(path[..], 0, s, p);
        assert s[2..p] == "";
        while path[p] != NUL && path[p] != SEP
          invariant 2 <= p <= |s| && p < path.Length && path[p] == if p < |s| then s[p] else NUL
          invariant p < |s| ==> path[p] != NUL
          invariant SEP !in s[2..p]
          decreases |s| - p
        {
          assert s[2..p + 1] == s[2..p] + [s[p]];
          p := p + 1;
          HoldsAt(path[..], 0, s, p);
        }
        SlashIs(s[2..p], s[p..]);
        assert s[2..] == s[2..p] + s[p..];
        if path[p] == SEP && p > 2 {
          n := p;
        }
      }
    }
  }

  /** canonicalize_pathname_custom with all flags, on a path without ':'. */
  method Canonicalize(path: array<char>, ghost s: string)
    requires Holds(path[..], 0, s) && ':' !in s
    modifies path
    ensures Holds(path[..], 0, Canonical(s))
  {
    hide Holds, Meaning, Render, NoDouble, NoDot;
    var off := ServerPart(path, s);
    ghost var t := s[off..];
    HoldsTail(path[..], 0, s, off);
    HoldsAt(path[..], off, t, 0);
    ghost var was := path[..];
    if path[off] == NUL {
      assert s == "";
      return;
    }
    HoldsAt(path[..], off, t, 1);
    if path[off + 1] == NUL {
      OneCharacter(t);
      assert s == s[..off] + t;
      return;
    }
    t := JoinSlashes(path, off, t);
    t := JoinDots(path, off, t);
    t := TrimTrailing(path, off, t);
    var done;
    done, t := TrimLeading(path, off, t);
    if !done {
      done, t := TrimTrailingDot(path, off, t);
      if !done {
        t := Collapse(path, off, t);
      }
    }
    SettledIsNormal(t);
    HoldsAll(was, path[..], off, s, t);
  }

  lemma HoldsAll(was: seq<char>, buf: seq<char>, off: nat, s: string, t: string)
    requires Holds(was, 0, s) && off <= |s| && |buf| == |was| && buf[..off] == was[..off] && Holds(buf, off, t)
    ensures Holds(buf, 0, s[..off] + t)
  {
    var u := s[..off] + t;
    assert buf[0..|u|] == buf[..off] + buf[off..off + |t|];
    assert was[..off] == was[0..|s|][..off];
  }

  /** Canonicalizing twice is canonicalizing once, and the result is never longer than the path. */
  lemma {:induction false} CanonicalTwice(s: string)
    ensures Canonical(Canonical(s)) == Canonical(s)
    ensures |Canonical(s)| <= |s|
  {
    hide Normalized, Slash, UncLength;
    if s != "" {
      var n := UncLength(s);
      var rest := s[n..];
      var more := Normalized(rest);
      NormalizedTwice(rest);
      NeverLonger(rest);
      NormalStart(rest);
      Sequences.Parts(s[..n], more);
      if n > 0 {
        SlashKept(s, n);
        assert s[..n][2..] == s[2..n];
        ServerKept(s[..n], more);
      } else {
        assert s[..0] + more == more;
        NoServer(more);
      }
    }
  }

  lemma SlashKept(s: string, n: nat)
    requires n == UncLength(s) > 0
    ensures 2 < n < |s| && s[n] == SEP && s[0] == SEP && s[1] == SEP && SEP !in s[2..n]
  {
    assert s[2..n] == s[2..][..n - 2];
  }

  lemma ServerKept(server: string, more: string)
    requires |server| > 2 && server[0] == SEP && server[1] == SEP && SEP !in server[2..]
    requires more != "" && more[0] == SEP
    ensures UncLength(server + more) == |server|
  {
    assert (server + more)[2..] == server[2..] + more;
    SlashIs(server[2..], more);
  }

  lemma NoServer(s: string)
    requires !DoubleAt(s, 0)
    ensures UncLength(s) == 0
  {}

  /** A normal form starts with a single separator exactly when the path starts with one. */
  lemma {:induction false} NormalStart(s: string)
    requires s != ""
    ensures Normalized(s) != "" && (Normalized(s)[0] == SEP <==> s[0] == SEP)
    ensures !DoubleAt(Normalized(s), 0)
  {
    var abs, st := Absolute(s), Meaning(s).1;
    WalkGood(abs, [], s);
    if st != [] {
      JoinStarts(st, abs);
    }
  }
}
