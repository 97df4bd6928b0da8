/** What a reader finds in unified output without the files: the groups, the lines that each of them shows, and its
    hunks; and how much context that is. */
module UnifiedGroups {
  import opened Decimal
  import opened Hunks
  import opened Scripts
  import opened Unified
  import opened Wrappers
  import Sequences

  /** One group: the lines that its header announces, and the hunks that its marks show. */
  datatype Shown = Shown(w: Window, hunks: seq<Hunk>)

  /** How many lines, up to max, start with the mark. */
  function Marked(script: seq<string>, mark: char, max: nat): (k: nat)
    ensures k <= |script| && k <= max
  {
    if max == 0 || script == [] || script[0] == "" || script[0][0] != mark then 0
    else 1 + Marked(script[1..], mark, max - 1)
  }

  /** The lines of a group behind lines x and y, o old and n new ones: its hunks, each a run of '-' and then '+' with
      a common line or the end of the group after it, and the script that follows. */
  function Marks(script: seq<string>, o: nat, n: nat, x: nat, y: nat): (r: Option<(seq<Hunk>, seq<string>)>)
    ensures r.Some? ==> |r.value.1| <= |script|
    decreases |script|
  {
    if o == 0 && n == 0 then Some(([], script))
    else if Common(script) then
      if o == 0 || n == 0 then None else Marks(script[1..], o - 1, n - 1, x + 1, y + 1)
    else
      var gone := Marked(script, '-', o);
      var added := Marked(script[gone..], '+', n);
      var rest := script[gone + added..];
      if gone + added == 0 || !((gone == o && added == n) || Common(rest)) then None
      else
        var r := Marks(rest, o - gone, n - added, x + gone, y + added);
        if r.None? then r else Some(([Hunk(x + 1, x + gone, y + 1, y + added)] + r.value.0, r.value.1))
  }

  predicate Common(script: seq<string>) {
    script != [] && script[0] != "" && script[0][0] == ' '
  }

  function Groups(script: seq<string>): Option<seq<Shown>>
    decreases |script|
  {
    if script == [] then Some([])
    else
      var p := ParseHeader(script[0]);
      if p.None? then None
      else
        var x, y := Before(p.value.0, p.value.1), Before(p.value.2, p.value.3);
        if x < 0 || y < 0 then None
        else
          var b := Marks(script[1..], p.value.1, p.value.3, x, y);
          if b.None? then None
          else
            var r := Groups(b.value.1);
            if r.None? then r
            else Some([Shown(Window(x + 1, x + p.value.1, y + 1, y + p.value.3), b.value.0)] + r.value)
  }

  /** All hunks that the groups show. */
  function AllHunks(gs: seq<Shown>): seq<Hunk> {
    if gs == [] then [] else gs[0].hunks + AllHunks(gs[1..])
  }

  // ---------------------------------------------------------------- how much context

  /** The group shows exactly ctx lines before its first hunk, or all that are there, and as many after its last,
      on both sides. */
  ghost predicate ContextOf(g: Shown, ctx: nat, n: nat, m: nat) {
    g.hunks != [] &&
    var f, l := g.hunks[0], g.hunks[|g.hunks| - 1];
    && (g.w.la == f.a - ctx || (g.w.la == 1 && f.a - 1 < ctx))
    && (g.w.lc == f.c - ctx || (g.w.lc == 1 && f.c - 1 < ctx))
    && (g.w.ub == l.b + ctx || (g.w.ub == n && n - l.b < ctx))
    && (g.w.ud == l.d + ctx || (g.w.ud == m && m - l.d < ctx))
  }

  /** At most 2 * ctx lines lie between the hunks, so that what is shown after the one meets what is shown before
      the other. */
  predicate Near(l: Hunk, h: Hunk, ctx: nat) {
    h.a - l.b - 1 <= 2 * ctx || h.c - l.d - 1 <= 2 * ctx
  }

  ghost predicate AllNear(hs: seq<Hunk>, ctx: nat) {
    forall i :: 0 <= i < |hs| - 1 ==> Near(hs[i], hs[i + 1], ctx)
  }

  /** Neighbouring hunks share a group exactly when they are near, and every group shows its context. */
  ghost predicate InContext(gs: seq<Shown>, ctx: nat, n: nat, m: nat) {
    && (forall k :: 0 <= k < |gs| ==> ContextOf(gs[k], ctx, n, m) && AllNear(gs[k].hunks, ctx))
    && (forall k :: 0 <= k < |gs| - 1 ==> Separate(gs[k], gs[k + 1], ctx))
  }

  ghost predicate Separate(g: Shown, g': Shown, ctx: nat) {
    g.hunks != [] && g'.hunks != [] && !Near(g.hunks[|g.hunks| - 1], g'.hunks[0], ctx)
  }

  // ---------------------------------------------------------------- what was written is found

  lemma PrefixedCons(mark: string, L: seq<string>, rest: seq<string>)
    requires |mark| == 1 && L != []
    ensures var s := Prefixed(mark, L) + rest;
      s != [] && s[0] != "" && s[0][0] == mark[0] && s[1..] == Prefixed(mark, L[1..]) + rest
  {
    assert Prefixed(mark, L) == [mark + L[0]] + Prefixed(mark, L[1..]);
    Sequences.Assoc([mark + L[0]], Prefixed(mark, L[1..]), rest);
    Sequences.Head(mark + L[0], Prefixed(mark, L[1..]) + rest);
  }

  lemma PrefixedNone(mark: string, rest: seq<string>)
    ensures Prefixed(mark, []) + rest == rest
  {
    assert Prefixed(mark, []) == [];
  }

  lemma {:induction false} MarkedIs(mark: string, L: seq<string>, rest: seq<string>, max: nat)
    requires |mark| == 1 && |L| <= max
    requires |L| == max || rest == [] || rest[0] == "" || rest[0][0] != mark[0]
    ensures Marked(Prefixed(mark, L) + rest, mark[0], max) == |L|
  {
    hide Prefixed;
    if L == [] {
      PrefixedNone(mark, rest);
    } else {
      PrefixedCons(mark, L, rest);
      MarkedIs(mark, L[1..], rest, max - 1);
    }
  }

  lemma {:induction false} CommonSkipped(L: seq<string>, tail: seq<string>, o: nat, n: nat, x: nat, y: nat)
    requires |L| <= o && |L| <= n
    ensures Marks(Prefixed(" ", L) + tail, o, n, x, y) == Marks(tail, o - |L|, n - |L|, x + |L|, y + |L|)
  {
    hide Prefixed, Marks;
    if L == [] {
      PrefixedNone(" ", tail);
    } else {
      PrefixedCons(" ", L, tail);
      CommonStep(Prefixed(" ", L) + tail, o, n, x, y);
      CommonSkipped(L[1..], tail, o - 1, n - 1, x + 1, y + 1);
    }
  }

  lemma CommonStep(script: seq<string>, o: nat, n: nat, x: nat, y: nat)
    requires Common(script) && o > 0 && n > 0
    ensures Marks(script, o, n, x, y) == Marks(script[1..], o - 1, n - 1, x + 1, y + 1)
  {
  }

  function Cons(h: Hunk, r: Option<(seq<Hunk>, seq<string>)>): Option<(seq<Hunk>, seq<string>)> {
    if r.None? then r else Some(([h] + r.value.0, r.value.1))
  }

  /** The marked lines of one hunk. */
  lemma {:induction false} HunkShown(h: Hunk, old': seq<string>, new': seq<string>, rest: seq<string>, o: nat, n: nat)
    requires 1 <= h.a <= h.b + 1 && 1 <= h.c <= h.d + 1 && !h.Empty()
    requires |old'| == h.b - h.a + 1 <= o && |new'| == h.d - h.c + 1 <= n
    requires (o == |old'| && n == |new'|) || Common(rest)
    ensures Marks(Prefixed("-", old') + (Prefixed("+", new') + rest), o, n, h.a - 1, h.c - 1)
         == Cons(h, Marks(rest, o - |old'|, n - |new'|, h.b, h.d))
  {
    hide Prefixed, Marks, Marked;
    var plus := Prefixed("+", new') + rest;
    var script := Prefixed("-", old') + plus;
    FirstMark("+", new', rest);
    FirstMark("-", old', plus);
    MarkedIs("-", old', plus, o);
    MarkedIs("+", new', rest, n);
    Sequences.Parts(Prefixed("-", old'), plus);
    Sequences.Assoc(Prefixed("-", old'), Prefixed("+", new'), rest);
    Sequences.Parts(Prefixed("-", old') + Prefixed("+", new'), rest);
    MarksStep(script, o, n, h.a - 1, h.c - 1);
    assert h == Hunk(h.a, h.b, h.c, h.d);
  }

  lemma FirstMark(mark: string, L: seq<string>, rest: seq<string>)
    requires |mark| == 1
    ensures L != [] ==> (Prefixed(mark, L) + rest)[0] != "" && (Prefixed(mark, L) + rest)[0][0] == mark[0]
    ensures L == [] ==> Prefixed(mark, L) + rest == rest
  {
    hide Prefixed;
    if L == [] {
      PrefixedNone(mark, rest);
    } else {
      PrefixedCons(mark, L, rest);
    }
  }

  lemma MarksStep(script: seq<string>, o: nat, n: nat, x: nat, y: nat)
    requires !Common(script) && !(o == 0 && n == 0)
    requires var gone := Marked(script, '-', o); var added := Marked(script[gone..], '+', n);
      && gone + added > 0
      && ((gone == o && added == n) || Common(script[gone + added..]))
    ensures var gone := Marked(script, '-', o); var added := Marked(script[gone..], '+', n);
      Marks(script, o, n, x, y) == Cons(Hunk(x + 1, x + gone, y + 1, y + added),
                                        Marks(script[gone + added..], o - gone, n - added, x + gone, y + added))
  {
    hide Marked, Common;
  }

  /** The body of a group with its trailing context L shows exactly the hunks of the group. */
  lemma {:induction false} BodyShown(vec: seq<Hunk>, la: int, lc: int, L: seq<string>, tail: seq<string>,
                                     A: seq<string>, B: seq<string>)
    requires 1 <= la <= |A| + 1 && 1 <= lc <= |B| + 1 && Inside(vec, la - 1, lc - 1, A, B) && Apart(vec)
    requires Ordered(vec, la - 1, lc - 1, |A|, |B|)
    ensures la - 1 <= LastB(vec, la - 1) && lc - 1 <= LastD(vec, lc - 1)
    ensures Marks(Body(vec, la, lc, A, B) + (Prefixed(" ", L) + tail),
                  LastB(vec, la - 1) - (la - 1) + |L|, LastD(vec, lc - 1) - (lc - 1) + |L|, la - 1, lc - 1)
         == Some((vec, tail))
    decreases |vec|
  {
    hide Marks, Prefixed, Piece, Body, Inside, Ordered, Apart, Common;
    var more := Prefixed(" ", L) + tail;
    if vec == [] {
      BodyNothing(la, lc, more, A, B);
      CommonSkipped(L, tail, |L|, |L|, la - 1, lc - 1);
      MarksDone(tail, la - 1 + |L|, lc - 1 + |L|);
    } else {
      var h, t := vec[0], vec[1..];
      OrderedLast(vec, la - 1, lc - 1, |A|, |B|);
      TailLast(vec, la - 1, lc - 1, |A|, |B|);
      InsideFirst(vec, la - 1, lc - 1, A, B);
      BodyCons(vec, la, lc, more, A, B);
      ApartTail(vec);
      RestCommon(t, h.b + 1, h.d + 1, L, tail, A, B);
      BodyShown(t, h.b + 1, h.d + 1, L, tail, A, B);
      PieceShown(h, la, lc, Body(t, h.b + 1, h.d + 1, A, B) + more,
                 LastB(vec, la - 1) - (la - 1) + |L|, LastD(vec, lc - 1) - (lc - 1) + |L|, A, B);
      assert vec == [h] + t;
    }
  }

  lemma MarksDone(tail: seq<string>, x: nat, y: nat)
    ensures Marks(tail, 0, 0, x, y) == Some(([], tail))
  {
  }

  lemma ApartTail(vec: seq<Hunk>)
    requires vec != [] && Apart(vec)
    ensures Apart(vec[1..]) && (|vec| > 1 ==> vec[0].b + 1 < vec[1].a)
  {
    if |vec| > 1 {
      assert vec[0].b + 1 < vec[0 + 1].a;
    }
  }

  /** After a hunk comes a common line, unless the group ends. */
  lemma RestCommon(t: seq<Hunk>, la: int, lc: int, L: seq<string>, tail: seq<string>, A: seq<string>, B: seq<string>)
    requires 1 <= la <= |A| + 1 && 1 <= lc <= |B| + 1 && Ordered(t, la - 1, lc - 1, |A|, |B|)
    requires Inside(t, la - 1, lc - 1, A, B) && (t != [] ==> la < t[0].a)
    ensures (t == [] && L == []) || Common(Body(t, la, lc, A, B) + (Prefixed(" ", L) + tail))
  {
    hide Prefixed, Piece, Common, Body, Ordered, Inside;
    var more := Prefixed(" ", L) + tail;
    if t == [] {
      BodyNothing(la, lc, more, A, B);
      CommonStarts(L, tail);
    } else {
      InsideFirst(t, la - 1, lc - 1, A, B);
      BodyCons(t, la, lc, more, A, B);
      PieceCommon(t[0], la, lc, Body(t[1..], t[0].b + 1, t[0].d + 1, A, B) + more, A, B);
    }
  }

  lemma InsideFirst(vec: seq<Hunk>, x: nat, y: nat, A: seq<string>, B: seq<string>)
    requires x <= |A| && y <= |B| && vec != [] && Inside(vec, x, y, A, B)
    ensures x < vec[0].a <= vec[0].b + 1 <= |A| + 1 && y < vec[0].c <= vec[0].d + 1 <= |B| + 1 && !vec[0].Empty()
    ensures A[x..vec[0].a - 1] == B[y..vec[0].c - 1] && Inside(vec[1..], vec[0].b, vec[0].d, A, B)
  {
  }

  lemma CommonStarts(L: seq<string>, tail: seq<string>)
    ensures L != [] ==> Common(Prefixed(" ", L) + tail)
  {
  }

  lemma PieceCommon(h: Hunk, la: int, lc: int, rest: seq<string>, A: seq<string>, B: seq<string>)
    requires 1 <= la < h.a <= h.b + 1 <= |A| + 1 && 1 <= lc <= h.c <= h.d + 1 <= |B| + 1
    requires A[la - 1..h.a - 1] == B[lc - 1..h.c - 1]
    ensures Common(Piece(h, la, lc, A, B) + rest)
  {
    hide Prefixed, Piece, Common;
    PieceParts(h, la, lc, rest, A, B);
    CommonStarts(A[la - 1..h.a - 1],
                 Prefixed("-", Sub(A, h.a, h.b)) + (Prefixed("+", Sub(B, h.c, h.d)) + rest));
  }

  lemma BodyNothing(la: int, lc: int, more: seq<string>, A: seq<string>, B: seq<string>)
    requires 1 <= la && 1 <= lc
    ensures Body([], la, lc, A, B) + more == more
  {
  }

  lemma BodyCons(vec: seq<Hunk>, la: int, lc: int, more: seq<string>, A: seq<string>, B: seq<string>)
    requires vec != [] && 1 <= la && 1 <= lc && Ordered(vec, la - 1, lc - 1, |A|, |B|)
    ensures 1 <= la <= vec[0].a <= vec[0].b + 1 <= |A| + 1 && 1 <= lc <= vec[0].c <= vec[0].d + 1 <= |B| + 1
    ensures Ordered(vec[1..], vec[0].b, vec[0].d, |A|, |B|)
    ensures Body(vec, la, lc, A, B) + more
         == Piece(vec[0], la, lc, A, B) + (Body(vec[1..], vec[0].b + 1, vec[0].d + 1, A, B) + more)
  {
    hide Piece;
    Sequences.Assoc(Piece(vec[0], la, lc, A, B), Body(vec[1..], vec[0].b + 1, vec[0].d + 1, A, B), more);
  }

  lemma PieceShown(h: Hunk, la: int, lc: int, rest: seq<string>, o: nat, n: nat, A: seq<string>, B: seq<string>)
    requires 1 <= la <= h.a <= h.b + 1 <= |A| + 1 && 1 <= lc <= h.c <= h.d + 1 <= |B| + 1 && !h.Empty()
    requires A[la - 1..h.a - 1] == B[lc - 1..h.c - 1]
    requires h.b - (la - 1) <= o && h.d - (lc - 1) <= n
    requires (h.b - (la - 1) == o && h.d - (lc - 1) == n) || Common(rest)
    ensures Marks(Piece(h, la, lc, A, B) + rest, o, n, la - 1, lc - 1)
         == Cons(h, Marks(rest, o - (h.b - (la - 1)), n - (h.d - (lc - 1)), h.b, h.d))
  {
    hide Marks, Prefixed, Piece, Common;
    var com := A[la - 1..h.a - 1];
    assert |com| == h.a - la && |B[lc - 1..h.c - 1]| == h.c - lc;
    PieceParts(h, la, lc, rest, A, B);
    CommonSkipped(com, Prefixed("-", Sub(A, h.a, h.b)) + (Prefixed("+", Sub(B, h.c, h.d)) + rest), o, n,
                  la - 1, lc - 1);
    HunkShown(h, Sub(A, h.a, h.b), Sub(B, h.c, h.d), rest, o - |com|, n - |com|);
  }

  /** A dumped group is found with its window and its hunks. */
  lemma {:induction false} DumpShown(w: Window, vec: seq<Hunk>, ctx: nat, tail: seq<string>, A: seq<string>,
                                     B: seq<string>)
    requires Group(vec, |A|, |B|) && WindowOf(w, vec, ctx, |A|, |B|) && Fills(w, vec, A, B) && Apart(vec)
    ensures var r := Groups(tail);
      Groups(Dump(vec, ctx, A, B) + tail) == if r.None? then r else Some([Shown(w, vec)] + r.value)
  {
    hide Inside, Ordered, Body, Prefixed, ParseHeader, UniRange, Marks, Groups, Apart;
    InsideOrdered(vec, w.la - 1, w.lc - 1, A, B);
    var L := Sub(B, LastD(vec, 0) + 1, w.ud);
    assert |L| == w.ub - LastB(vec, 0) by { assert |A[LastB(vec, 0)..w.ub]| == |B[LastD(vec, 0)..w.ud]|; }
    DumpText(w, vec, ctx, tail, A, B);
    ParseHeaderText(w.la, w.ub, w.lc, w.ud);
    BodyShown(vec, w.la, w.lc, L, tail, A, B);
    GroupsStep(Header(vec, ctx, |A|, |B|), Body(vec, w.la, w.lc, A, B) + (Prefixed(" ", L) + tail), w, vec, tail);
  }

  lemma GroupsStep(head: string, body: seq<string>, w: Window, vec: seq<Hunk>, tail: seq<string>)
    requires 1 <= w.la <= w.ub + 1 && 1 <= w.lc <= w.ud + 1
    requires ParseHeader(head) == Some((if w.la > w.ub then w.ub else w.la, w.ub - w.la + 1,
                                        if w.lc > w.ud then w.ud else w.lc, w.ud - w.lc + 1))
    requires Marks(body, w.ub - w.la + 1, w.ud - w.lc + 1, w.la - 1, w.lc - 1) == Some((vec, tail))
    ensures var r := Groups(tail);
      Groups([head] + body) == if r.None? then r else Some([Shown(w, vec)] + r.value)
  {
    hide ParseHeader, Marks;
    Sequences.Head(head, body);
  }

  /** The window of a group is what its context asks for. */
  lemma WindowContext(w: Window, vec: seq<Hunk>, ctx: nat, n: nat, m: nat)
    requires Group(vec, n, m) && WindowOf(w, vec, ctx, n, m)
    ensures ContextOf(Shown(w, vec), ctx, n, m)
  {
    OrderedLast(vec, 0, 0, n, m);
  }

  lemma FarNotNear(l: Hunk, h: Hunk, ctx: nat)
    ensures Far(l, h, ctx) <==> !Near(l, h, ctx)
  {
  }

  lemma NearGrows(cur: seq<Hunk>, h: Hunk, ctx: nat)
    requires AllNear(cur, ctx) && (cur != [] ==> Near(cur[|cur| - 1], h, ctx))
    ensures AllNear(cur + [h], ctx)
  {
    forall i | 0 <= i < |cur| ensures Near((cur + [h])[i], (cur + [h])[i + 1], ctx) {
      assert i < |cur| - 1 ==> Near(cur[i], cur[i + 1], ctx);
    }
  }

  lemma InContextCons(g: Shown, gs: seq<Shown>, ctx: nat, n: nat, m: nat)
    requires InContext(gs, ctx, n, m) && ContextOf(g, ctx, n, m) && AllNear(g.hunks, ctx)
    requires gs != [] ==> Separate(g, gs[0], ctx)
    ensures InContext([g] + gs, ctx, n, m)
  {
    hide ContextOf, AllNear, Separate;
    var all := [g] + gs;
    forall k | 0 <= k < |all| ensures ContextOf(all[k], ctx, n, m) && AllNear(all[k].hunks, ctx) {
      assert k > 0 ==> all[k] == gs[k - 1];
    }
    forall k | 0 <= k < |all| - 1 ensures Separate(all[k], all[k + 1], ctx) {
      assert k > 0 ==> all[k] == gs[k - 1] && all[k + 1] == gs[k - 1 + 1];
    }
  }

  lemma ApartParts(cur: seq<Hunk>, hs: seq<Hunk>)
    requires Apart(cur + hs)
    ensures Apart(cur) && Apart(hs)
  {
    forall i | 0 <= i < |cur| - 1 ensures cur[i].b + 1 < cur[i + 1].a {
      assert (cur + hs)[i].b + 1 < (cur + hs)[i + 1].a;
    }
    forall i | 0 <= i < |hs| - 1 ensures hs[i].b + 1 < hs[i + 1].a {
      assert (cur + hs)[|cur| + i].b + 1 < (cur + hs)[|cur| + i + 1].a;
    }
  }

  /** What the groups of the output show of the hunks cur, which wait, and hs, which are to come. */
  ghost predicate ShowsAll(gs: seq<Shown>, all: seq<Hunk>, ctx: nat, n: nat, m: nat) {
    && AllHunks(gs) == all
    && InContext(gs, ctx, n, m)
    && (all != [] ==> gs != [] && gs[0].hunks != [] && gs[0].hunks[0] == all[0])
  }

  lemma ShowsNothing(ctx: nat, n: nat, m: nat)
    ensures Groups([]) == Some([]) && ShowsAll([], [], ctx, n, m)
  {
  }

  lemma ShowsMore(g: Shown, gs: seq<Shown>, hs: seq<Hunk>, ctx: nat, n: nat, m: nat)
    requires ShowsAll(gs, hs, ctx, n, m) && ContextOf(g, ctx, n, m) && AllNear(g.hunks, ctx)
    requires hs == [] ==> gs == []
    requires hs != [] ==> !Near(g.hunks[|g.hunks| - 1], hs[0], ctx)
    ensures ShowsAll([g] + gs, g.hunks + hs, ctx, n, m)
  {
    hide InContext, AllNear, Near;
    InContextCons(g, gs, ctx, n, m);
    Sequences.Head(g, gs);
  }

  /** The output of hunks that cover the files and are apart: a reader of the marks finds exactly these hunks, in
      groups that show exactly their context. */
  lemma {:induction false} RestShown(cur: seq<Hunk>, hs: seq<Hunk>, ctx: nat, A: seq<string>, B: seq<string>, x: nat,
                                     y: nat)
    returns (gs: seq<Shown>)
    requires x <= |A| && y <= |B| && Covers(cur + hs, x, y, A, B) && Ordered(cur + hs, 0, 0, |A|, |B|)
    requires if cur == [] then x == y == 0 else StartsAfter(cur, ctx, x, y)
    requires Apart(cur + hs) && AllNear(cur, ctx)
    ensures Groups(Rest(cur, hs, ctx, A, B)) == Some(gs) && ShowsAll(gs, cur + hs, ctx, |A|, |B|)
    ensures cur + hs == [] ==> gs == []
    decreases |hs|
  {
    hide Groups, Dump, Fills, WindowOf, Group, Far, StartsAfter, Near, AllNear, Apart, ShowsAll, Covers;
    if cur == [] && hs == [] {
      RestNothing(ctx, A, B);
      ShowsNothing(ctx, |A|, |B|);
      assert cur + hs == [];
      gs := [];
    } else if hs == [] {
      gs := FlushShown(cur, [], ctx, A, B, x, y);
    } else if cur != [] && Far(cur[|cur| - 1], hs[0], ctx) {
      gs := FlushShown(cur, hs, ctx, A, B, x, y);
    } else {
      assert (cur + [hs[0]]) + hs[1..] == cur + hs;
      StartGrows(cur, hs, ctx, A, B, x, y);
      if cur != [] {
        FarNotNear(cur[|cur| - 1], hs[0], ctx);
      }
      NearGrows(cur, hs[0], ctx);
      gs := RestShown(cur + [hs[0]], hs[1..], ctx, A, B, x, y);
    }
  }

  lemma OneNear(h: Hunk, ctx: nat)
    ensures AllNear([h], ctx)
  {
  }

  lemma {:induction false} FlushShown(cur: seq<Hunk>, hs: seq<Hunk>, ctx: nat, A: seq<string>, B: seq<string>, x: nat,
                                      y: nat)
    returns (gs: seq<Shown>)
    requires x <= |A| && y <= |B| && Covers(cur + hs, x, y, A, B) && Ordered(cur + hs, 0, 0, |A|, |B|)
    requires cur != [] && StartsAfter(cur, ctx, x, y)
    requires hs == [] || Far(cur[|cur| - 1], hs[0], ctx)
    requires Apart(cur + hs) && AllNear(cur, ctx)
    ensures Groups(Rest(cur, hs, ctx, A, B)) == Some(gs) && ShowsAll(gs, cur + hs, ctx, |A|, |B|)
    ensures gs != []
    decreases |hs|, 0
  {
    hide Groups, Dump, Fills, WindowOf, Group, Far, StartsAfter, Near, AllNear, Apart, ShowsAll, Covers;
    var w := GroupFills(cur, hs, ctx, A, B, x, y);
    ApartParts(cur, hs);
    WindowContext(w, cur, ctx, |A|, |B|);
    if hs == [] {
      Sequences.Whole(cur);
      RestLast(cur, ctx, A, B);
      DumpShown(w, cur, ctx, [], A, B);
      ShowsNothing(ctx, |A|, |B|);
      ShowsMore(Shown(w, cur), [], [], ctx, |A|, |B|);
      gs := [Shown(w, cur)];
      Sequences.Whole(gs);
    } else {
      OrderedParts(cur, hs, 0, 0, |A|, |B|);
      WindowBounds(w, cur, A, B);
      DumpShown(w, cur, ctx, Rest([hs[0]], hs[1..], ctx, A, B), A, B);
      OneNear(hs[0], ctx);
      FarNotNear(cur[|cur| - 1], hs[0], ctx);
      var rest := RestShown([hs[0]], hs[1..], ctx, A, B, w.ub, w.ud);
      ShowsMore(Shown(w, cur), rest, hs, ctx, |A|, |B|);
      gs := [Shown(w, cur)] + rest;
    }
  }

  /** The whole unified output. */
  lemma UnifiedShown(hs: seq<Hunk>, ctx: nat, A: seq<string>, B: seq<string>) returns (gs: seq<Shown>)
    requires Covers(hs, 0, 0, A, B) && Ordered([] + hs, 0, 0, |A|, |B|) && Apart(hs)
    ensures Groups(Rest([], hs, ctx, A, B)) == Some(gs) && AllHunks(gs) == hs && InContext(gs, ctx, |A|, |B|)
  {
    hide Groups, Covers, Ordered, Apart, Rest;
    Sequences.Whole(hs);
    gs := RestShown([], hs, ctx, A, B, 0, 0);
  }
}
