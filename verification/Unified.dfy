/** Unified output: hunks collected in context_vec and dumped in groups, and a strict reader of the result. */
module Unified {
  import opened Decimal
  import opened Hunks
  import opened Scripts
  import opened Wrappers
  import Sequences

  function Max(x: int, y: int): int { if x > y then x else y }
  function Min(x: int, y: int): int { if x < y then x else y }

  /** Hunks in ascending order after lines x and y, within files of n and m lines. */
  predicate Ordered(hs: seq<Hunk>, x: int, y: int, n: int, m: int) {
    hs == [] ||
    (&& x < hs[0].a <= hs[0].b + 1 <= n + 1
     && y < hs[0].c <= hs[0].d + 1 <= m + 1
     && Ordered(hs[1..], hs[0].b, hs[0].d, n, m))
  }

  predicate Group(vec: seq<Hunk>, n: int, m: int) {
    vec != [] && Ordered(vec, 0, 0, n, m)
  }

  /** uni_range */
  function UniRange(a: int, b: int): string
    requires 0 <= b
    requires a <= b ==> 0 <= a
  {
    if a < b then Dec(a) + "," + Dec(b - a + 1) else if a == b then Dec(b) else Dec(b) + ",0"
  }

  function LowA(vec: seq<Hunk>, ctx: nat): int requires vec != [] { Max(1, vec[0].a - ctx) }
  function LowC(vec: seq<Hunk>, ctx: nat): int requires vec != [] { Max(1, vec[0].c - ctx) }
  function UpB(vec: seq<Hunk>, ctx: nat, n: int): int requires vec != [] { Min(n, vec[|vec| - 1].b + ctx) }
  function UpD(vec: seq<Hunk>, ctx: nat, m: int): int requires vec != [] { Min(m, vec[|vec| - 1].d + ctx) }

  /** One hunk with the common lines before it, which come from the new file when nothing is removed. */
  function Piece(h: Hunk, la: int, lc: int, A: seq<string>, B: seq<string>): seq<string>
    requires 1 <= la <= h.a <= h.b + 1 <= |A| + 1 && 1 <= lc <= h.c <= h.d + 1 <= |B| + 1
  {
    if Letter(h) == 'a' then Prefixed(" ", Sub(B, lc, h.c - 1)) + Prefixed("+", Sub(B, h.c, h.d))
    else Prefixed(" ", Sub(A, la, h.a - 1)) + Prefixed("-", Sub(A, h.a, h.b)) + Prefixed("+", Sub(B, h.c, h.d))
  }

  function Body(vec: seq<Hunk>, la: int, lc: int, A: seq<string>, B: seq<string>): seq<string>
    requires 1 <= la && 1 <= lc && Ordered(vec, la - 1, lc - 1, |A|, |B|)
  {
    if vec == [] then []
    else Piece(vec[0], la, lc, A, B) + Body(vec[1..], vec[0].b + 1, vec[0].d + 1, A, B)
  }

  lemma {:induction false} OrderedLast(vec: seq<Hunk>, x: int, y: int, n: int, m: int)
    requires vec != [] && Ordered(vec, x, y, n, m)
    ensures var l := vec[|vec| - 1]; x <= l.b <= n && y <= l.d <= m
    ensures var l := vec[|vec| - 1]; vec[0].a <= l.b + 1 && vec[0].c <= l.d + 1
  {
    if |vec| > 1 {
      OrderedLast(vec[1..], vec[0].b, vec[0].d, n, m);
    }
  }

  /** The window of a group lies within the files and reaches from before its first hunk to after its last. */
  lemma GroupEnds(vec: seq<Hunk>, ctx: nat, n: nat, m: nat)
    requires Group(vec, n, m)
    ensures 1 <= LowA(vec, ctx) <= UpB(vec, ctx, n) + 1 && 1 <= LowC(vec, ctx) <= UpD(vec, ctx, m) + 1
    ensures 0 <= vec[|vec| - 1].d <= UpD(vec, ctx, m) <= m && 0 <= vec[|vec| - 1].b <= UpB(vec, ctx, n) <= n
    ensures LowA(vec, ctx) <= vec[0].a && LowC(vec, ctx) <= vec[0].c
  {
    OrderedLast(vec, 0, 0, n, m);
  }

  function Header(vec: seq<Hunk>, ctx: nat, n: nat, m: nat): string
    requires Group(vec, n, m)
  {
    OrderedLast(vec, 0, 0, n, m);
    "@@ -" + UniRange(LowA(vec, ctx), UpB(vec, ctx, n)) + " +" + UniRange(LowC(vec, ctx), UpD(vec, ctx, m)) + " @@"
  }

  /** dump_unified_vec */
  function Dump(vec: seq<Hunk>, ctx: nat, A: seq<string>, B: seq<string>): seq<string>
    requires Group(vec, |A|, |B|)
  {
    OrderedLast(vec, 0, 0, |A|, |B|);
    [Header(vec, ctx, |A|, |B|)] + Body(vec, LowA(vec, ctx), LowC(vec, ctx), A, B)
    + Prefixed(" ", Sub(B, vec[|vec| - 1].d + 1, UpD(vec, ctx, |B|)))
  }

  /** The test of change for starting a new group. */
  predicate Far(l: Hunk, h: Hunk, ctx: nat) {
    h.a > l.b + 2 * ctx + 1 && h.c > l.d + 2 * ctx + 1
  }

  // ---------------------------------------------------------------- the reader

  /** "start" or "start,count" and the rest; a count of 1 must not be written. */
  function ParseRange(s: string): Option<(nat, nat, string)> {
    var k := DigitCount(s);
    if k == 0 then None
    else if k < |s| && s[k] == ',' then
      var t := s[k + 1..];
      var l := DigitCount(t);
      if l == 0 || Number(t[..l]) == 1 then None else Some((Number(s[..k]), Number(t[..l]), t[l..]))
    else Some((Number(s[..k]), 1, s[k..]))
  }

  /** Start and count on either side. */
  function ParseHeader(s: string): Option<(nat, nat, nat, nat)> {
    if !("@@ -" <= s) then None
    else
      var o := ParseRange(s[4..]);
      if o.None? || !(" +" <= o.value.2) then None
      else
        var n := ParseRange(o.value.2[2..]);
        if n.None? || n.value.2 != " @@" then None
        else Some((o.value.0, o.value.1, n.value.0, n.value.1))
  }

  /** Lines before the window: an empty window names the line it follows. */
  function Before(start: nat, count: nat): int {
    if count == 0 then start else start - 1
  }

  /** Read a group until both counts are used up: the new lines, and the script that follows. Old lines must
      be there. */
  function ReadBody(script: seq<string>, o: nat, n: nat, A: seq<string>,
                    pos: nat): (r: Option<(seq<string>, seq<string>)>)
    ensures r.Some? ==> |r.value.1| <= |script|
  {
    if o == 0 && n == 0 then Some(([], script))
    else if script == [] || script[0] == "" then None
    else
      var c, t := script[0][0], script[0][1..];
      if c == ' ' && o > 0 && n > 0 && pos < |A| && A[pos] == t then
        Cons([t], ReadBody(script[1..], o - 1, n - 1, A, pos + 1))
      else if c == '-' && o > 0 && pos < |A| && A[pos] == t then ReadBody(script[1..], o - 1, n, A, pos + 1)
      else if c == '+' && n > 0 then Cons([t], ReadBody(script[1..], o, n - 1, A, pos))
      else None
  }

  function Cons(p: seq<string>, r: Option<(seq<string>, seq<string>)>): Option<(seq<string>, seq<string>)> {
    if r.None? then r else Some((p + r.value.0, r.value.1))
  }

  /** The new file when lines pos.. of the original are still to come and made lines have been produced. */
  function Run(script: seq<string>, A: seq<string>, pos: nat, made: nat): Option<seq<string>>
    requires pos <= |A|
    decreases |script|
  {
    if script == [] then Some(A[pos..])
    else
      var p := ParseHeader(script[0]);
      if p.None? then None
      else
        var x, y := Before(p.value.0, p.value.1), Before(p.value.2, p.value.3);
        if !(pos <= x && x + p.value.1 <= |A| && y == made + (x - pos)) then None
        else
          var b := ReadBody(script[1..], p.value.1, p.value.3, A, x);
          if b.None? then None
          else
            var r := Run(b.value.1, A, x + p.value.1, y + p.value.3);
            if r.None? then r else Some(A[pos..x] + b.value.0 + r.value)
  }

  // ---------------------------------------------------------------- reading back what was written

  lemma {:induction false} ParseUniRange(a: int, b: int, rest: string)
    requires 0 <= a <= b + 1 && 0 <= b
    requires rest == "" || (!IsDigit(rest[0]) && rest[0] != ',')
    ensures ParseRange(UniRange(a, b) + rest) == Some((if a > b then b else a, b - a + 1, rest))
  {
    hide Dec, Number, DigitCount, UniRange, ParseRange;
    RangeTextIs(a, b);
    if a == b {
      ParseOne(b, rest);
    } else {
      var first := if a < b then a else b;
      assert UniRange(a, b) + rest == Dec(first) + "," + Dec(b - a + 1) + rest;
      ParseTwo(first, b - a + 1, rest);
    }
  }

  lemma ParseOne(n: nat, rest: string)
    requires rest == "" || (!IsDigit(rest[0]) && rest[0] != ',')
    ensures ParseRange(Dec(n) + rest) == Some((n, 1, rest))
  {
    hide Dec, Number, DigitCount;
    ReadDec(n, rest);
  }

  lemma ParseTwo(n: nat, count: nat, rest: string)
    requires count != 1 && (rest == "" || !IsDigit(rest[0]))
    ensures ParseRange(Dec(n) + "," + Dec(count) + rest) == Some((n, count, rest))
  {
    hide Dec, Number, DigitCount, ParseRange;
    var digits := Dec(count) + rest;
    NumeralComma(n, digits);
    ReadDec(count, rest);
    ParseParts(Dec(n) + ("," + digits), digits, |Dec(n)|, |Dec(count)|, n, count, rest);
    Sequences.AssocFour(Dec(n), ",", Dec(count), rest);
  }

  lemma NumeralComma(n: nat, digits: string)
    ensures var s := Dec(n) + ("," + digits); var k := |Dec(n)|;
      0 < k < |s| && DigitCount(s) == k && s[k] == ',' && Number(s[..k]) == n && s[k + 1..] == digits
  {
    hide Dec, Number, DigitCount;
    assert ("," + digits)[0] == ',';
    ReadDec(n, "," + digits);
    AfterComma(Dec(n), digits);
  }

  lemma ParseParts(s: string, t: string, k: nat, l: nat, n: nat, count: nat, rest: string)
    requires 0 < k < |s| && DigitCount(s) == k && s[k] == ',' && Number(s[..k]) == n && s[k + 1..] == t
    requires 0 < l && DigitCount(t) == l && Number(t[..l]) == count != 1 && t[l..] == rest
    ensures ParseRange(s) == Some((n, count, rest))
  {
    hide Number, DigitCount;
  }

  lemma AfterComma(n: string, s: string)
    ensures (n + ("," + s))[|n|] == ',' && (n + ("," + s))[|n| + 1..] == s
  {}

  lemma RangeTextIs(a: int, b: int)
    requires 0 <= a <= b + 1 && 0 <= b
    ensures UniRange(a, b) == if a == b then Dec(b) else Dec(if a < b then a else b) + "," + Dec(b - a + 1)
  {
    assert Dec(0) == "0";
  }

  lemma {:induction false} ParseHeaderText(a: int, b: int, c: int, d: int)
    requires 0 <= a <= b + 1 && 0 <= b && 0 <= c <= d + 1 && 0 <= d
    ensures ParseHeader("@@ -" + UniRange(a, b) + " +" + UniRange(c, d) + " @@")
         == Some((if a > b then b else a, b - a + 1, if c > d then d else c, d - c + 1))
  {
    hide ParseRange, UniRange;
    var s := "@@ -" + UniRange(a, b) + " +" + UniRange(c, d) + " @@";
    var t := UniRange(c, d) + " @@";
    assert s[4..] == UniRange(a, b) + (" +" + t);
    ParseUniRange(a, b, " +" + t);
    assert (" +" + t)[2..] == t;
    ParseUniRange(c, d, " @@");
  }

  lemma {:induction false} ReadContext(L: seq<string>, tail: seq<string>, o: nat, n: nat, A: seq<string>, pos: nat)
    requires |L| <= o && |L| <= n && pos + |L| <= |A| && A[pos..pos + |L|] == L
    ensures ReadBody(Prefixed(" ", L) + tail, o, n, A, pos) == Cons(L, ReadBody(tail, o - |L|, n - |L|, A, pos + |L|))
  {
    var s := Prefixed(" ", L) + tail;
    if L == [] {
      assert s == tail;
      ConsNothing(ReadBody(tail, o, n, A, pos));
    } else {
      assert s[1..] == Prefixed(" ", L[1..]) + tail;
      assert A[pos] == A[pos..pos + |L|][0] && A[pos + 1..pos + |L|] == A[pos..pos + |L|][1..];
      ReadContext(L[1..], tail, o - 1, n - 1, A, pos + 1);
      ConsTwice([L[0]], L[1..], ReadBody(tail, o - |L|, n - |L|, A, pos + |L|));
      assert [L[0]] + L[1..] == L;
    }
  }

  lemma {:induction false} ReadOld(L: seq<string>, tail: seq<string>, o: nat, n: nat, A: seq<string>, pos: nat)
    requires |L| <= o && pos + |L| <= |A| && A[pos..pos + |L|] == L
    ensures ReadBody(Prefixed("-", L) + tail, o, n, A, pos) == ReadBody(tail, o - |L|, n, A, pos + |L|)
  {
    var s := Prefixed("-", L) + tail;
    if L == [] {
      assert s == tail;
    } else {
      assert s[1..] == Prefixed("-", L[1..]) + tail;
      assert A[pos] == A[pos..pos + |L|][0] && A[pos + 1..pos + |L|] == A[pos..pos + |L|][1..];
      ReadOld(L[1..], tail, o - 1, n, A, pos + 1);
    }
  }

  lemma {:induction false} ReadNew(L: seq<string>, tail: seq<string>, o: nat, n: nat, A: seq<string>, pos: nat)
    requires |L| <= n
    ensures ReadBody(Prefixed("+", L) + tail, o, n, A, pos) == Cons(L, ReadBody(tail, o, n - |L|, A, pos))
  {
    var s := Prefixed("+", L) + tail;
    if L == [] {
      assert s == tail;
      ConsNothing(ReadBody(tail, o, n, A, pos));
    } else {
      assert s[1..] == Prefixed("+", L[1..]) + tail;
      ReadNew(L[1..], tail, o, n - 1, A, pos);
      ConsTwice([L[0]], L[1..], ReadBody(tail, o, n - |L|, A, pos));
      assert [L[0]] + L[1..] == L;
    }
  }

  lemma ConsNothing(r: Option<(seq<string>, seq<string>)>)
    ensures Cons([], r) == r
  {
    if r.Some? {
      assert [] + r.value.0 == r.value.0;
    }
  }

  lemma ConsTwice(p: seq<string>, q: seq<string>, r: Option<(seq<string>, seq<string>)>)
    ensures Cons(p, Cons(q, r)) == Cons(p + q, r)
  {
    if r.Some? {
      assert (p + q) + r.value.0 == p + (q + r.value.0);
    }
  }

  /** The hunks are in order and the lines before each of them, from (x, y) on, are common to both files. */
  ghost predicate Inside(vec: seq<Hunk>, x: nat, y: nat, A: seq<string>, B: seq<string>)
    requires x <= |A| && y <= |B|
  {
    vec == [] ||
    (&& x < vec[0].a <= vec[0].b + 1 <= |A| + 1
     && y < vec[0].c <= vec[0].d + 1 <= |B| + 1
     && !vec[0].Empty()
     && A[x..vec[0].a - 1] == B[y..vec[0].c - 1]
     && Inside(vec[1..], vec[0].b, vec[0].d, A, B))
  }

  lemma {:induction false} InsideOrdered(vec: seq<Hunk>, x: nat, y: nat, A: seq<string>, B: seq<string>)
    requires x <= |A| && y <= |B| && Inside(vec, x, y, A, B)
    ensures Ordered(vec, x, y, |A|, |B|)
  {
    if vec != [] {
      InsideOrdered(vec[1..], vec[0].b, vec[0].d, A, B);
    }
  }

  /** Position after the last hunk. */
  function LastB(vec: seq<Hunk>, x: int): int { if vec == [] then x else vec[|vec| - 1].b }
  function LastD(vec: seq<Hunk>, y: int): int { if vec == [] then y else vec[|vec| - 1].d }

  lemma {:induction false} CoversSplit(vec: seq<Hunk>, more: seq<Hunk>, x: nat, y: nat, A: seq<string>, B: seq<string>)
    requires x <= |A| && y <= |B| && Covers(vec + more, x, y, A, B)
    ensures Inside(vec, x, y, A, B)
    ensures 0 <= LastB(vec, x) <= |A| && 0 <= LastD(vec, y) <= |B|
    ensures Covers(more, LastB(vec, x), LastD(vec, y), A, B)
  {
    if vec == [] {
      assert vec + more == more;
    } else {
      assert (vec + more)[1..] == vec[1..] + more;
      CoversSplit(vec[1..], more, vec[0].b, vec[0].d, A, B);
    }
  }

  /** Moving on by t lines within the common part. */
  lemma CoversLater(hs: seq<Hunk>, x: nat, y: nat, t: nat, A: seq<string>, B: seq<string>)
    requires x <= |A| && y <= |B| && Covers(hs, x, y, A, B)
    requires if hs == [] then x + t <= |A| else x + t < hs[0].a
    ensures x + t <= |A| && y + t <= |B| && Covers(hs, x + t, y + t, A, B)
    ensures A[x..x + t] == B[y..y + t]
  {
    if hs == [] {
      assert |A[x..]| == |B[y..]|;
      assert A[x + t..] == A[x..][t..] && B[y + t..] == B[y..][t..];
      assert A[x..x + t] == A[x..][..t] && B[y..y + t] == B[y..][..t];
    } else {
      var u, v := A[x..hs[0].a - 1], B[y..hs[0].c - 1];
      assert |u| == |v|;
      assert A[x + t..hs[0].a - 1] == u[t..] && B[y + t..hs[0].c - 1] == v[t..];
      assert A[x..x + t] == u[..t] && B[y..y + t] == v[..t];
    }
  }

  lemma CoversTo(hs: seq<Hunk>, x: nat, y: nat, x': nat, y': nat, A: seq<string>, B: seq<string>)
    requires x <= |A| && y <= |B| && Covers(hs, x, y, A, B) && x <= x' && x' - x == y' - y
    requires if hs == [] then x' <= |A| else x' < hs[0].a
    ensures x' <= |A| && y' <= |B| && Covers(hs, x', y', A, B)
    ensures A[x..x'] == B[y..y']
  {
    hide Covers;
    CoversLater(hs, x, y, x' - x, A, B);
    assert x + (x' - x) == x' && y + (x' - x) == y';
  }

  /** The lines of a piece in the parts that the reader takes. */
  lemma PieceParts(h: Hunk, la: int, lc: int, tail: seq<string>, A: seq<string>, B: seq<string>)
    requires 1 <= la <= h.a <= h.b + 1 <= |A| + 1 && 1 <= lc <= h.c <= h.d + 1 <= |B| + 1
    requires A[la - 1..h.a - 1] == B[lc - 1..h.c - 1]
    ensures var com := A[la - 1..h.a - 1];
      var P, M, I := Prefixed(" ", com), Prefixed("-", Sub(A, h.a, h.b)), Prefixed("+", Sub(B, h.c, h.d));
      Piece(h, la, lc, A, B) + tail == P + (M + (I + tail))
  {
    hide Prefixed, Piece;
    var P, M, I := Prefixed(" ", A[la - 1..h.a - 1]), Prefixed("-", Sub(A, h.a, h.b)), Prefixed("+", Sub(B, h.c, h.d));
    PieceJoined(h, la, lc, A, B);
    Sequences.AssocFour(P, M, I, tail);
  }

  lemma PieceJoined(h: Hunk, la: int, lc: int, A: seq<string>, B: seq<string>)
    requires 1 <= la <= h.a <= h.b + 1 <= |A| + 1 && 1 <= lc <= h.c <= h.d + 1 <= |B| + 1
    requires A[la - 1..h.a - 1] == B[lc - 1..h.c - 1]
    ensures Piece(h, la, lc, A, B) == Prefixed(" ", A[la - 1..h.a - 1]) + Prefixed("-", Sub(A, h.a, h.b))
                                      + Prefixed("+", Sub(B, h.c, h.d))
  {
    hide Prefixed;
    PrefixedNothing("-");
    Sequences.Whole(Prefixed(" ", A[la - 1..h.a - 1]));
  }

  lemma PrefixedNothing(lead: string)
    ensures Prefixed(lead, []) == []
  {}

  lemma {:induction false} PieceRead(h: Hunk, la: int, lc: int, tail: seq<string>, o: nat, n: nat, A: seq<string>,
                                     B: seq<string>)
    requires 1 <= la <= h.a <= h.b + 1 <= |A| + 1 && 1 <= lc <= h.c <= h.d + 1 <= |B| + 1
    requires A[la - 1..h.a - 1] == B[lc - 1..h.c - 1]
    requires h.b - la + 1 <= o && h.d - lc + 1 <= n
    ensures ReadBody(Piece(h, la, lc, A, B) + tail, o, n, A, la - 1)
         == Cons(B[lc - 1..h.d], ReadBody(tail, o - (h.b - la + 1), n - (h.d - lc + 1), A, h.b))
  {
    hide ReadBody, Cons, Prefixed, Piece;
    var com, ins := A[la - 1..h.a - 1], Sub(B, h.c, h.d);
    assert |com| == h.a - la == h.c - lc by { assert |B[lc - 1..h.c - 1]| == h.c - lc; }
    var rest := ReadBody(tail, o - (h.b - la + 1), n - (h.d - lc + 1), A, h.b);
    Sequences.Cut(B, lc - 1, h.c - 1, h.d);
    PieceParts(h, la, lc, tail, A, B);
    ReadContext(com, Prefixed("-", Sub(A, h.a, h.b)) + (Prefixed("+", ins) + tail), o, n, A, la - 1);
    ReadChange(h, tail, o - |com|, n - |com|, A, B);
    ConsTwice(com, ins, rest);
  }

  /** The old lines of a hunk are passed and its new lines come out. */
  lemma ReadChange(h: Hunk, tail: seq<string>, o: nat, n: nat, A: seq<string>, B: seq<string>)
    requires 1 <= h.a <= h.b + 1 <= |A| + 1 && 1 <= h.c <= h.d + 1 <= |B| + 1
    requires h.b - h.a + 1 <= o && h.d - h.c + 1 <= n
    ensures ReadBody(Prefixed("-", Sub(A, h.a, h.b)) + (Prefixed("+", Sub(B, h.c, h.d)) + tail), o, n, A, h.a - 1)
         == Cons(Sub(B, h.c, h.d), ReadBody(tail, o - (h.b - h.a + 1), n - (h.d - h.c + 1), A, h.b))
  {
    hide ReadBody, Cons, Prefixed;
    ReadOld(Sub(A, h.a, h.b), Prefixed("+", Sub(B, h.c, h.d)) + tail, o, n, A, h.a - 1);
    ReadNew(Sub(B, h.c, h.d), tail, o - (h.b - h.a + 1), n, A, h.b);
  }

  lemma {:induction false} BodyRead(vec: seq<Hunk>, la: int, lc: int, tail: seq<string>, o: nat, n: nat,
                                    A: seq<string>, B: seq<string>)
    requires 1 <= la <= |A| + 1 && 1 <= lc <= |B| + 1 && Inside(vec, la - 1, lc - 1, A, B)
    requires Ordered(vec, la - 1, lc - 1, |A|, |B|)
    requires LastB(vec, la - 1) - la + 1 <= o && LastD(vec, lc - 1) - lc + 1 <= n
    ensures la - 1 <= LastB(vec, la - 1) <= |A| && lc - 1 <= LastD(vec, lc - 1) <= |B|
    ensures ReadBody(Body(vec, la, lc, A, B) + tail, o, n, A, la - 1)
         == Cons(B[lc - 1..LastD(vec, lc - 1)],
                 ReadBody(tail, o - (LastB(vec, la - 1) - la + 1), n - (LastD(vec, lc - 1) - lc + 1), A,
                          LastB(vec, la - 1)))
    decreases |vec|
  {
    hide ReadBody, Cons, Piece;
    if vec == [] {
      assert Body(vec, la, lc, A, B) + tail == tail;
      ConsNothing(ReadBody(tail, o, n, A, la - 1));
    } else {
      var h, t := vec[0], vec[1..];
      OrderedLast(vec, la - 1, lc - 1, |A|, |B|);
      var piece, more := Piece(h, la, lc, A, B), Body(t, h.b + 1, h.d + 1, A, B);
      Sequences.Assoc(piece, more, tail);
      TailLast(vec, la - 1, lc - 1, |A|, |B|);
      PieceRead(h, la, lc, more + tail, o, n, A, B);
      BodyRead(t, h.b + 1, h.d + 1, tail, o - (h.b - la + 1), n - (h.d - lc + 1), A, B);
      var b, d := LastB(vec, la - 1), LastD(vec, lc - 1);
      ConsTwice(B[lc - 1..h.d], B[h.d..d], ReadBody(tail, o - (b - la + 1), n - (d - lc + 1), A, b));
      Sequences.Cut(B, lc - 1, h.d, d);
    }
  }

  lemma TailLast(vec: seq<Hunk>, x: int, y: int, n: int, m: int)
    requires vec != [] && Ordered(vec, x, y, n, m)
    ensures LastB(vec[1..], vec[0].b) == LastB(vec, x) >= vec[0].b
    ensures LastD(vec[1..], vec[0].d) == LastD(vec, y) >= vec[0].d
  {
    if |vec| > 1 {
      OrderedLast(vec[1..], vec[0].b, vec[0].d, n, m);
    }
  }

  /** What a window shows: old lines la..ub and new lines lc..ud. */
  datatype Window = Window(la: nat, ub: nat, lc: nat, ud: nat)

  ghost predicate WindowOf(w: Window, vec: seq<Hunk>, ctx: nat, n: nat, m: nat) {
    && vec != []
    && w.la == LowA(vec, ctx) && w.ub == UpB(vec, ctx, n)
    && w.lc == LowC(vec, ctx) && w.ud == UpD(vec, ctx, m)
  }

  /** The window is within the files, and the group fills it: its hunks lie inside, and what it shows before,
      between and after them is common to both files. */
  ghost predicate Fills(w: Window, vec: seq<Hunk>, A: seq<string>, B: seq<string>) {
    && 1 <= w.la <= w.ub + 1 <= |A| + 1 && 1 <= w.lc <= w.ud + 1 <= |B| + 1
    && Inside(vec, w.la - 1, w.lc - 1, A, B)
    && w.la - 1 <= LastB(vec, 0) <= w.ub && w.lc - 1 <= LastD(vec, 0) <= w.ud
    && A[LastB(vec, 0)..w.ub] == B[LastD(vec, 0)..w.ud]
  }

  function Then(p: seq<string>, r: Option<seq<string>>): Option<seq<string>> {
    if r.None? then r else Some(p + r.value)
  }

  /** A dumped group reads back: the header counts are used up exactly, old lines la..ub are there, and
      new lines lc..ud come out. */
  lemma {:induction false} DumpRead(w: Window, vec: seq<Hunk>, ctx: nat, tail: seq<string>, A: seq<string>,
                                    B: seq<string>, x: nat, y: nat)
    requires Group(vec, |A|, |B|) && WindowOf(w, vec, ctx, |A|, |B|) && Fills(w, vec, A, B)
    requires x <= w.la - 1 <= w.ub <= |A| && 0 <= w.lc - 1 <= w.ud <= |B| && y + (w.la - 1 - x) == w.lc - 1
    ensures Run(Dump(vec, ctx, A, B) + tail, A, x, y)
         == Then(A[x..w.la - 1] + B[w.lc - 1..w.ud], Run(tail, A, w.ub, w.ud))
  {
    hide Inside, Ordered, ReadBody, Body, Prefixed, ParseHeader, UniRange;
    InsideOrdered(vec, w.la - 1, w.lc - 1, A, B);
    var body := Body(vec, w.la, w.lc, A, B) + (Prefixed(" ", Sub(B, LastD(vec, 0) + 1, w.ud)) + tail);
    DumpText(w, vec, ctx, tail, A, B);
    ParseHeaderText(w.la, w.ub, w.lc, w.ud);
    GroupBodyRead(w, vec, tail, A, B);
    RunGroup(Header(vec, ctx, |A|, |B|), body, w, B[w.lc - 1..w.ud], tail, A, x, y);
  }

  lemma DumpText(w: Window, vec: seq<Hunk>, ctx: nat, tail: seq<string>, A: seq<string>, B: seq<string>)
    requires Group(vec, |A|, |B|) && WindowOf(w, vec, ctx, |A|, |B|)
    requires 1 <= w.la && 1 <= w.lc && Ordered(vec, w.la - 1, w.lc - 1, |A|, |B|)
    requires 0 <= LastD(vec, 0) <= w.ud <= |B|
    ensures Header(vec, ctx, |A|, |B|) == "@@ -" + UniRange(w.la, w.ub) + " +" + UniRange(w.lc, w.ud) + " @@"
    ensures Dump(vec, ctx, A, B) + tail
         == [Header(vec, ctx, |A|, |B|)]
            + (Body(vec, w.la, w.lc, A, B) + (Prefixed(" ", Sub(B, LastD(vec, 0) + 1, w.ud)) + tail))
  {
    hide Ordered, Body, Prefixed, UniRange, Header, Dump;
    HeaderText(w, vec, ctx, |A|, |B|);
    DumpParts(w, vec, ctx, A, B);
    Sequences.AssocFour([Header(vec, ctx, |A|, |B|)], Body(vec, w.la, w.lc, A, B),
                        Prefixed(" ", Sub(B, LastD(vec, 0) + 1, w.ud)), tail);
  }

  lemma HeaderText(w: Window, vec: seq<Hunk>, ctx: nat, n: nat, m: nat)
    requires Group(vec, n, m) && WindowOf(w, vec, ctx, n, m)
    ensures Header(vec, ctx, n, m) == "@@ -" + UniRange(w.la, w.ub) + " +" + UniRange(w.lc, w.ud) + " @@"
  {
    hide Ordered, UniRange;
  }

  lemma DumpParts(w: Window, vec: seq<Hunk>, ctx: nat, A: seq<string>, B: seq<string>)
    requires Group(vec, |A|, |B|) && WindowOf(w, vec, ctx, |A|, |B|)
    requires 1 <= w.la && 1 <= w.lc && Ordered(vec, w.la - 1, w.lc - 1, |A|, |B|)
    requires 0 <= LastD(vec, 0) <= w.ud <= |B|
    ensures Dump(vec, ctx, A, B)
         == [Header(vec, ctx, |A|, |B|)] + Body(vec, w.la, w.lc, A, B) + Prefixed(" ", Sub(B, LastD(vec, 0) + 1, w.ud))
  {
    hide Ordered, Body, Prefixed, Header;
  }

  lemma {:induction false} GroupBodyRead(w: Window, vec: seq<Hunk>, tail: seq<string>, A: seq<string>, B: seq<string>)
    requires vec != [] && Fills(w, vec, A, B) && 1 <= w.la && 1 <= w.lc && Ordered(vec, w.la - 1, w.lc - 1, |A|, |B|)
    requires w.la - 1 <= w.ub && w.lc - 1 <= w.ud <= |B| && 0 <= LastD(vec, 0) <= w.ud
    ensures ReadBody(Body(vec, w.la, w.lc, A, B) + (Prefixed(" ", Sub(B, LastD(vec, 0) + 1, w.ud)) + tail),
                     w.ub - w.la + 1, w.ud - w.lc + 1, A, w.la - 1)
      == Some((B[w.lc - 1..w.ud], tail))
  {
    hide Inside, Ordered, Body, Prefixed, ReadBody;
    var b, d := LastB(vec, 0), LastD(vec, 0);
    var L := Sub(B, d + 1, w.ud);
    assert L == B[d..w.ud];
    assert |L| == |A[b..w.ub]| == w.ub - b;
    BodyRead(vec, w.la, w.lc, Prefixed(" ", L) + tail, w.ub - w.la + 1, w.ud - w.lc + 1, A, B);
    ReadContext(L, tail, w.ub - b, w.ud - d, A, b);
    ReadDone(tail, A, w.ub);
    ConsTwice(B[w.lc - 1..d], L, Some(([], tail)));
    assert B[w.lc - 1..d] + L == B[w.lc - 1..w.ud];
    assert B[w.lc - 1..w.ud] + [] == B[w.lc - 1..w.ud];
  }

  lemma ReadDone(tail: seq<string>, A: seq<string>, pos: nat)
    ensures ReadBody(tail, 0, 0, A, pos) == Some(([], tail))
  {
  }

  lemma RunGroup(head: string, body: seq<string>, w: Window, text: seq<string>, tail: seq<string>, A: seq<string>,
                 x: nat, y: nat)
    requires x <= w.la - 1 <= w.ub <= |A| && 0 <= w.lc - 1 <= w.ud && y + (w.la - 1 - x) == w.lc - 1
    requires ParseHeader(head) == Some((if w.la > w.ub then w.ub else w.la, w.ub - w.la + 1,
                                                 if w.lc > w.ud then w.ud else w.lc, w.ud - w.lc + 1))
    requires ReadBody(body, w.ub - w.la + 1, w.ud - w.lc + 1, A, w.la - 1) == Some((text, tail))
    ensures Run([head] + body, A, x, y) == Then(A[x..w.la - 1] + text, Run(tail, A, w.ub, w.ud))
  {
    hide ParseHeader, ReadBody;
    assert ([head] + body)[1..] == body;
  }

  // ---------------------------------------------------------------- the whole output

  /** What change and output still print when cur is in context_vec and hs is to come. */
  function Rest(cur: seq<Hunk>, hs: seq<Hunk>, ctx: nat, A: seq<string>, B: seq<string>): seq<string>
    requires Ordered(cur + hs, 0, 0, |A|, |B|)
    decreases |hs|
  {
    if hs == [] then
      assert cur + hs == cur;
      if cur == [] then [] else Dump(cur, ctx, A, B)
    else if cur != [] && Far(cur[|cur| - 1], hs[0], ctx) then
      OrderedParts(cur, hs, 0, 0, |A|, |B|);
      Dump(cur, ctx, A, B) + Rest([hs[0]], hs[1..], ctx, A, B)
    else
      assert (cur + [hs[0]]) + hs[1..] == cur + hs;
      Rest(cur + [hs[0]], hs[1..], ctx, A, B)
  }

  lemma {:induction false} OrderedParts(cur: seq<Hunk>, hs: seq<Hunk>, x: int, y: int, n: int, m: int)
    requires 0 <= x && 0 <= y && Ordered(cur + hs, x, y, n, m)
    ensures Ordered(cur, x, y, n, m)
    ensures Ordered(hs, LastB(cur, x), LastD(cur, y), n, m)
    ensures Ordered(hs, 0, 0, n, m)
    ensures hs != [] ==> [hs[0]] + hs[1..] == hs
    ensures LastB(cur, x) >= x && LastD(cur, y) >= y
  {
    if cur == [] {
      assert cur + hs == hs;
    } else {
      assert (cur + hs)[1..] == cur[1..] + hs;
      OrderedParts(cur[1..], hs, cur[0].b, cur[0].d, n, m);
    }
  }

  /** The window of cur starts at or after position (x, y), equally far on both sides. */
  ghost predicate StartsAfter(cur: seq<Hunk>, ctx: nat, x: int, y: int) {
    cur != [] && x <= LowA(cur, ctx) - 1 && y <= LowC(cur, ctx) - 1 && LowA(cur, ctx) - 1 - x == LowC(cur, ctx) - 1 - y
  }

  /** A group that ends the output or is far from the next hunk fills its window, and the next window starts
      behind it: the windows ascend and never share a line. */
  lemma {:induction false} GroupFills(cur: seq<Hunk>, hs: seq<Hunk>, ctx: nat, A: seq<string>, B: seq<string>, x: nat,
                                      y: nat)
    returns (w: Window)
    requires x <= |A| && y <= |B| && Covers(cur + hs, x, y, A, B) && Ordered(cur + hs, 0, 0, |A|, |B|)
    requires StartsAfter(cur, ctx, x, y)
    requires hs == [] || Far(cur[|cur| - 1], hs[0], ctx)
    ensures WindowOf(w, cur, ctx, |A|, |B|) && Fills(w, cur, A, B) && Group(cur, |A|, |B|)
    ensures x <= w.la - 1 && y + (w.la - 1 - x) == w.lc - 1 <= |B| && A[x..w.la - 1] == B[y..w.lc - 1]
    ensures w.ub <= |A| && w.ud <= |B| && Covers(hs, w.ub, w.ud, A, B)
    ensures hs != [] ==> StartsAfter([hs[0]], ctx, w.ub, w.ud)
  {
    hide Covers, Inside, Ordered, Far, Fills, StartsAfter, LowA, LowC, UpB, UpD;
    OrderedParts(cur, hs, 0, 0, |A|, |B|);
    StartIs(cur, ctx, x, y);
    GroupEnds(cur, ctx, |A|, |B|);
    assert (cur + hs)[0] == cur[0];
    w := Window(LowA(cur, ctx), UpB(cur, ctx, |A|), LowC(cur, ctx), UpD(cur, ctx, |B|));
    CoversTo(cur + hs, x, y, w.la - 1, w.lc - 1, A, B);
    CoversSplit(cur, hs, w.la - 1, w.lc - 1, A, B);
    TrailEqual(cur, hs, ctx, A, B);
    InsideOrdered(cur, w.la - 1, w.lc - 1, A, B);
    OrderedLast(cur, w.la - 1, w.lc - 1, |A|, |B|);
    CoversTo(hs, LastB(cur, 0), LastD(cur, 0), w.ub, w.ud, A, B);
    FillsIf(w, cur, A, B);
  }

  lemma StartIs(cur: seq<Hunk>, ctx: nat, x: int, y: int)
    requires StartsAfter(cur, ctx, x, y)
    ensures cur != [] && x <= LowA(cur, ctx) - 1 && y <= LowC(cur, ctx) - 1
    ensures LowA(cur, ctx) - 1 - x == LowC(cur, ctx) - 1 - y
  {
  }

  lemma FillsIf(w: Window, vec: seq<Hunk>, A: seq<string>, B: seq<string>)
    requires 1 <= w.la <= w.ub + 1 <= |A| + 1 && 1 <= w.lc <= w.ud + 1 <= |B| + 1
    requires Inside(vec, w.la - 1, w.lc - 1, A, B)
    requires w.la - 1 <= LastB(vec, 0) <= w.ub && w.lc - 1 <= LastD(vec, 0) <= w.ud
    requires A[LastB(vec, 0)..w.ub] == B[LastD(vec, 0)..w.ud]
    ensures Fills(w, vec, A, B)
  {
  }

  /** The context after a group is equally long on both sides. */
  lemma TrailEqual(cur: seq<Hunk>, hs: seq<Hunk>, ctx: nat, A: seq<string>, B: seq<string>)
    requires cur != [] && 0 <= LastB(cur, 0) <= |A| && 0 <= LastD(cur, 0) <= |B|
    requires Covers(hs, LastB(cur, 0), LastD(cur, 0), A, B)
    requires hs == [] || Far(cur[|cur| - 1], hs[0], ctx)
    ensures UpB(cur, ctx, |A|) - LastB(cur, 0) == UpD(cur, ctx, |B|) - LastD(cur, 0) >= 0
    ensures hs != [] ==>
      UpB(cur, ctx, |A|) < hs[0].a && StartsAfter([hs[0]], ctx, UpB(cur, ctx, |A|), UpD(cur, ctx, |B|))
  {
    var b, d := LastB(cur, 0), LastD(cur, 0);
    if hs == [] {
      assert |A[b..]| == |B[d..]|;
    } else {
      assert |A[b..hs[0].a - 1]| == |B[d..hs[0].c - 1]|;
    }
  }

  /** The unified output of hunks that cover the files rebuilds B from A. */
  lemma {:induction false} RestRead(cur: seq<Hunk>, hs: seq<Hunk>, ctx: nat, A: seq<string>, B: seq<string>, x: nat,
                                    y: nat)
    requires x <= |A| && y <= |B| && Covers(cur + hs, x, y, A, B) && Ordered(cur + hs, 0, 0, |A|, |B|)
    requires if cur == [] then x == y == 0 else StartsAfter(cur, ctx, x, y)
    ensures Run(Rest(cur, hs, ctx, A, B), A, x, y) == Some(B[y..])
    decreases |hs|
  {
    hide Run, Dump, Fills, WindowOf, Group, Far, StartsAfter;
    if cur == [] && hs == [] {
      RestNothing(ctx, A, B);
      RunNothing(A, 0, 0);
      assert cur + hs == [];
      EndEqual(A, B, 0, 0);
    } else if hs == [] {
      RestLast(cur, ctx, A, B);
      FlushRead(cur, [], ctx, A, B, x, y);
    } else if cur != [] && Far(cur[|cur| - 1], hs[0], ctx) {
      FlushRead(cur, hs, ctx, A, B, x, y);
    } else {
      assert (cur + [hs[0]]) + hs[1..] == cur + hs;
      StartGrows(cur, hs, ctx, A, B, x, y);
      RestRead(cur + [hs[0]], hs[1..], ctx, A, B, x, y);
    }
  }

  lemma StartGrows(cur: seq<Hunk>, hs: seq<Hunk>, ctx: nat, A: seq<string>, B: seq<string>, x: nat, y: nat)
    requires hs != [] && x <= |A| && y <= |B| && Covers(cur + hs, x, y, A, B)
    requires if cur == [] then x == y == 0 else StartsAfter(cur, ctx, x, y)
    ensures StartsAfter(cur + [hs[0]], ctx, x, y)
  {
    if cur == [] {
      assert cur + hs == hs;
      assert |A[0..hs[0].a - 1]| == |B[0..hs[0].c - 1]|;
    }
  }

  lemma RestNothing(ctx: nat, A: seq<string>, B: seq<string>)
    ensures Rest([], [], ctx, A, B) == []
  {
  }

  lemma RestLast(cur: seq<Hunk>, ctx: nat, A: seq<string>, B: seq<string>)
    requires cur != [] && Ordered(cur + [], 0, 0, |A|, |B|)
    ensures Group(cur, |A|, |B|) && Rest(cur, [], ctx, A, B) == Dump(cur, ctx, A, B) + []
  {
    assert cur + [] == cur;
  }

  lemma RunNothing(A: seq<string>, x: nat, y: nat)
    requires x <= |A|
    ensures Run([], A, x, y) == Some(A[x..])
  {
  }

  lemma {:induction false} FlushRead(cur: seq<Hunk>, hs: seq<Hunk>, ctx: nat, A: seq<string>, B: seq<string>, x: nat,
                                     y: nat)
    requires x <= |A| && y <= |B| && Covers(cur + hs, x, y, A, B) && Ordered(cur + hs, 0, 0, |A|, |B|)
    requires StartsAfter(cur, ctx, x, y)
    requires hs == [] || Far(cur[|cur| - 1], hs[0], ctx)
    ensures Run(Rest(cur, hs, ctx, A, B), A, x, y) == Some(B[y..])
    decreases |hs|, 0
  {
    hide Run, Dump, Fills, WindowOf, Group, Far, Covers;
    var w := GroupFills(cur, hs, ctx, A, B, x, y);
    WindowBounds(w, cur, A, B);
    if hs == [] {
      assert cur + hs == cur + [];
      RestLast(cur, ctx, A, B);
      DumpRead(w, cur, ctx, [], A, B, x, y);
      RunNothing(A, w.ub, w.ud);
      EndEqual(A, B, w.ub, w.ud);
    } else {
      OrderedParts(cur, hs, 0, 0, |A|, |B|);
      var tail := Rest([hs[0]], hs[1..], ctx, A, B);
      DumpRead(w, cur, ctx, tail, A, B, x, y);
      RestRead([hs[0]], hs[1..], ctx, A, B, w.ub, w.ud);
    }
    Glue(A[x..w.la - 1], B, y, w.lc - 1, w.ud);
  }

  lemma WindowBounds(w: Window, vec: seq<Hunk>, A: seq<string>, B: seq<string>)
    requires Fills(w, vec, A, B)
    ensures 1 <= w.la <= w.ub + 1 <= |A| + 1 && 1 <= w.lc <= w.ud + 1 <= |B| + 1
  {
  }

  lemma EndEqual(A: seq<string>, B: seq<string>, x: nat, y: nat)
    requires x <= |A| && y <= |B| && Covers([], x, y, A, B)
    ensures A[x..] == B[y..]
  {
  }

  lemma Glue(p: seq<string>, B: seq<string>, y: nat, c: nat, d: nat)
    requires y <= c <= d <= |B| && p == B[y..c]
    ensures (p + B[c..d]) + B[d..] == B[y..]
  {
    assert B[y..c] + B[c..d] == B[y..d];
    assert B[y..d] + B[d..] == B[y..];
  }
}
