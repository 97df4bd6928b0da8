/** equiv and unsort: equivalence classes of equal lines, squeezed into the memory of the second table.
    The array member starts at cell 0 of the table whose lines are still being read from entry pref on. */
module Equivalence {
  import opened LineTable
  import opened Stone

  /** j is the number of the first entry of b with value v, or 0 when there is none. */
  ghost predicate FirstWith(b: seq<Line>, v: int, j: int) {
    if j == 0 then forall t :: 0 <= t < |b| ==> b[t].value != v
    else 1 <= j <= |b| && b[j - 1].value == v && forall t :: 0 <= t < j - 1 ==> b[t].value != v
  }

  /** Cell j of member: the serial of entry j, negated on the first entry of each class, and -1 at the end. */
  ghost function MemberAt(b: seq<Line>, j: int): int
    requires 1 <= j <= |b| + 1
  {
    if j == |b| + 1 then -1
    else if j == 1 || b[j - 2].value != b[j - 1].value then -b[j - 1].serial
    else b[j - 1].serial
  }

  /** First half of equiv: replace each value of the first table by the index of its class in the second. */
  method LookUp(f0: array<int>, f1: array<int>, p: nat, n: nat, m: nat)
    requires f0 != f1 && 2 * (p + n) + 1 < f0.Length && 2 * (p + m) + 1 < f1.Length
    requires Sorted(Lines(f0, p, n)) && Sorted(Lines(f1, p, m))
    modifies f0
    ensures forall x: nat :: p < x <= p + n ==> Serial(f0, x) == old(Serial(f0, x))
    ensures forall x: nat :: p < x <= p + n ==> FirstWith(Lines(f1, p, m), old(Value(f0, x)), Value(f0, x))
  {
    hide Lines, Sorted, FirstWith;
    ghost var a, b := Lines(f0, p, n), Lines(f1, p, m);
    var i, j := 1, 1;
    while i <= n && j <= m
      invariant 1 <= i <= n + 1 && 1 <= j <= m + 1
      invariant forall x: nat :: p + 1 <= x <= p + n ==> Serial(f0, x) == old(Serial(f0, x))
      invariant forall x: nat :: p + i <= x <= p + n ==> Value(f0, x) == old(Value(f0, x))
      invariant forall x: nat :: p < x < p + i ==> FirstWith(b, old(Value(f0, x)), Value(f0, x))
      invariant i <= n && j > 1 ==> b[j - 2].value < a[i - 1].value
      decreases n - i + m - j
    {
      assert Value(f0, p + i) == a[i - 1].value && Value(f1, p + j) == b[j - 1].value;
      SortedStep(a, i);
      if Value(f0, p + i) < Value(f1, p + j) {
        NoneWith(b, a[i - 1].value, j);
        f0[2 * (p + i) + 1] := 0;
        i := i + 1;
      } else if Value(f0, p + i) == Value(f1, p + j) {
        FoundWith(b, a[i - 1].value, j);
        f0[2 * (p + i) + 1] := j;
        i := i + 1;
      } else {
        j := j + 1;
      }
    }
    while i <= n
      invariant 1 <= i <= n + 1 && 1 <= j <= m + 1
      invariant i <= n ==> j == m + 1
      invariant forall x: nat :: p + 1 <= x <= p + n ==> Serial(f0, x) == old(Serial(f0, x))
      invariant forall x: nat :: p < x < p + i ==> FirstWith(b, old(Value(f0, x)), Value(f0, x))
      invariant i <= n && j > 1 ==> b[j - 2].value < a[i - 1].value
    {
      SortedStep(a, i);
      NoneWith(b, a[i - 1].value, j);
      f0[2 * (p + i) + 1] := 0;
      i := i + 1;
    }
  }

  lemma SortedStep(a: seq<Line>, i: int)
    requires Sorted(a) && 1 <= i <= |a|
    ensures i < |a| ==> a[i - 1].value <= a[i].value
  {
  }

  lemma NoneWith(b: seq<Line>, v: int, j: int)
    requires Sorted(b) && 1 <= j <= |b| + 1
    requires j > 1 ==> b[j - 2].value < v
    requires j <= |b| ==> v < b[j - 1].value
    ensures FirstWith(b, v, 0)
  {
    forall t | 0 <= t < |b| ensures b[t].value != v {
      assert t < j - 2 ==> Le(b[t], b[j - 2]);
      assert t > j - 1 ==> Le(b[j - 1], b[t]);
    }
  }

  lemma FoundWith(b: seq<Line>, v: int, j: int)
    requires Sorted(b) && 1 <= j <= |b|
    requires j > 1 ==> b[j - 2].value < v
    requires v == b[j - 1].value
    ensures FirstWith(b, v, j)
  {
    forall t | 0 <= t < j - 1 ensures b[t].value != v {
      assert t < j - 2 ==> Le(b[t], b[j - 2]);
    }
  }

  /** Second half of equiv: write the classes one after the other into cells 1..m+1 of the very table
      they are read from. No cell is read after it has been overwritten. */
  method Squeeze(f1: array<int>, p: nat, m: nat)
    requires 2 * (p + m + 1) + 1 < f1.Length
    requires m > 0 ==> Value(f1, p + m) != 0
    modifies f1
    ensures forall j :: 1 <= j <= m + 1 ==> f1[j] == MemberAt(old(Lines(f1, p, m)), j)
  {
    hide Lines, MemberAt, Squeezing;
    ghost var b, was := Lines(f1, p, m), f1[..];
    EntriesRead(f1, p, m);
    f1[2 * (p + m + 1) + 1] := 0;
    SqueezeStart(was, b, p, f1[..]);
    var j := 0;
    while true
      invariant 0 <= j <= m && Squeezing(was, b, p, f1[..], j)
      invariant 0 < j < m ==> b[j - 1].value != b[j].value
      decreases m - j
    {
      j := j + 1;
      if j > m {
        break;
      }
      j := SqueezeClass(f1, p, m, was, b, j);
    }
    SqueezeNext(was, b, p, f1[..], m);
    f1[j] := -1;
    LastMember(b);
    SqueezeEnd(was, b, p, f1[..]);
  }

  /** One round of the loop: the cells of the class that starts at entry j0, up to its last entry j. */
  method SqueezeClass(f1: array<int>, p: nat, m: nat, ghost was: seq<int>, ghost b: seq<Line>, j0: nat) returns (j: nat)
    requires m == |b| && 1 <= j0 <= m && 2 * (p + m + 1) + 1 < f1.Length
    requires Squeezing(was, b, p, f1[..], j0 - 1)
    requires j0 > 1 ==> b[j0 - 2].value != b[j0 - 1].value
    modifies f1
    ensures j0 <= j <= m && Squeezing(was, b, p, f1[..], j)
    ensures j < m ==> b[j - 1].value != b[j].value
  {
    hide MemberAt, Squeezing;
    j := j0;
    FirstMember(b, j);
    SqueezeNext(was, b, p, f1[..], j - 1);
    f1[j] := -f1[2 * (p + j)];
    SqueezeReads(was, b, p, f1[..], j);
    while f1[2 * (p + j + 1) + 1] == f1[2 * (p + j) + 1]
      invariant j0 <= j <= m && Squeezing(was, b, p, f1[..], j)
      decreases m - j
    {
      SqueezeReads(was, b, p, f1[..], j);
      j := j + 1;
      NextMember(b, j);
      SqueezeNext(was, b, p, f1[..], j - 1);
      f1[j] := f1[2 * (p + j)];
    }
    SqueezeReads(was, b, p, f1[..], j);
  }

  /** The entries b, as they are in the cells of the table. */
  ghost predicate Holds(cells: seq<int>, b: seq<Line>, p: nat) {
    && 2 * (p + |b| + 1) + 1 < |cells|
    && forall t :: 0 <= t < |b| ==> b[t] == Line(cells[2 * (p + 1 + t)], cells[2 * (p + 1 + t) + 1])
  }

  lemma EntriesRead(f: array<int>, p: nat, m: nat)
    requires 2 * (p + m + 1) + 1 < f.Length
    ensures |Lines(f, p, m)| == m && Holds(f[..], Lines(f, p, m), p)
    ensures m > 0 ==> Lines(f, p, m)[m - 1].value == Value(f, p + m)
  {
  }

  /** With j cells of member written, the cells behind them are as they were, but for the sentinel. */
  ghost predicate Squeezing(was: seq<int>, b: seq<Line>, p: nat, now: seq<int>, j: nat) {
    var end := 2 * (p + |b| + 1) + 1;
    && |now| == |was| && Holds(was, b, p) && j <= |b| + 1
    && (b != [] ==> b[|b| - 1].value != 0)
    && (forall c :: j < c < |now| ==> now[c] == if c == end then 0 else was[c])
    && (forall x :: 1 <= x <= j ==> now[x] == MemberAt(b, x))
  }

  lemma SqueezeStart(was: seq<int>, b: seq<Line>, p: nat, now: seq<int>)
    requires Holds(was, b, p) && now == was[2 * (p + |b| + 1) + 1 := 0]
    requires b != [] ==> b[|b| - 1].value != 0
    ensures Squeezing(was, b, p, now, 0)
  {
    hide MemberAt;
  }

  /** Cell j + 1 may be written: what is read for it, and what is still to be read, lies behind it. */
  lemma SqueezeNext(was: seq<int>, b: seq<Line>, p: nat, now: seq<int>, j: nat)
    requires Squeezing(was, b, p, now, j) && j <= |b|
    ensures j + 1 < |now| && Squeezing(was, b, p, now[j + 1 := MemberAt(b, j + 1)], j + 1)
    ensures j < |b| ==> 2 * (p + j + 1) < |now| && now[2 * (p + j + 1)] == b[j].serial
  {
    hide MemberAt;
    assert j < |b| ==> b[j] == Line(was[2 * (p + 1 + j)], was[2 * (p + 1 + j) + 1]);
  }

  /** The values that the inner loop compares, the sentinel included. */
  lemma SqueezeReads(was: seq<int>, b: seq<Line>, p: nat, now: seq<int>, j: nat)
    requires Squeezing(was, b, p, now, j) && 1 <= j <= |b|
    ensures 2 * (p + j + 1) + 1 < |now| && now[2 * (p + j) + 1] == b[j - 1].value
    ensures now[2 * (p + j + 1) + 1] == if j < |b| then b[j].value else 0
    ensures j == |b| ==> b[j - 1].value != 0
  {
    hide MemberAt;
    assert b[j - 1] == Line(was[2 * (p + 1 + (j - 1))], was[2 * (p + 1 + (j - 1)) + 1]);
    assert j < |b| ==> b[j] == Line(was[2 * (p + 1 + j)], was[2 * (p + 1 + j) + 1]);
  }

  lemma SqueezeEnd(was: seq<int>, b: seq<Line>, p: nat, now: seq<int>)
    requires Squeezing(was, b, p, now, |b| + 1)
    ensures |b| + 1 < |now| && forall j :: 1 <= j <= |b| + 1 ==> now[j] == MemberAt(b, j)
  {
    hide MemberAt;
  }

  lemma FirstMember(b: seq<Line>, j: int)
    requires 1 <= j <= |b| && (j > 1 ==> b[j - 2].value != b[j - 1].value)
    ensures MemberAt(b, j) == -b[j - 1].serial
  {
  }

  lemma NextMember(b: seq<Line>, j: int)
    requires 1 < j <= |b| && b[j - 2].value == b[j - 1].value
    ensures MemberAt(b, j) == b[j - 1].serial
  {
  }

  lemma LastMember(b: seq<Line>)
    ensures MemberAt(b, |b| + 1) == -1
  {
  }

  /** member as written by Squeeze, for the entries b. */
  ghost predicate Squeezed(mem: seq<int>, b: seq<Line>) {
    && |b| + 1 < |mem|
    && forall j :: 1 <= j <= |b| + 1 ==> mem[j] == MemberAt(b, j)
  }

  /** equiv: classes in the first table, members in the second. */
  method Equiv(f0: array<int>, f1: array<int>, p: nat, n: nat, m: nat)
    requires f0 != f1 && 2 * (p + n) + 1 < f0.Length && 2 * (p + m + 1) + 1 < f1.Length
    requires Sorted(Lines(f0, p, n)) && Sorted(Lines(f1, p, m))
    requires m > 0 ==> Value(f1, p + m) != 0
    modifies f0, f1
    ensures Looked(old(Lines(f0, p, n)), old(Lines(f1, p, m)), Lines(f0, p, n))
    ensures Squeezed(f1[..], old(Lines(f1, p, m)))
  {
    hide Lines, MemberAt, FirstWith, Sorted;
    ghost var a, b := Lines(f0, p, n), Lines(f1, p, m);
    assert forall t :: 0 <= t < n ==> a[t] == At(f0, p + 1 + t);
    LookUp(f0, f1, p, n, m);
    forall t | 0 <= t < n
      ensures Lines(f0, p, n)[t].serial == a[t].serial && FirstWith(b, a[t].value, Lines(f0, p, n)[t].value)
    {
      assert a[t] == old(At(f0, p + 1 + t)) && Lines(f0, p, n)[t] == At(f0, p + 1 + t);
      assert Serial(f0, p + 1 + t) == old(Serial(f0, p + 1 + t));
      assert FirstWith(b, old(Value(f0, p + 1 + t)), Value(f0, p + 1 + t));
    }
    Squeeze(f1, p, m);
  }

  /** The entries of c are those of a with their values replaced by the indices of their classes in b. */
  ghost predicate Looked(a: seq<Line>, b: seq<Line>, c: seq<Line>) {
    |c| == |a| && forall t :: 0 <= t < |a| ==> c[t].serial == a[t].serial && FirstWith(b, a[t].value, c[t].value)
  }

  /** Every number 1..|s| is the serial of exactly one entry. */
  ghost predicate Serials(s: seq<Line>) {
    && (forall t :: 0 <= t < |s| ==> 1 <= s[t].serial <= |s|)
    && (forall t, r :: 0 <= t < r < |s| ==> s[t].serial != s[r].serial)
  }

  /** unsort: put the value of the entry with serial s into cell s of the table it is read from. */
  method Unsort(f: array<int>, p: nat, l: nat)
    requires 2 * (p + l) + 1 < f.Length
    requires Serials(Lines(f, p, l))
    modifies f
    ensures forall t :: 0 <= t < l ==> f[old(Lines(f, p, l))[t].serial] == old(Lines(f, p, l))[t].value
  {
    hide Lines;
    ghost var e := Lines(f, p, l);
    var a := new int[l + 1];
    var i := 1;
    while i <= l
      invariant 1 <= i <= l + 1
      invariant f[..] == old(f[..])
      invariant forall t :: 0 <= t < i - 1 ==> a[e[t].serial] == e[t].value
    {
      assert e[i - 1] == old(At(f, p + i)) == Line(f[2 * (p + i)], f[2 * (p + i) + 1]);
      a[f[2 * (p + i)]] := f[2 * (p + i) + 1];
      i := i + 1;
    }
    i := 1;
    while i <= l
      invariant 1 <= i <= l + 1
      invariant forall t :: 0 <= t < l ==> a[e[t].serial] == e[t].value
      invariant forall s :: 1 <= s < i ==> f[s] == a[s]
    {
      f[i] := a[i];
      i := i + 1;
    }
  }

  lemma {:induction false} OnceOnly(s: seq<Line>, x: Line)
    requires forall i, j :: 0 <= i < j < |s| ==> s[i] != s[j]
    ensures multiset(s)[x] <= 1
  {
    if s != [] {
      assert s == [s[0]] + s[1..];
      OnceOnly(s[1..], x);
      if s[0] == x {
        assert x !in s[1..];
      }
    }
  }

  lemma {:induction false} AtLeastTwice(s: seq<Line>, i: nat, j: nat)
    requires i < j < |s| && s[i] == s[j]
    ensures multiset(s)[s[i]] >= 2
  {
    assert s == s[..j] + s[j..];
    assert s[i] in s[..j] && s[i] in s[j..];
    assert multiset(s) == multiset(s[..j]) + multiset(s[j..]);
  }

  /** A permutation of the numbered values v has every serial once, with its value. */
  lemma {:induction false} NumberedPermutation(s: seq<Line>, v: seq<int>)
    requires multiset(s) == multiset(Numbered(v))
    ensures |s| == |v|
    ensures forall t :: 0 <= t < |s| ==> 1 <= s[t].serial <= |v| && s[t].value == v[s[t].serial - 1]
    ensures forall z :: 0 <= z < |v| ==> Line(z + 1, v[z]) in s
    ensures Serials(s)
  {
    var n := Numbered(v);
    SameMembers(s, n);
    forall t | 0 <= t < |s| ensures 1 <= s[t].serial <= |v| && s[t].value == v[s[t].serial - 1] {
      assert s[t] in n;
    }
    forall z | 0 <= z < |v| ensures Line(z + 1, v[z]) in s {
      assert n[z] in s;
    }
    forall i, j | 0 <= i < j < |s| ensures s[i].serial != s[j].serial {
      DistinctPermutation(s, n, i, j);
      assert s[i].value == v[s[i].serial - 1] && s[j].value == v[s[j].serial - 1];
    }
  }

  lemma SameMembers(s: seq<Line>, n: seq<Line>)
    requires multiset(s) == multiset(n)
    ensures |s| == |n|
    ensures forall x :: x in s <==> x in n
  {
    assert |multiset(s)| == |s| && |multiset(n)| == |n|;
    assert forall x :: x in s <==> x in multiset(s);
    assert forall x :: x in n <==> x in multiset(n);
  }

  lemma DistinctPermutation(s: seq<Line>, n: seq<Line>, i: nat, j: nat)
    requires multiset(s) == multiset(n) && i < j < |s|
    requires forall x, y :: 0 <= x < y < |n| ==> n[x] != n[y]
    ensures s[i] != s[j]
  {
    if s[i] == s[j] {
      AtLeastTwice(s, i, j);
      OnceOnly(n, s[i]);
    }
  }

  /** The end of the run of equal values that starts at index j. */
  lemma {:induction false} RunEnd(b: seq<Line>, j: int) returns (e: int)
    requires 0 <= j < |b|
    ensures j < e <= |b|
    ensures forall t :: j <= t < e ==> b[t].value == b[j].value
    ensures e < |b| ==> b[e].value != b[j].value
  {
    e := j + 1;
    while e < |b| && b[e].value == b[j].value
      invariant j < e <= |b|
      invariant forall t :: j <= t < e ==> b[t].value == b[j].value
    {
      e := e + 1;
    }
  }

  lemma InRun(b: seq<Line>, j: int, e: int, t: int)
    requires Sorted(b) && 0 <= j < e <= |b| && j <= t < |b|
    requires e < |b| ==> b[e].value != b[j].value
    requires b[t].value == b[j].value
    ensures t < e
  {
    if e < |b| {
      assert Le(b[j], b[e]);
      assert forall r :: e < r < |b| ==> Le(b[e], b[r]);
    }
  }

  lemma RunAscends(b: seq<Line>, j: int, e: int)
    requires Sorted(b) && 0 <= j < e <= |b|
    requires forall t :: j <= t < e ==> b[t].value == b[j].value
    requires forall s, t :: 0 <= s < t < |b| ==> b[s].serial != b[t].serial
    ensures forall s, t :: j <= s < t < e ==> b[s].serial < b[t].serial
  {
    forall s, t | j <= s < t < e ensures b[s].serial < b[t].serial {
      assert Le(b[s], b[t]);
    }
  }

  /** What the cells of one class hold. */
  lemma RunCells(mem: seq<int>, b: seq<Line>, w: int, j: int, e: int)
    requires Squeezed(mem, b)
    requires 0 <= j < e <= |b| && FirstWith(b, w, j + 1)
    requires forall t :: j <= t < e ==> b[t].value == w
    requires e < |b| ==> b[e].value != w
    requires forall t :: 0 <= t < |b| ==> 1 <= b[t].serial
    ensures mem[j + 1] == -b[j].serial && mem[e + 1] < 0
    ensures forall t :: j < t < e ==> mem[t + 1] == b[t].serial
  {
    assert mem[j + 1] == MemberAt(b, j + 1) && mem[e + 1] == MemberAt(b, e + 1);
    forall t | j < t < e ensures mem[t + 1] == b[t].serial {
      assert mem[t + 1] == MemberAt(b, t + 1);
    }
  }

  lemma RunIsClass(mem: seq<int>, b: seq<Line>, v: seq<int>, w: int, j: int, e: int)
    requires 0 <= j < e <= |b| && |b| + 1 < |mem|
    requires mem[j + 1] == -b[j].serial && mem[e + 1] < 0
    requires forall t :: j < t < e ==> mem[t + 1] == b[t].serial
    requires forall t :: j <= t < e ==> 1 <= b[t].serial <= |v| && v[b[t].serial - 1] == w
    requires forall s, t :: j <= s < t < e ==> b[s].serial < b[t].serial
    ensures ClassRun(mem, j + 1, e + 1, w, v)
    ensures forall t :: j <= t < e ==> Abs(mem[t + 1]) == b[t].serial
  {
    forall t | j + 1 <= t < e + 1 ensures Abs(mem[t]) == b[t - 1].serial && (t > j + 1 ==> mem[t] > 0) {
      assert t - 1 == j || mem[t - 1 + 1] == b[t - 1].serial;
    }
  }

  /** The members listed from the first entry with value w are exactly the lines of v that equal w. */
  lemma {:induction false} ClassFound(mem: seq<int>, b: seq<Line>, v: seq<int>, w: int, j: int)
    requires Squeezed(mem, b) && Sorted(b) && multiset(b) == multiset(Numbered(v))
    requires j != 0 && FirstWith(b, w, j)
    ensures HasClass(mem, j, w, v)
  {
    hide Squeezed, Sorted, Numbered, ClassRun;
    NumberedPermutation(b, v);
    var e := RunEnd(b, j - 1);
    RunCells(mem, b, w, j - 1, e);
    RunAscends(b, j - 1, e);
    SqueezedLength(mem, b);
    RunIsClass(mem, b, v, w, j - 1, e);
    forall y {:trigger Listed(mem, j, e + 1, y)} | 1 <= y <= |v| && v[y - 1] == w ensures Listed(mem, j, e + 1, y) {
      assert Line(y - 1 + 1, v[y - 1]) in b;
      var t :| 0 <= t < |b| && b[t] == Line(y, w);
      InRun(b, j - 1, e, t);
      assert Abs(mem[t + 1]) == y;
    }
    assert ClassAt(mem, j, e + 1, w, v);
  }

  lemma SqueezedLength(mem: seq<int>, b: seq<Line>)
    requires Squeezed(mem, b)
    ensures |b| + 1 < |mem|
  {
  }

  lemma NoClass(b: seq<Line>, v: seq<int>, w: int)
    requires multiset(b) == multiset(Numbered(v)) && FirstWith(b, w, 0)
    ensures w !in v
  {
    NumberedPermutation(b, v);
    forall z | 0 <= z < |v| ensures v[z] != w {
      assert Line(z + 1, v[z]) in b;
    }
  }

  /** The classes that equiv and unsort leave behind are exactly the equality classes of the two files. */
  lemma {:induction false} ClassesExact(cls: seq<int>, mem: seq<int>, a: seq<Line>, b: seq<Line>, c: seq<Line>,
                                        u: seq<int>, v: seq<int>)
    requires multiset(a) == multiset(Numbered(u)) && multiset(b) == multiset(Numbered(v)) && Sorted(b)
    requires |u| < |cls| && Squeezed(mem, b) && Looked(a, b, c)
    requires forall t :: 0 <= t < |c| ==> 0 <= c[t].serial < |cls| && cls[c[t].serial] == c[t].value
    ensures Classes(cls, mem, u, v)
  {
    hide Squeezed, Sorted, Numbered, FirstWith, HasClass;
    NumberedPermutation(a, u);
    forall i | 1 <= i <= |u|
      ensures if cls[i] == 0 then u[i - 1] !in v else HasClass(mem, cls[i], u[i - 1], v)
    {
      assert Line(i - 1 + 1, u[i - 1]) in a;
      var t :| 0 <= t < |a| && a[t] == Line(i, u[i - 1]);
      if cls[i] == 0 {
        NoClass(b, v, u[i - 1]);
      } else {
        ClassFound(mem, b, v, u[i - 1], cls[i]);
      }
    }
  }
}
