/** What a path means: its components, with "", "." and ".." worked out on a stack. The simple reference that
    the in-place canonicalizer is measured against. */
module PathMeaning {

  const SEP: char := '/'

  /** The position of the first separator, or the length. */
  function Slash(s: string): (k: nat)
    ensures k <= |s| && SEP !in s[..k]
    ensures k < |s| ==> s[k] == SEP
  {
    if s == "" || s[0] == SEP then 0
    else
      var k := Slash(s[1..]) + 1;
      assert s[..k] == [s[0]] + s[1..][..k - 1];
      k
  }

  /** One component on top of the ones before it. */
  function Push(abs: bool, st: seq<string>, c: string): seq<string> {
    if c == "" || c == "." then st
    else if c == ".." && st != [] && st[|st| - 1] != ".." then st[..|st| - 1]
    else if c == ".." && abs then st
    else st + [c]
  }

  /** All components of s, in order. */
  function Walk(abs: bool, st: seq<string>, s: string): seq<string>
    decreases |s|
  {
    var k := Slash(s);
    if k == |s| then Push(abs, st, s) else Walk(abs, Push(abs, st, s[..k]), s[k + 1..])
  }

  predicate Absolute(s: string) { s != "" && s[0] == SEP }

  function Meaning(s: string): (bool, seq<string>) {
    (Absolute(s), Walk(Absolute(s), [], s))
  }

  function Join(st: seq<string>): string {
    if st == [] then "" else if |st| == 1 then st[0] else st[0] + [SEP] + Join(st[1..])
  }

  function Render(m: (bool, seq<string>)): string {
    if m.0 then [SEP] + Join(m.1) else if m.1 == [] then "." else Join(m.1)
  }

  /** The reference: split, drop "" and ".", pop on "..", keep ".." only at the front of a relative path, and
      write an emptied relative path as ".". */
  function Normalized(s: string): string {
    Render(Meaning(s))
  }

  // ---------------------------------------------------------------- walking over parts

  lemma {:induction false} SlashIs(x: string, rest: string)
    requires SEP !in x && (rest == "" || rest[0] == SEP)
    ensures Slash(x + rest) == |x|
  {
    if x == "" {
      assert x + rest == rest;
    } else {
      assert (x + rest)[1..] == x[1..] + rest;
      SlashIs(x[1..], rest);
    }
  }

  lemma {:induction false} WalkSplit(abs: bool, st: seq<string>, x: string, y: string)
    ensures Walk(abs, st, x + [SEP] + y) == Walk(abs, Walk(abs, st, x), y)
    decreases |x|
  {
    var k := Slash(x);
    var s := x + [SEP] + y;
    assert s == x[..k] + (x[k..] + [SEP] + y);
    SlashIs(x[..k], x[k..] + [SEP] + y);
    assert s[..k] == x[..k];
    if k == |x| {
      assert s[k + 1..] == y && x[..k] == x;
    } else {
      assert s[k + 1..] == x[k + 1..] + [SEP] + y;
      WalkSplit(abs, Push(abs, st, x[..k]), x[k + 1..], y);
    }
  }

  lemma WalkOne(abs: bool, st: seq<string>, c: string)
    requires SEP !in c
    ensures Walk(abs, st, c) == Push(abs, st, c)
  {
    SlashIs(c, "");
    assert c + "" == c;
  }

  // ---------------------------------------------------------------- the reference is a normal form

  /** A stack as Walk builds it. */
  ghost predicate Good(abs: bool, st: seq<string>) {
    && (forall i :: 0 <= i < |st| ==> SEP !in st[i] && st[i] != "" && st[i] != ".")
    && (forall i :: 0 <= i < |st| && st[i] == ".." ==> !abs && forall j :: 0 <= j < i ==> st[j] == "..")
  }

  lemma {:induction false} PushGood(abs: bool, st: seq<string>, c: string)
    requires Good(abs, st) && SEP !in c
    ensures Good(abs, Push(abs, st, c))
  {
    if c == ".." && !abs && (st == [] || st[|st| - 1] == "..") {
      assert forall j :: 0 <= j < |st| ==> st[j] == "..";
    }
  }

  lemma {:induction false} WalkGood(abs: bool, st: seq<string>, s: string)
    requires Good(abs, st)
    ensures Good(abs, Walk(abs, st, s))
    decreases |s|
  {
    var k := Slash(s);
    assert k == |s| ==> s[..k] == s;
    PushGood(abs, st, s[..k]);
    if k < |s| {
      WalkGood(abs, Push(abs, st, s[..k]), s[k + 1..]);
    }
  }

  /** Walking over a joined stack stacks it up again. */
  lemma {:induction false} WalkJoin(abs: bool, st: seq<string>, more: seq<string>)
    requires Good(abs, st + more) && more != []
    ensures Walk(abs, st, Join(more)) == st + more
    decreases |more|
  {
    var c := more[0];
    assert (st + more)[|st|] == c;
    assert Push(abs, st, c) == st + [c] by {
      if c == ".." && st != [] {
        assert (st + more)[|st| - 1] == st[|st| - 1];
      }
    }
    if |more| == 1 {
      WalkOne(abs, st, c);
      assert more == [c];
    } else {
      assert (st + [c]) + more[1..] == st + more;
      WalkSplit(abs, st, c, Join(more[1..]));
      WalkOne(abs, st, c);
      WalkJoin(abs, st + [c], more[1..]);
    }
  }

  lemma {:induction false} JoinStarts(st: seq<string>, abs: bool)
    requires Good(abs, st) && st != []
    ensures Join(st) != "" && Join(st)[0] != SEP
  {
    assert st[0][0] in st[0];
  }

  /** A rendered stack means itself. */
  lemma {:induction false} MeaningOfRender(abs: bool, st: seq<string>)
    requires Good(abs, st)
    ensures Meaning(Render((abs, st))) == (abs, st)
  {
    if abs {
      var s := [SEP] + Join(st);
      assert s == "" + [SEP] + Join(st);
      WalkSplit(true, [], "", Join(st));
      WalkOne(true, [], "");
      if st == [] {
        WalkOne(true, [], "");
      } else {
        assert [] + st == st;
        WalkJoin(true, [], st);
      }
    } else if st == [] {
      WalkOne(false, [], ".");
    } else {
      JoinStarts(st, false);
      assert [] + st == st;
      WalkJoin(false, [], st);
    }
  }

  /** Normalizing twice is normalizing once. */
  lemma {:induction false} NormalizedTwice(s: string)
    ensures Meaning(Normalized(s)) == Meaning(s)
    ensures Normalized(Normalized(s)) == Normalized(s)
  {
    WalkGood(Absolute(s), [], s);
    MeaningOfRender(Absolute(s), Meaning(s).1);
  }

  // ---------------------------------------------------------------- length

  function Size(st: seq<string>): nat {
    if st == [] then 0 else Size(st[..|st| - 1]) + |st[|st| - 1]| + 1
  }

  lemma {:induction false} JoinSize(st: seq<string>)
    requires st != []
    ensures |Join(st)| + 1 == Size(st)
  {
    if |st| > 1 {
      JoinSize(st[1..]);
      SizeFront(st);
    } else {
      assert st[..0] == [];
    }
  }

  lemma {:induction false} SizeFront(st: seq<string>)
    requires st != []
    ensures Size(st) == |st[0]| + 1 + Size(st[1..])
  {
    if |st| > 1 {
      SizeFront(st[..|st| - 1]);
      assert st[..|st| - 1][1..] == st[1..][..|st| - 2];
    } else {
      assert st[..0] == [] && st[1..] == [];
    }
  }

  lemma {:induction false} WalkSize(abs: bool, st: seq<string>, s: string)
    ensures Size(Walk(abs, st, s)) <= Size(st) + |s| + 1
    decreases |s|
  {
    var k := Slash(s);
    PushSize(abs, st, s[..k]);
    assert k == |s| ==> s[..k] == s;
    if k < |s| {
      WalkSize(abs, Push(abs, st, s[..k]), s[k + 1..]);
    }
  }

  lemma PushSize(abs: bool, st: seq<string>, c: string)
    ensures Size(Push(abs, st, c)) <= Size(st) + |c| + 1
  {
    assert (st + [c])[..|st|] == st;
  }

  /** Normalizing never lengthens a path, except the empty one. */
  lemma {:induction false} NeverLonger(s: string)
    requires s != ""
    ensures |Normalized(s)| <= |s|
  {
    var abs, st := Absolute(s), Meaning(s).1;
    if abs {
      assert s == "" + [SEP] + s[1..];
      WalkSplit(true, [], "", s[1..]);
      WalkOne(true, [], "");
      WalkSize(true, [], s[1..]);
    } else {
      WalkSize(false, [], s);
    }
    if st != [] {
      JoinSize(st);
    }
  }
}
