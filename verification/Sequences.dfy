/** Facts about joining and cutting sequences, each proved once. */
module Sequences {

  lemma Assoc<T>(a: seq<T>, b: seq<T>, c: seq<T>)
    ensures (a + b) + c == a + (b + c)
  {}

  lemma AssocFour<T>(a: seq<T>, b: seq<T>, c: seq<T>, d: seq<T>)
    ensures ((a + b) + c) + d == a + (b + (c + d))
    ensures (a + (b + c)) + d == a + (b + (c + d))
    ensures a + ((b + c) + d) == a + (b + (c + d))
  {}

  lemma AssocFive<T>(a: seq<T>, b: seq<T>, c: seq<T>, d: seq<T>, e: seq<T>)
    ensures (((a + b) + c) + d) + e == a + (b + (c + (d + e)))
  {}

  /** The two parts of a joined sequence. */
  lemma Parts<T>(a: seq<T>, b: seq<T>)
    ensures (a + b)[..|a|] == a && (a + b)[|a|..] == b
  {}

  /** The middle and the end of three parts. */
  lemma Middle<T>(a: seq<T>, b: seq<T>, c: seq<T>, i: nat, j: nat)
    requires i == |a| && j == |a| + |b|
    ensures (a + (b + c))[i..j] == b && (a + (b + c))[j..] == c
  {}

  lemma Head<T>(x: T, s: seq<T>)
    ensures ([x] + s)[0] == x && ([x] + s)[1..] == s
  {}

  lemma Last<T>(s: seq<T>)
    requires s != []
    ensures s[..|s| - 1] + [s[|s| - 1]] == s
  {}

  lemma Behind<T>(s: seq<T>, k: nat)
    requires k < |s|
    ensures s[k..][0] == s[k] && s[k..][1..] == s[k + 1..]
  {}

  /** Leaving out element k, after the first. */
  lemma LeaveOut<T>(s: seq<T>, k: nat)
    requires 0 < k < |s|
    ensures [s[0]] + (s[1..][..k - 1] + s[1..][k - 1 + 1..]) == s[..k] + s[k + 1..]
  {}

  lemma Cut<T>(s: seq<T>, i: nat, j: nat, k: nat)
    requires i <= j <= k <= |s|
    ensures s[i..j] + s[j..k] == s[i..k]
  {}

  lemma Whole<T>(s: seq<T>)
    ensures s[0..] == s && s[..|s|] == s && s + [] == s && [] + s == s
  {}
}
