/** Facts about the two directions in which output walks over the match vector. */
module HunkWalk {
  import opened CommonSubsequence
  import opened Hunks
  import Sequences

  /** The last anchor at or before q. */
  ghost function Prev(J: seq<int>, q: nat): (p: nat)
    requires q < |J|
    ensures p <= q && (p == 0 || J[p] != 0)
    ensures forall x :: p < x <= q ==> J[x] == 0
  {
    if q == 0 || J[q] != 0 then q else Prev(J, q - 1)
  }

  /** The hunks before anchor q, in order. */
  ghost function HunksTo(J: seq<int>, q: nat): seq<Hunk>
    requires q < |J|
  {
    if q == 0 then []
    else var p := Prev(J, q - 1); HunksTo(J, p) + NonEmpty(Between(J, p, q))
  }

  /** Every anchor splits the hunks in two. */
  lemma {:induction false} HunksSplit(J: seq<int>, m: nat, n: nat, q: nat)
    requires Bracketed(J, m, n) && q <= m + 1 && Anchor(J, m, q)
    ensures HunksTo(J, q) + HunksFrom(J, m, q) == HunksFrom(J, m, 0)
  {
    hide Increasing, Between, NonEmpty, HunksTo, HunksFrom;
    if q == 0 {
      NoneBefore(J);
      Sequences.Whole(HunksFrom(J, m, 0));
    } else {
      var p := Prev(J, q - 1);
      HunksSplit(J, m, n, p);
      AtAnchor(J, m, n, p, q);
      Sequences.Assoc(HunksTo(J, p), NonEmpty(Between(J, p, q)), HunksFrom(J, m, q));
    }
  }

  lemma NoneBefore(J: seq<int>)
    requires J != []
    ensures HunksTo(J, 0) == []
  {}

  /** The hunk between two neighbouring anchors is the next after the one and the last before the other. */
  lemma AtAnchor(J: seq<int>, m: nat, n: nat, p: nat, q: nat)
    requires Bracketed(J, m, n) && 0 < q <= m + 1 && Anchor(J, m, q) && p == Prev(J, q - 1)
    ensures HunksFrom(J, m, p) == NonEmpty(Between(J, p, q)) + HunksFrom(J, m, q)
    ensures HunksTo(J, q) == HunksTo(J, p) + NonEmpty(Between(J, p, q))
  {
    hide Increasing, Between, NonEmpty;
    NextIs(J, m, p + 1, q);
  }

  lemma {:induction false} NextIs(J: seq<int>, m: nat, p: nat, q: nat)
    requires m + 1 < |J| && 1 <= p <= q <= m + 1
    requires q == m + 1 || J[q] != 0
    requires forall x :: p <= x < q ==> J[x] == 0
    ensures Next(J, m, p) == q
    decreases q - p
  {
    if p < q {
      NextIs(J, m, p + 1, q);
    }
  }

  function Reverse<T>(hs: seq<T>): (r: seq<T>)
    ensures |r| == |hs|
  {
    if hs == [] then [] else Reverse(hs[1..]) + [hs[0]]
  }

  lemma {:induction false} ReverseAppend<T>(hs: seq<T>, h: T)
    ensures Reverse(hs + [h]) == [h] + Reverse(hs)
  {
    if hs == [] {
      assert hs + [h] == [h];
    } else {
      assert (hs + [h])[1..] == hs[1..] + [h];
      ReverseAppend(hs[1..], h);
    }
  }

  lemma {:induction false} ReverseTwice<T>(hs: seq<T>)
    ensures Reverse(Reverse(hs)) == hs
  {
    if hs != [] {
      ReverseAppend(Reverse(hs[1..]), hs[0]);
      ReverseTwice(hs[1..]);
      assert hs == [hs[0]] + hs[1..];
    }
  }
}
