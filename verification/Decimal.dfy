/** Decimal numerals as printf writes them and as the readers of diff scripts and config frames parse them. */
module Decimal {
  import opened Powers

  predicate IsDigit(c: char) { '0' <= c <= '9' }

  ghost predicate Digits(s: string) {
    forall i :: 0 <= i < |s| ==> IsDigit(s[i])
  }

  /** printf("%d") of a number that is not negative. */
  function Dec(n: nat): (s: string)
    ensures s != "" && Digits(s)
  {
    if n < 10 then [n as char + '0'] else Dec(n / 10) + [(n % 10) as char + '0']
  }

  /** The number a string of digits denotes. */
  function Number(s: string): nat
    requires forall i :: 0 <= i < |s| ==> IsDigit(s[i])
  {
    if s == "" then 0
    else
      assert IsDigit(s[|s| - 1]);
      10 * Number(s[..|s| - 1]) + (s[|s| - 1] as int - '0' as int)
  }

  /** How many digits s starts with. */
  function DigitCount(s: string): (k: nat)
    ensures k <= |s|
    ensures Digits(s[..k])
    ensures k < |s| ==> !IsDigit(s[k])
  {
    if s == "" || !IsDigit(s[0]) then 0
    else
      var k := DigitCount(s[1..]) + 1;
      assert forall i :: 1 <= i < k ==> s[i] == s[1..][..k - 1][i - 1];
      k
  }

  lemma {:induction false} NumberOfDec(n: nat)
    ensures Number(Dec(n)) == n
  {
    if n >= 10 {
      NumberOfDec(n / 10);
      assert Dec(n)[..|Dec(n)| - 1] == Dec(n / 10);
    }
  }

  /** A numeral followed by something else than a digit is read back whole. */
  lemma {:induction false} ReadDec(n: nat, rest: string)
    requires rest == "" || !IsDigit(rest[0])
    ensures var s := Dec(n) + rest; var k := DigitCount(s);
            k == |Dec(n)| && s[..k] == Dec(n) && s[k..] == rest && Number(s[..k]) == n
  {
    DigitCountUnique(Dec(n), rest);
    NumberOfDec(n);
    var s := Dec(n) + rest;
    assert s[..|Dec(n)|] == Dec(n) && s[|Dec(n)|..] == rest;
  }

  lemma {:induction false} DigitCountUnique(p: string, rest: string)
    requires Digits(p) && (rest == "" || !IsDigit(rest[0]))
    ensures DigitCount(p + rest) == |p|
  {
    if p == "" {
      assert p + rest == rest;
    } else {
      assert (p + rest)[1..] == p[1..] + rest;
      DigitCountUnique(p[1..], rest);
    }
  }

  /** A number has at most k digits exactly when it is below the k-th power of ten. */
  lemma {:induction false} DecLength(n: nat, k: nat)
    requires k > 0
    ensures |Dec(n)| <= k <==> n < Power(10, k)
  {
    if n >= 10 && k > 1 {
      DecLength(n / 10, k - 1);
    } else if n < 10 {
      PowerGrows(k);
    }
  }

  lemma {:induction false} PowerGrows(k: nat)
    requires k > 0
    ensures Power(10, k) >= 10
  {
    if k > 1 {
      PowerGrows(k - 1);
    }
  }

  /** The digit i places from the right is the one of the i-th power of ten, and no number but 0 starts with a 0. */
  lemma {:induction false} DecPlace(n: nat, i: nat)
    requires i < |Dec(n)|
    ensures Power(10, i) > 0
    ensures Dec(n)[|Dec(n)| - 1 - i] as int - '0' as int == n / Power(10, i) % 10
    ensures Dec(n)[0] == '0' ==> n == 0
  {
    PowerPositive(10, i);
    if n >= 10 {
      if i > 0 {
        DecPlace(n / 10, i - 1);
        PowerPositive(10, i - 1);
        DivideTwice(n, 10, Power(10, i - 1));
        assert Dec(n)[|Dec(n)| - 1 - i] == Dec(n / 10)[|Dec(n / 10)| - 1 - (i - 1)];
      }
      LeadingDigit(n);
    }
  }

  lemma {:induction false} LeadingDigit(n: nat)
    ensures Dec(n)[0] == '0' ==> n == 0
  {
    if n >= 10 {
      LeadingDigit(n / 10);
      assert Dec(n)[0] == Dec(n / 10)[0];
    }
  }
}
