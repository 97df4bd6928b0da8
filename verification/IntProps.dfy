/** mcsrc/lib/intprops.h: the range overflow macros, evaluated in the arithmetic they guard, and the bound on the
    number of decimal digits. */
module IntProps {
  import opened Decimal
  import opened Powers
  import opened Wrappers

  /** The least and the greatest value of an integer type of w bits. */
  predicate TypeRange(w: nat, signed: bool, min: int, max: int) {
    if signed then w > 0 && min == 0 - Power(2, w - 1) && max == Power(2, w - 1) - 1
    else min == 0 && max == Power(2, w) - 1
  }

  // ---------------------------------------------------------------- C operators that may leave the range

  /** A result of the type, None if it does not fit. */
  function Fit(v: int, min: int, max: int): Option<int> {
    if min <= v <= max then Some(v) else None
  }

  function Abs(a: int): nat { if a < 0 then -a else a }

  /** Division that truncates toward zero. */
  function CDiv(a: int, b: int): int
    requires b != 0
  {
    var q := Abs(a) / Abs(b);
    if (a < 0) != (b < 0) then 0 - q else q
  }

  function Less(a: Option<int>, b: Option<int>): Option<bool> {
    if a.Some? && b.Some? then Some(a.value < b.value) else None
  }

  function Divided(a: int, b: int, min: int, max: int): Option<int> {
    if b == 0 then None else Fit(CDiv(a, b), min, max)
  }

  // ---------------------------------------------------------------- the macros; None: an operation overflowed

  /** INT_ADD_RANGE_OVERFLOW */
  function AddRangeOverflow(a: int, b: int, min: int, max: int): Option<bool> {
    if b < 0 then Less(Some(a), Fit(min - b, min, max)) else Less(Fit(max - b, min, max), Some(a))
  }

  /** INT_SUBTRACT_RANGE_OVERFLOW */
  function SubtractRangeOverflow(a: int, b: int, min: int, max: int): Option<bool> {
    if b < 0 then Less(Fit(max + b, min, max), Some(a)) else Less(Some(a), Fit(min + b, min, max))
  }

  /** INT_NEGATE_RANGE_OVERFLOW */
  function NegateRangeOverflow(a: int, min: int, max: int): Option<bool> {
    if min < 0 then Less(Some(a), Fit(-max, min, max)) else Some(0 < a)
  }

  /** INT_MULTIPLY_RANGE_OVERFLOW */
  function MultiplyRangeOverflow(a: int, b: int, min: int, max: int): Option<bool> {
    if b < 0 then
      if a < 0 then Less(Some(a), Divided(max, b, min, max))
      else if b == -1 then Some(false)
      else Less(Divided(min, b, min, max), Some(a))
    else if b == 0 then Some(false)
    else if a < 0 then Less(Some(a), Divided(min, b, min, max))
    else Less(Divided(max, b, min, max), Some(a))
  }

  /** INT_DIVIDE_RANGE_OVERFLOW, also INT_REMAINDER_RANGE_OVERFLOW */
  function DivideRangeOverflow(a: int, b: int, min: int, max: int): Option<bool> {
    if min < 0 && b == -1 then Less(Some(a), Fit(-max, min, max)) else Some(false)
  }

  /** INT_LEFT_SHIFT_RANGE_OVERFLOW; >> rounds down. */
  function LeftShiftRangeOverflow(a: int, b: nat, min: int, max: int): Option<bool> {
    if a < 0 then Less(Some(a), Fit(FloorDiv(min, Power(2, b)), min, max))
    else Less(Fit(FloorDiv(max, Power(2, b)), min, max), Some(a))
  }

  /** Division that rounds down. */
  function FloorDiv(a: int, p: nat): (q: int)
    ensures p > 0 ==> q * p <= a < (q + 1) * p
  {
    if p == 0 then 0 else a / p
  }

  // ---------------------------------------------------------------- they are exact

  predicate InRange(v: int, min: int, max: int) { min <= v <= max }

  lemma {:induction false} RangeShape(w: nat, signed: bool, min: int, max: int)
    requires TypeRange(w, signed, min, max)
    ensures max >= 0 && (min == 0 || min == -max - 1)
  {
    PowerPositive(2, w);
    if signed {
      PowerPositive(2, w - 1);
    }
  }

  /** The macros for + and - and negation are true exactly when the result leaves the range, and nothing overflows
      while they are evaluated. */
  lemma AddExact(w: nat, signed: bool, min: int, max: int, a: int, b: int)
    requires TypeRange(w, signed, min, max) && InRange(a, min, max) && InRange(b, min, max)
    ensures AddRangeOverflow(a, b, min, max) == Some(!InRange(a + b, min, max))
    ensures SubtractRangeOverflow(a, b, min, max) == Some(!InRange(a - b, min, max))
    ensures NegateRangeOverflow(a, min, max) == Some(!InRange(-a, min, max))
  {
    RangeShape(w, signed, min, max);
  }

  /** With the quotient rounded down. */
  lemma AboveQuotient(n: nat, d: nat, k: int)
    requires d > 0
    ensures n / d < k <==> n < k * d
    ensures 0 <= n / d <= n
  {
    var q := n / d;
    assert q * d <= n < (q + 1) * d;
    BelowTimes(q, k, d);
    BelowTimes(k, q + 1, d);
    TimesAtLeast(q, d);
  }

  /** The macro on quotients, when the product is known to leave the range just when a is beyond the quotient. */
  lemma MultiplyCase(min: int, max: int, a: int, b: int, m: int)
    requires max >= 0 && (min == 0 || min == -max - 1) && InRange(a, min, max) && InRange(b, min, max) && b != 0
    requires (a < 0) != (b < 0) ==> m <= 0 && ((-min) / Abs(b) < Abs(a) <==> -min < -m)
    requires (a < 0) == (b < 0) ==> m >= 0 && (max / Abs(b) < Abs(a) <==> max < m)
    requires b == -1 ==> m == -a
    ensures MultiplyRangeOverflow(a, b, min, max) == Some(!InRange(m, min, max))
  {
    AboveQuotient(-min, Abs(b), 0);
    AboveQuotient(max, Abs(b), 0);
    if Abs(b) >= 2 && min < 0 {
      HalfOf(-min, Abs(b));
    }
  }

  /** The macro for * is true exactly when the product leaves the range. */
  lemma MultiplyExact(w: nat, signed: bool, min: int, max: int, a: int, b: int)
    requires TypeRange(w, signed, min, max) && InRange(a, min, max) && InRange(b, min, max)
    ensures MultiplyRangeOverflow(a, b, min, max) == Some(!InRange(a * b, min, max))
  {
    hide MultiplyRangeOverflow;
    RangeShape(w, signed, min, max);
    if b != 0 {
      AboveQuotient(-min, Abs(b), Abs(a));
      AboveQuotient(max, Abs(b), Abs(a));
      SignOf(a, b);
      MultiplyCase(min, max, a, b, a * b);
    } else {
      MultiplyZero(a, min, max);
    }
  }

  lemma MultiplyZero(a: int, min: int, max: int)
    requires min <= 0 <= max
    ensures MultiplyRangeOverflow(a, 0, min, max) == Some(!InRange(a * 0, min, max))
  {}

  lemma SignOf(a: int, b: int)
    ensures if (a < 0) != (b < 0) then a * b <= 0 && Abs(a) * Abs(b) == -(a * b)
            else a * b >= 0 && Abs(a) * Abs(b) == a * b
  {
    TimesPositive(Abs(a), Abs(b));
    if a < 0 && b < 0 {
      assert (-a) * (-b) == a * b;
    } else if a < 0 {
      assert (-a) * b == -(a * b);
    } else if b < 0 {
      assert a * (-b) == -(a * b);
    }
  }

  lemma HalfOf(n: nat, d: nat)
    requires d >= 2 && n >= 1
    ensures n / d < n
  {
    AboveQuotient(n, d, n);
    TimesAtLeast(n, d - 1);
    assert n * d == n + n * (d - 1);
  }

  /** The macro for / is true exactly when the truncated quotient leaves the range. */
  lemma DivideExact(w: nat, signed: bool, min: int, max: int, a: int, b: int)
    requires TypeRange(w, signed, min, max) && InRange(a, min, max) && InRange(b, min, max) && b != 0
    ensures DivideRangeOverflow(a, b, min, max) == Some(!InRange(CDiv(a, b), min, max))
  {
    RangeShape(w, signed, min, max);
    AboveQuotient(Abs(a), Abs(b), 0);
    if Abs(b) >= 2 && a != 0 {
      HalfOf(Abs(a), Abs(b));
    }
  }

  /** The macro for << is right, with a times 2^b outside the range exactly when it says so, for every shift count,
      even beyond the width, with one exception: it misses the overflow of -1 shifted by the width or more. */
  lemma LeftShiftExact(w: nat, signed: bool, min: int, max: int, a: int, b: nat)
    requires TypeRange(w, signed, min, max) && InRange(a, min, max)
    ensures LeftShiftRangeOverflow(a, b, min, max) == Some(!InRange(a * Power(2, b), min, max))
            <==> !(a == -1 && b >= w)
  {
    hide Power, LeftShiftRangeOverflow, TypeRange;
    if a < 0 && b >= w {
      LeftShiftBeyond(w, signed, min, max, a, b);
    } else {
      LeftShiftWithin(w, signed, min, max, a, b);
    }
  }

  /** A negative number shifted by the width or more always leaves the range; the macro sees only a < -1. */
  lemma LeftShiftBeyond(w: nat, signed: bool, min: int, max: int, a: int, b: nat)
    requires TypeRange(w, signed, min, max) && InRange(a, min, max) && a < 0 && b >= w
    ensures LeftShiftRangeOverflow(a, b, min, max) == Some(a < -1) && !InRange(a * Power(2, b), min, max)
  {
    RangeShape(w, signed, min, max);
    LeastValue(w, signed, min, max);
    hide Power, TypeRange;
    var p := Power(2, b);
    PowerPositive(2, w - 1);
    PowerNext(2, w - 1);
    PowerLonger(2, w, b);
    MinusOne(min, p);
    ShiftBelow(a, 0, p);
    BelowTimes(-1, a, p);
  }

  lemma MinusOne(min: int, p: nat)
    requires 0 - p <= min < 0
    ensures FloorDiv(min, p) == -1
  {
    var f := FloorDiv(min, p);
    BelowTimes(f, 0, p);
    BelowTimes(-1, f + 1, p);
  }

  lemma LeftShiftWithin(w: nat, signed: bool, min: int, max: int, a: int, b: nat)
    requires TypeRange(w, signed, min, max) && InRange(a, min, max) && (a >= 0 || b < w)
    ensures LeftShiftRangeOverflow(a, b, min, max) == Some(!InRange(a * Power(2, b), min, max))
  {
    RangeShape(w, signed, min, max);
    hide Power, LeftShiftRangeOverflow, FloorDiv, TypeRange;
    var p := Power(2, b);
    PowerPositive(2, b);
    if a < 0 {
      var m := Power(2, w - 1 - b);
      PowerSum(2, w - 1 - b, b);
      LeastValue(w, signed, min, max);
      ShiftLow(min, m, p, a);
    } else {
      ShiftUp(max, p, a);
    }
    ShiftCase(min, max, a, b, a * p);
  }

  lemma LeastValue(w: nat, signed: bool, min: int, max: int)
    requires TypeRange(w, signed, min, max) && min < 0
    ensures w > 0 && min == 0 - Power(2, w - 1)
  {}

  lemma ShiftLow(min: int, m: nat, p: nat, a: int)
    requires p > 0 && min == 0 - m * p && a < 0
    ensures min <= FloorDiv(min, p) <= 0 && (a < FloorDiv(min, p) <==> a * p < min) && a * p < 0
  {
    var q: int := 0 - m;
    assert q * p == min;
    ShiftDown(q, p);
    ShiftBelow(a, q, p);
  }

  lemma ShiftCase(min: int, max: int, a: int, b: nat, m: int)
    requires max >= 0 && InRange(a, min, max)
    requires a < 0 ==>
      m < 0 && min <= FloorDiv(min, Power(2, b)) <= 0 && (a < FloorDiv(min, Power(2, b)) <==> m < min)
    requires a >= 0 ==>
      m >= 0 && min <= 0 <= FloorDiv(max, Power(2, b)) <= max && (FloorDiv(max, Power(2, b)) < a <==> max < m)
    ensures LeftShiftRangeOverflow(a, b, min, max) == Some(!InRange(m, min, max))
  {
    hide Power;
  }

  lemma ShiftUp(n: nat, p: nat, a: nat)
    requires p > 0
    ensures 0 <= FloorDiv(n, p) <= n && (FloorDiv(n, p) < a <==> n < a * p) && a * p >= 0
  {
    AboveQuotient(n, p, a);
    TimesPositive(a, p);
  }

  lemma ShiftDown(q: int, p: nat)
    requires p > 0 && q <= 0
    ensures FloorDiv(q * p, p) == q && q * p <= q <= 0
  {
    var f := FloorDiv(q * p, p);
    BelowTimes(q, f + 1, p);
    BelowTimes(f, q + 1, p);
    TimesAtLeast(-q, p);
    assert (-q) * p == -(q * p);
  }

  lemma ShiftBelow(a: int, q: int, p: nat)
    requires p > 0 && a < 0
    ensures a < q <==> a * p < q * p
    ensures a * p < 0
  {
    BelowTimes(a, q, p);
    BelowTimes(a, 0, p);
  }

  // ---------------------------------------------------------------- digits

  /** INT_BITS_STRLEN_BOUND */
  function BitsStrlenBound(b: nat): nat { (b * 146 + 484) / 485 }

  lemma Power97()
    ensures Power(2, 97) < 15846 * Power(10, 25)
  {
    hide Power;
    PowerOne(2);
    PowerOne(10);
    Combine(2, 1, 1, 2, 2);
    Combine(2, 2, 2, 4, 4);
    Combine(2, 4, 4, 16, 16);
    Combine(2, 8, 8, 256, 256);
    Combine(2, 16, 16, 65536, 65536);
    Combine(2, 32, 32, 4294967296, 4294967296);
    Combine(2, 64, 32, 18446744073709551616, 4294967296);
    Combine(2, 96, 1, 79228162514264337593543950336, 2);
    Combine(10, 1, 1, 10, 10);
    Combine(10, 2, 2, 100, 100);
    Combine(10, 4, 4, 10000, 10000);
    Combine(10, 8, 4, 100000000, 10000);
    Combine(10, 12, 12, 1000000000000, 1000000000000);
    Combine(10, 24, 1, 1000000000000000000000000, 10);
  }

  lemma Power21()
    ensures Power(15846, 5) < Power(10, 21)
  {
    hide Power;
    PowerOne(10);
    PowerOne(15846);
    Combine(10, 1, 1, 10, 10);
    Combine(10, 2, 2, 100, 100);
    Combine(10, 4, 1, 10000, 10);
    Combine(10, 5, 5, 100000, 100000);
    Combine(10, 10, 10, 10000000000, 10000000000);
    Combine(10, 20, 1, 100000000000000000000, 10);
    Combine(15846, 1, 1, 15846, 15846);
    Combine(15846, 2, 2, 251095716, 251095716);
    Combine(15846, 4, 1, 63049058593552656, 15846);
  }

  /** log10 (2) < 146/485: 2^97 is below 1.5846 times 10^29, whose fifth power is below 10^146. */
  lemma LogBound()
    ensures Power(2, 485) < Power(10, 146)
  {
    hide Power;
    var big := Power(10, 25);
    Power97();
    Power21();
    PowerProduct(2, 97, 5);
    PowerMonotone(Power(2, 97), 15846 * big, 5);
    PowerTimes(15846, big, 5);
    PowerProduct(10, 25, 5);
    PowerSum(10, 21, 125);
    PowerPositive(10, 125);
    Scaled(Power(15846, 5), Power(10, 21), Power(10, 125));
  }

  lemma Scaled(x: nat, y: nat, p: nat)
    requires x < y && p > 0
    ensures x * p < y * p
  {
    BelowTimes(x, y, p);
  }

  /** The bound is right for every number of bits: 2^b is at most the bound-th power of ten. */
  lemma {:induction false} BitsFit(b: nat)
    ensures Power(2, b) <= Power(10, BitsStrlenBound(b))
  {
    var k := BitsStrlenBound(b);
    assert 146 * b <= 485 * k;
    LogBound();
    PowerProduct(2, 485, b);
    PowerProduct(10, 146, b);
    PowerMonotone(Power(2, 485), Power(10, 146), b);
    PowerLonger(10, 146 * b, 485 * k);
    PowerProduct(2, b, 485);
    PowerProduct(10, k, 485);
    assert b * 485 == 485 * b && k * 485 == 485 * k;
    if Power(10, k) < Power(2, b) {
      PowerMonotone(Power(10, k), Power(2, b), 485);
    }
  }

  lemma {:induction false} NotAPowerOfTen(b: nat, k: nat)
    requires k > 0
    ensures Power(2, b) != Power(10, k)
  {
    hide Power;
    TwosModFive(b);
    PowerNext(10, k - 1);
    NoMultiple(Power(2, b), 2 * Power(10, k - 1));
  }

  lemma NoMultiple(x: int, y: int)
    requires x % 5 != 0
    ensures x != 5 * y
  {}

  lemma {:induction false} TwosModFive(b: nat)
    ensures Power(2, b) % 5 != 0
  {
    if b > 0 {
      TwosModFive(b - 1);
    }
  }

  /** Every unsigned value of b bits prints in no more digits than INT_BITS_STRLEN_BOUND (b), and every magnitude
      of a signed type with b value bits does too, the least value included. */
  lemma {:induction false} DigitsSuffice(b: nat, n: nat)
    requires b > 0 && n <= Power(2, b)
    ensures |Dec(n)| <= BitsStrlenBound(b)
  {
    BitsFit(b);
    NotAPowerOfTen(b, BitsStrlenBound(b));
    DecLength(n, BitsStrlenBound(b));
  }

  // ---------------------------------------------------------------- how tight the bound is

  ghost predicate AtMost(n: nat, c: nat, e: nat) { Power(10, n) <= c * Power(2, e) }

  ghost predicate AtLeast(n: nat, c: nat, e: nat) { c * Power(2, e) <= Power(10, n) }

  lemma SquareOf(c: nat, p: nat)
    ensures (c * p) * (c * p) == (c * c) * (p * p)
  {
    Swap(c, c, p, p);
    assert (c * p) * (c * p) == (c * c) * (p * p);
  }

  lemma PowerTwice(e: nat, s: nat)
    ensures Power(2, 2 * e + s) == (Power(2, e) * Power(2, e)) * Power(2, s)
  {
    PowerSum(2, e, e);
    PowerSum(2, 2 * e, s);
  }

  lemma AtMostTwice(n: nat, c: nat, e: nat, c': nat, s: nat)
    requires AtMost(n, c, e) && c * c <= c' * TwoTo(s)
    ensures AtMost(2 * n, c', 2 * e + s)
  {
    hide Power;
    var x, p := Power(10, n), Power(2, e);
    PowerSum(10, n, n);
    TimesMonotone(x, c * p, x, c * p);
    SquareOf(c, p);
    TimesMonotone(c * c, c' * TwoTo(s), p * p, p * p);
    PowerTwice(e, s);
    Regroup(c', TwoTo(s), p * p);
  }

  lemma AtLeastTwice(n: nat, c: nat, e: nat, c': nat, s: nat)
    requires AtLeast(n, c, e) && c' * TwoTo(s) <= c * c
    ensures AtLeast(2 * n, c', 2 * e + s)
  {
    hide Power;
    var x, p := Power(10, n), Power(2, e);
    PowerSum(10, n, n);
    TimesMonotone(c * p, x, c * p, x);
    SquareOf(c, p);
    TimesMonotone(c' * TwoTo(s), c * c, p * p, p * p);
    PowerTwice(e, s);
    Regroup(c', TwoTo(s), p * p);
  }

  lemma Regroup(c: nat, t: nat, q: nat)
    ensures (c * t) * q == c * (q * t)
  {
    assert (c * t) * q == c * (t * q);
  }

  lemma AtMostTenfold(n: nat, c: nat, e: nat)
    requires AtMost(n, c, e)
    ensures AtMost(n + 1, 10 * c, e)
  {
    PowerNext(10, n);
    assert (10 * c) * Power(2, e) == 10 * (c * Power(2, e));
  }

  lemma AtLeastTenfold(n: nat, c: nat, e: nat)
    requires AtLeast(n, c, e)
    ensures AtLeast(n + 1, 10 * c, e)
  {
    PowerNext(10, n);
    assert (10 * c) * Power(2, e) == 10 * (c * Power(2, e));
  }

  /** Powers of two as they are needed, by halves. */
  function TwoTo(s: nat): (p: nat)
    ensures p == Power(2, s)
  {
    if s == 0 then 1 else 2 * TwoTo(s - 1)
  }

  lemma TwoToSum(a: nat, b: nat, v: nat, w: nat)
    requires TwoTo(a) == v && TwoTo(b) == w
    ensures TwoTo(a + b) == v * w
  {
    PowerSum(2, a, b);
  }

  lemma TwoToTable()
    ensures TwoTo(0) == 1 && TwoTo(23) == 0x80_0000 && TwoTo(36) == 0x10_0000_0000
    ensures TwoTo(43) == 0x800_0000_0000 && TwoTo(44) == 0x1000_0000_0000 && TwoTo(47) == 0x8000_0000_0000
    ensures TwoTo(49) == 0x2_0000_0000_0000 && TwoTo(50) == 0x4_0000_0000_0000
  {
    assert TwoTo(1) == 2 && TwoTo(3) == 8;
    assert TwoTo(8) == 256;
    hide TwoTo;
    TwoToSum(8, 8, 256, 256);
    TwoToSum(16, 16, 0x1_0000, 0x1_0000);
    TwoToSum(3, 1, 8, 2);
    TwoToSum(32, 4, 0x1_0000_0000, 16);
    TwoToSum(4, 3, 16, 8);
    TwoToSum(16, 7, 0x1_0000, 128);
    TwoToSum(36, 7, 0x10_0000_0000, 128);
    TwoToSum(36, 8, 0x10_0000_0000, 256);
    TwoToSum(44, 3, 0x1000_0000_0000, 8);
    TwoToSum(44, 4, 0x1000_0000_0000, 16);
    TwoToSum(48, 1, 0x1_0000_0000_0000, 2);
    TwoToSum(49, 1, 0x2_0000_0000_0000, 2);
  }

  lemma Ten()
    ensures AtMost(1, 10, 0) && AtLeast(1, 10, 0)
  {
    PowerOne(10);
    assert Power(2, 0) == 1;
  }

  /** 2136/643 is just above log (10) / log (2). */
  lemma TenTo643()
    ensures Power(10, 643) < Power(2, 2136)
  {
    hide TwoTo, AtMost, Power;
    TwoToTable();
    Ten();
    AtMostTwice(1, 10, 0, 100, 0);
    AtMostTwice(2, 100, 0, 10000, 0);
    AtMostTenfold(4, 10000, 0);
    AtMostTwice(5, 100000, 0, 10000000000, 0);
    AtMostTwice(10, 10000000000, 0, 11920928955079, 23);
    AtMostTwice(20, 11920928955079, 23, 16155871338929, 43);
    AtMostTwice(40, 16155871338929, 89, 14836824602755, 44);
    AtMostTwice(80, 14836824602755, 222, 12513019344904, 44);
    AtMostTwice(160, 12513019344904, 488, 8900295434043, 44);
    AtMostTenfold(320, 8900295434043, 1020);
    AtMostTwice(321, 89002954340430, 1020, 14071456677778, 49);
    AtMostTenfold(642, 14071456677778, 2089);
    AtMostIs(643, 140714566777780, 2089, 47);
  }

  lemma AtMostIs(n: nat, c: nat, e: nat, s: nat)
    requires AtMost(n, c, e) && c < TwoTo(s)
    ensures Power(10, n) < Power(2, e + s)
  {
    PowerSum(2, e, s);
    PowerPositive(2, e);
    Scaled(c, TwoTo(s), Power(2, e));
  }

  lemma AtLeastIs(n: nat, c: nat, e: nat, s: nat)
    requires AtLeast(n, c, e) && TwoTo(s) < c
    ensures Power(2, e + s) < Power(10, n)
  {
    PowerSum(2, e, s);
    PowerPositive(2, e);
    Scaled(TwoTo(s), c, Power(2, e));
  }

  lemma TenTo789()
    ensures Power(2, 2621) < Power(10, 789)
  {
    hide TwoTo, AtLeast, Power;
    TwoToTable();
    Ten();
    AtLeastTwice(1, 10, 0, 100, 0);
    AtLeastTenfold(2, 100, 0);
    AtLeastTwice(3, 1000, 0, 1000000, 0);
    AtLeastTwice(6, 1000000, 0, 1000000000000, 0);
    AtLeastTwice(12, 1000000000000, 0, 14551915228366, 36);
    AtLeastTwice(24, 14551915228366, 36, 12037062152418, 44);
    AtLeastTenfold(48, 12037062152418, 116);
    AtLeastTwice(49, 120370621524180, 116, 12868893973665, 50);
    AtLeastTwice(98, 12868893973665, 282, 9413749473050, 44);
    AtLeastTenfold(196, 9413749473050, 608);
    AtLeastTwice(197, 94137494730500, 608, 15741839679135, 49);
    AtLeastTwice(394, 15741839679135, 1265, 14086112769495, 44);
    AtLeastTenfold(788, 14086112769495, 2574);
    AtLeastIs(789, 140861127694950, 2574, 47);
  }

  /** Up to 2620 bits the bound is tight: the largest value of b bits has just so many digits. The first number of bits
      for which it is not is 2621. */
  lemma {:induction false} TightBelow(b: nat)
    requires b > 0
    ensures Power(2, b) > 0
    ensures b < 2621 ==> |Dec(Power(2, b) - 1)| == BitsStrlenBound(b)
    ensures b == 2621 ==> |Dec(Power(2, b) - 1)| < BitsStrlenBound(b)
  {
    PowerPositive(2, b);
    if b < 2621 {
      var j := BitsStrlenBound(b) - 1;
      BelowBits(b, j);
      DigitsSuffice(b, Power(2, b) - 1);
      if j > 0 {
        DecLength(Power(2, b) - 1, j);
      }
    } else if b == 2621 {
      TenTo789();
      DecLength(Power(2, b) - 1, 789);
    }
  }

  /** A power of ten below what the bound allows is below 2^b: otherwise b would be 2136 * u + 485 * v. */
  lemma BelowBits(b: nat, j: nat)
    requires 0 < b < 2621 && j == BitsStrlenBound(b) - 1
    ensures Power(10, j) < Power(2, b)
  {
    hide Power;
    var u, v := 146 * b - 485 * j, 2136 * j - 643 * b;
    assert u >= 1;
    assert b == 2136 * u + 485 * v;
    assert v <= 0;
    TenTo643();
    PowerProduct(10, 643, j);
    PowerProduct(2, 2136, j);
    PowerMonotone(Power(10, 643), Power(2, 2136), j);
    PowerLonger(2, 2136 * j, 643 * b);
    PowerProduct(10, j, 643);
    PowerProduct(2, b, 643);
    assert j * 643 == 643 * j && b * 643 == 643 * b;
    if Power(2, b) < Power(10, j) {
      PowerMonotone(Power(2, b), Power(10, j), 643);
    }
    NoTie(b, j);
  }

  lemma NoTie(b: nat, j: nat)
    requires b > 0
    ensures Power(2, b) != Power(10, j)
  {
    if j > 0 {
      NotAPowerOfTen(b, j);
    } else {
      PowerPositive(2, b - 1);
    }
  }
}
