/** size_trunc_len (mcsrc/lib/util.c): a file size in at most len characters, with 64-bit unsigned arithmetic. */
module SizeTrunc {
  import opened Decimal
  import opened Powers
  import opened Wrappers

  const TWO_TO_THE_64: nat := 0x1_0000_0000_0000_0000
  const LAST: nat := 10
  const SUFFIXES: seq<string> := ["", "K", "M", "G", "T", "P", "E", "Z", "Y", "R", "Q"]
  const SUFFIXES_LC: seq<string> := ["", "k", "m", "g", "t", "p", "e", "z", "y", "r", "q"]

  function Suffix(si: bool, j: nat): string
    requires j <= LAST
  {
    if si then SUFFIXES_LC[j] else SUFFIXES[j]
  }

  function Wrap(n: nat): nat { n % TWO_TO_THE_64 }

  /** From 1024-based to 1000-based units, without multiplying by 1024. */
  function SiStep(size: nat): nat {
    Wrap(Wrap(size / 125 * 128) + (size % 125) * 1024 / 1000)
  }

  /** To the next unit, rounding to the nearest. */
  function Round(si: bool, size: nat): nat {
    if si then Wrap(size + 500) / 1000 else Wrap(size + 512) / 1024
  }

  function Converted(size: nat, n: nat): nat {
    if n == 0 then size else SiStep(Converted(size, n - 1))
  }

  /** The size after k roundings. */
  function Rounded(si: bool, size: nat, k: nat): nat {
    if k == 0 then size else Round(si, Rounded(si, size, k - 1))
  }

  function Width(len: nat): (w: nat)
    ensures len == 0 ==> w == 9
    ensures 0 < len <= 19 ==> w == len
    ensures len > 19 ==> w == 19
  {
    if len == 0 then 9 else if len > 19 then 19 else len
  }

  function FirstUnit(units: nat): (j: nat)
    ensures units <= 10 ==> j == units
    ensures units > 10 ==> j == 10
  {
    if units < LAST then units else LAST
  }

  function Start(si: bool, size: nat, units: nat): nat {
    if si then Converted(size, FirstUnit(units)) else size
  }

  /** Whether v can be shown in unit j. */
  predicate Stops(width: nat, v: nat, j: nat)
    requires 1 <= width <= 19
  {
    v == 0 || v < Power(10, width - if j > 0 then 1 else 0)
  }

  /** How v is shown in unit j. */
  function Shown(width: nat, si: bool, v: nat, j: nat, units: nat): string
    requires j <= LAST
  {
    if v > 0 then Dec(v) + Suffix(si, j)
    else if j == units then "0"
    else (if width > 1 then "~" else "") + if j > 1 then Suffix(si, j - 1) else "B"
  }

  // ---------------------------------------------------------------- what the text says

  /** The power of the unit that a letter stands for, lower case for 1000-based units, and B for bytes. */
  function UnitOf(si: bool, c: char): Option<nat> {
    if c == 'B' then Some(0)
    else if c == (if si then 'k' else 'K') then Some(1)
    else if c == (if si then 'm' else 'M') then Some(2)
    else if c == (if si then 'g' else 'G') then Some(3)
    else if c == (if si then 't' else 'T') then Some(4)
    else if c == (if si then 'p' else 'P') then Some(5)
    else if c == (if si then 'e' else 'E') then Some(6)
    else if c == (if si then 'z' else 'Z') then Some(7)
    else if c == (if si then 'y' else 'Y') then Some(8)
    else if c == (if si then 'r' else 'R') then Some(9)
    else if c == (if si then 'q' else 'Q') then Some(10)
    else None
  }

  /** A number of units, or a size below half a unit of the next power. */
  datatype Reading = Units(n: nat, power: nat) | Few(power: nat) | Unreadable

  /** A number and the letter of a unit, with nothing else between or behind; or a letter alone, "~" before it. */
  function Read(si: bool, s: string): Reading {
    var k := DigitCount(s);
    if s == "" then Unreadable
    else if k == |s| then Units(Number(s), 0)
    else
      var unit := UnitOf(si, s[|s| - 1]);
      if unit.None? then Unreadable
      else if k == |s| - 1 && k > 0 && unit.value > 0 then Units(Number(s[..k]), unit.value)
      else if |s| == 1 || (|s| == 2 && s[0] == '~') then Few(unit.value)
      else Unreadable
  }

  /** v units of power j have room in width characters; nothing at all always has. */
  ghost predicate Room(width: nat, v: nat, j: nat) {
    v == 0 || |Dec(v)| + (if j > 0 then 1 else 0) <= width
  }

  /** The text says v units of power j: the number and its unit when it is not 0; "0" when there is nothing and the
      unit is the one given; and otherwise the unit below, behind a "~" if there is room for it. */
  ghost predicate Says(text: string, width: nat, si: bool, v: nat, j: nat, units: nat) {
    if v > 0 then Read(si, text) == Units(v, j)
    else if j == units then text == "0"
    else Read(si, text) == Few(if j > 1 then j - 1 else 0) && text != "" && (text[0] == '~' <==> width > 1)
  }

  /** The first unit, from the given one on, in which the size has room is k units further. */
  ghost predicate FirstRoom(width: nat, si: bool, start: nat, first: nat, k: nat) {
    && first + k <= LAST && Room(width, Rounded(si, start, k), first + k)
    && forall i :: 0 <= i < k ==> !Room(width, Rounded(si, start, i), first + i)
  }

  lemma {:induction false} StopsWhen(width: nat, v: nat, j: nat)
    requires 1 <= width <= 19
    ensures Stops(width, v, j) <==> Room(width, v, j)
  {
    var digits := width - if j > 0 then 1 else 0;
    if digits > 0 {
      DecLength(v, digits);
    }
  }

  lemma SuffixRead(si: bool, j: nat)
    requires 1 <= j <= LAST
    ensures |Suffix(si, j)| == 1 && UnitOf(si, Suffix(si, j)[0]) == Some(j)
    ensures !IsDigit(Suffix(si, j)[0]) && Suffix(si, j)[0] != '~'
  {
  }

  lemma {:induction false} ShownSays(width: nat, si: bool, v: nat, j: nat, units: nat)
    requires j <= LAST
    ensures Says(Shown(width, si, v, j, units), width, si, v, j, units)
  {
    hide Dec, Number, DigitCount, UnitOf, Suffix;
    if v > 0 {
      NumberShown(si, v, j);
    } else if j != units {
      var unit := if j > 1 then Suffix(si, j - 1) else "B";
      if j > 1 {
        SuffixRead(si, j - 1);
      } else {
        assert UnitOf(si, 'B') == Some(0) by { BytesRead(si); }
      }
      UnitShown(si, unit[0], if j > 1 then j - 1 else 0);
      assert unit == [unit[0]];
      assert "~" + unit == ['~', unit[0]] && "" + unit == unit;
    }
  }

  lemma BytesRead(si: bool)
    ensures UnitOf(si, 'B') == Some(0)
  {
  }

  lemma UnitShown(si: bool, c: char, power: nat)
    requires UnitOf(si, c) == Some(power) && !IsDigit(c)
    ensures Read(si, [c]) == Few(power) && Read(si, ['~', c]) == Few(power)
  {
    hide UnitOf;
    assert DigitCount([c]) == 0 && DigitCount(['~', c]) == 0;
  }

  lemma NumberShown(si: bool, v: nat, j: nat)
    requires j <= LAST
    ensures Read(si, Dec(v) + Suffix(si, j)) == Units(v, j)
  {
    hide Dec, Number, DigitCount, UnitOf, Suffix;
    if j == 0 {
      NoSuffix(si);
      ReadDec(v, "");
      assert Dec(v) + "" == Dec(v) && Dec(v)[..|Dec(v)|] == Dec(v);
    } else {
      SuffixRead(si, j);
      ReadDec(v, Suffix(si, j));
    }
  }

  lemma NoSuffix(si: bool)
    ensures Suffix(si, 0) == ""
  {
  }

  lemma {:induction false} ShownFits(width: nat, si: bool, v: nat, j: nat, units: nat)
    requires 1 <= width <= 19 && j <= LAST && Stops(width, v, j)
    ensures |Shown(width, si, v, j, units)| <= width
  {
    if v > 0 {
      var digits := width - if j > 0 then 1 else 0;
      if digits > 0 {
        DecLength(v, digits);
      }
    }
  }

  /** g_snprintf (buffer, len + 1, ...) */
  function Print(width: nat, s: string): string {
    if |s| <= width then s else s[..width]
  }

  /** The size is shown, whole, in the first unit where it fits; None when no unit is large enough, and the buffer
      is left as it was. */
  method SizeTruncLen(len: nat, size: nat, units: nat, useSi: bool) returns (buffer: Option<string>)
    requires size < TWO_TO_THE_64
    ensures buffer.Some? ==> |buffer.value| <= Width(len) && exists k: nat ::
      && FirstRoom(Width(len), useSi, Start(useSi, size, units), FirstUnit(units), k)
      && Says(buffer.value, Width(len), useSi, Rounded(useSi, Start(useSi, size, units), k), FirstUnit(units) + k,
              units)
    ensures buffer.None? ==> forall k: nat :: FirstUnit(units) + k <= LAST ==>
      !Room(Width(len), Rounded(useSi, Start(useSi, size, units), k), FirstUnit(units) + k)
  {
    hide Dec, Power, Suffix, SiStep, Round, Wrap, Stops, Shown, Room, Says;
    var width := if len == 0 then 9 else if len > 19 then 19 else len;
    var first := if units < LAST then units else LAST;
    var v := size;
    var j := 0;
    if useSi {
      while j < first
        invariant 0 <= j <= first && v == Converted(size, j)
      {
        var remain := (v % 125) * 1024 / 1000;
        v := ConvertOnce(v, remain);
        j := j + 1;
      }
    }
    ghost var start := v;
    ghost var k: nat := 0;
    j := first;
    while j <= LAST
      invariant first <= j <= LAST + 1 && k == j - first && v == Rounded(useSi, start, k)
      invariant forall i :: 0 <= i < k ==> !Room(width, Rounded(useSi, start, i), first + i)
    {
      var fits := Fits(width, v, j);
      StopsWhen(width, v, j);
      if fits {
        ShownFits(width, useSi, v, j, units);
        ShownSays(width, useSi, v, j, units);
        assert FirstRoom(Width(len), useSi, Start(useSi, size, units), FirstUnit(units), k);
        return Some(Print(width, Shown(width, useSi, v, j, units)));
      }
      v := Round(useSi, v);
      j, k := j + 1, k + 1;
    }
    return None;
  }

  method ConvertOnce(size: nat, remain: nat) returns (r: nat)
    requires remain == (size % 125) * 1024 / 1000
    ensures r == SiStep(size)
  {
    r := size / 125;
    r := Wrap(r * 128);
    r := Wrap(r + remain);
  }

  method Fits(width: nat, v: nat, j: nat) returns (fits: bool)
    requires 1 <= width <= 19
    ensures fits == Stops(width, v, j)
  {
    fits := v == 0 || v < Power(10, width - if j > 0 then 1 else 0);
  }

  // ---------------------------------------------------------------- how good the number is

  lemma QuotientPlus(q: nat, x: nat)
    ensures (1000 * q + x) / 1000 == q + x / 1000
  {}

  /** A sum of two parts, wrapped twice, is the sum exactly when the sum fits. */
  lemma Wraps(a: nat, b: nat)
    ensures Wrap(Wrap(a) + b) == a + b <==> a + b < TWO_TO_THE_64
  {}

  /** One conversion is exact, the quotient of the true product, unless that does not fit 64 bits. */
  lemma SiStepExact(size: nat)
    requires size < TWO_TO_THE_64
    ensures SiStep(size) == size * 1024 / 1000 <==> size * 1024 / 1000 < TWO_TO_THE_64
  {
    var a, r := size / 125, size % 125;
    assert size * 1024 == 1000 * (128 * a) + r * 1024;
    QuotientPlus(128 * a, r * 1024);
    Wraps(128 * a, r * 1024 / 1000);
  }

  function Base(si: bool): nat { if si then 1000 else 1024 }

  /** One rounding is to the nearest multiple exactly when adding half a unit does not wrap. */
  lemma RoundStep(si: bool, v: nat)
    requires v < TWO_TO_THE_64
    ensures var d := Base(si) * Round(si, v) - v;
      0 - Base(si) <= 2 * d <= Base(si) <==> v + Base(si) / 2 < TWO_TO_THE_64
    ensures v + Base(si) / 2 < TWO_TO_THE_64 ==> Round(si, v) <= v
  {
  }

  function Distance(a: nat, b: nat): nat { if a < b then b - a else a - b }

  /** A number shown after k roundings is off by at most half a unit, and the earlier roundings' share of it:
      (base/2) * (base^k - 1) / (base - 1) in bytes. */
  lemma {:induction false} RoundingBound(si: bool, size: nat, k: nat)
    requires size + Base(si) / 2 < TWO_TO_THE_64
    ensures Rounded(si, size, k) <= size
    ensures Distance(Rounded(si, size, k) * Power(Base(si), k), size) * (Base(si) - 1)
         <= Base(si) / 2 * (Power(Base(si), k) - 1)
  {
    if k > 0 {
      RoundingBound(si, size, k - 1);
      var base, v := Base(si), Rounded(si, size, k - 1);
      RoundStep(si, v);
      PowerPositive(base, k - 1);
      Accumulate(base, v, Round(si, v), Power(base, k - 1), size);
    }
  }

  lemma Accumulate(base: nat, v: nat, v': nat, p: nat, size: nat)
    requires base > 0 && base % 2 == 0 && p > 0
    requires 0 - base <= 2 * (base * v' - v) <= base
    requires Distance(v * p, size) * (base - 1) <= base / 2 * (p - 1)
    ensures Distance(v' * (base * p), size) * (base - 1) <= base / 2 * (base * p - 1)
  {
    var h, c := base / 2, base - 1;
    var d: int := base * v' - v;
    ProductSplit(base, v', v, d, p);
    BoundedTimes(d, h, p);
    Farther(v * p, v' * (base * p), d * p, h * p, size);
    Combined(Distance(v' * (base * p), size), Distance(v * p, size), h * p, c);
    Collected(base, h, p);
  }

  lemma Farther(x: nat, y: nat, d: int, hp: nat, size: nat)
    requires y == x + d && 0 - hp <= d <= hp
    ensures Distance(y, size) <= Distance(x, size) + hp
  {}

  lemma Combined(y: nat, x: nat, hp: nat, c: nat)
    requires y <= x + hp
    ensures y * c <= x * c + hp * c
  {
    NotMore(y, x + hp, c);
    assert (x + hp) * c == x * c + hp * c;
  }

  lemma ProductSplit(base: nat, v': nat, v: nat, d: int, p: nat)
    requires base * v' == v + d
    ensures v' * (base * p) == v * p + d * p
  {
    assert v' * (base * p) == (base * v') * p;
  }

  lemma BoundedTimes(d: int, h: nat, p: nat)
    requires 0 - h <= d <= h
    ensures 0 - h * p <= d * p <= h * p
  {
    TimesPositive(h - d, p);
    TimesPositive(h + d, p);
    assert (h - d) * p == h * p - d * p && (h + d) * p == h * p + d * p;
  }

  lemma NotMore(a: nat, b: nat, c: nat)
    requires a <= b
    ensures a * c <= b * c
  {
    TimesPositive(b - a, c);
    assert (b - a) * c == b * c - a * c;
  }

  lemma Collected(base: nat, h: nat, p: nat)
    requires base > 0
    ensures h * (p - 1) + (h * p) * (base - 1) == h * (base * p - 1)
  {
    assert (h * p) * (base - 1) == h * p * base - h * p;
    assert h * (base * p - 1) == h * p * base - h;
    assert h * (p - 1) == h * p - h;
  }

  /** A size in 1024-based units of power n, converted to 1000-based units of power n, loses less than a unit at each
      of the n steps: what is lost are fewer than 1000 * (1024^n - 1000^n) / 24 bytes. */
  lemma {:induction false} ConvertedBytes(size: nat, n: nat, top: nat)
    requires n <= top && size * Power(1024, top) < TWO_TO_THE_64 * Power(1000, top)
    ensures var lost := size * Power(1024, n) - Converted(size, n) * Power(1000, n);
      0 <= lost && 24 * lost <= 1000 * (Power(1024, n) - Power(1000, n))
    ensures Converted(size, n) < TWO_TO_THE_64
  {
    hide Power, SiStep, Wrap;
    SmallAtEnd(size, n, top);
    if n == 0 {
      PowerNone();
    } else {
      ConvertedBytes(size, n - 1, top);
      var s, s' := Converted(size, n - 1), Converted(size, n);
      var p, q := Power(1000, n - 1), Power(1024, n - 1);
      PowerPositive(1000, n - 1);
      PowerNext(1000, n - 1);
      PowerNext(1024, n - 1);
      OneMore(size, 1024, n - 1);
      NextFits(s, p, size * q);
      SiStepExact(s);
      LostStep(s, s', p, q, size);
    }
  }

  lemma PowerNone()
    ensures Power(1000, 0) == Power(1024, 0) == 1
  {
  }

  /** If the last conversion fits, so do the earlier ones. */
  lemma {:induction false} SmallAtEnd(size: nat, n: nat, top: nat)
    requires n <= top && size * Power(1024, top) < TWO_TO_THE_64 * Power(1000, top)
    ensures size * Power(1024, n) < TWO_TO_THE_64 * Power(1000, n)
    decreases top - n
  {
    if n < top {
      SmallAtEnd(size, n + 1, top);
      OneMore(size, 1024, n);
      OneMore(TWO_TO_THE_64, 1000, n);
      TimesPositive(TWO_TO_THE_64, Power(1000, n));
    }
  }

  lemma OneMore(x: nat, base: nat, n: nat)
    ensures x * Power(base, n + 1) == base * (x * Power(base, n))
  {
    assert x * (base * Power(base, n)) == base * (x * Power(base, n));
  }

  lemma NextFits(s: nat, p: nat, bytes: nat)
    requires p > 0 && s * p <= bytes
    requires 1024 * bytes < TWO_TO_THE_64 * (1000 * p)
    ensures s * 1024 / 1000 < TWO_TO_THE_64
  {
    assert (s * 1024) * p == 1024 * (s * p);
    assert (TWO_TO_THE_64 * 1000) * p == TWO_TO_THE_64 * (1000 * p);
    BelowTimes(s * 1024, TWO_TO_THE_64 * 1000, p);
  }

  lemma LostStep(s: nat, s': nat, p: nat, q: nat, size: nat)
    requires s' == s * 1024 / 1000 && p > 0
    requires 0 <= size * q - s * p && 24 * (size * q - s * p) <= 1000 * (q - p)
    ensures var lost := size * (1024 * q) - s' * (1000 * p);
      0 <= lost && 24 * lost <= 1000 * (1024 * q - 1000 * p)
  {
    var d := s * 1024 - s' * 1000;
    assert 0 <= d < 1000;
    assert size * (1024 * q) == 1024 * (size * q);
    assert s' * (1000 * p) == 1024 * (s * p) - d * p by {
      assert s' * (1000 * p) == (s' * 1000) * p;
      assert (s * 1024 - d) * p == (s * 1024) * p - d * p;
      assert (s * 1024) * p == 1024 * (s * p);
    }
    TimesMonotone(d, 1000, p, p);
    TimesPositive(d, p);
  }

  /** The size that a shown number of units means, in bytes, is the size given up to the roundings, (base/2) *
      (base^k - 1) / (base - 1) units of the first power, and for 1000-based units up to the conversion. */
  lemma ShownBytes(si: bool, size: nat, units: nat, k: nat) returns (kept: nat)
    requires Start(si, size, units) + Base(si) / 2 < TWO_TO_THE_64
    requires si ==> size * Power(1024, FirstUnit(units)) < TWO_TO_THE_64 * Power(1000, FirstUnit(units))
    ensures kept <= Bytes(size, 1024, FirstUnit(units))
    ensures !si ==> kept == Bytes(size, 1024, FirstUnit(units))
    ensures var lost := Bytes(size, 1024, FirstUnit(units)) - kept;
      si ==> 24 * lost <= 1000 * (Power(1024, FirstUnit(units)) - Power(1000, FirstUnit(units)))
    ensures var shown := Bytes(Rounded(si, Start(si, size, units), k), Base(si), k + FirstUnit(units));
      Distance(shown, kept) * (Base(si) - 1)
      <= (Base(si) / 2 * (Power(Base(si), k) - 1)) * Power(Base(si), FirstUnit(units))
  {
    hide Power, Converted, Rounded, FirstUnit, Distance;
    var first, start, base := FirstUnit(units), Start(si, size, units), Base(si);
    if si {
      ConvertedBytes(size, first, first);
    }
    kept := Bytes(start, base, first);
    RoundingBound(si, start, k);
    PowerSum(base, k, first);
    InUnits(Rounded(si, start, k), Power(base, k), Power(base, first), start, base - 1,
            base / 2 * (Power(base, k) - 1));
  }

  /** So many units of a power of the base. */
  function Bytes(n: nat, base: nat, power: nat): nat {
    TimesPositive(n, Power(base, power));
    n * Power(base, power)
  }

  lemma InUnits(v: nat, p: nat, unit: nat, start: nat, c: nat, bound: int)
    requires Distance(v * p, start) * c <= bound
    ensures Distance(v * (p * unit), start * unit) * c <= bound * unit
  {
    hide Distance;
    assert v * (p * unit) == (v * p) * unit;
    DistanceTimes(v * p, start, unit);
    Scaled(Distance(v * p, start), c, bound, unit);
  }

  lemma Scaled(d: nat, c: nat, bound: int, unit: nat)
    requires d * c <= bound
    ensures (d * unit) * c <= bound * unit
  {
    assert (d * unit) * c == (d * c) * unit;
    TimesPositive(bound - d * c, unit);
    assert (bound - d * c) * unit == bound * unit - (d * c) * unit;
  }

  lemma DistanceTimes(a: nat, b: nat, u: nat)
    ensures Distance(a * u, b * u) == Distance(a, b) * u
  {
    if a < b {
      NotMore(a, b, u);
      assert (b - a) * u == b * u - a * u;
    } else {
      NotMore(b, a, u);
      assert (a - b) * u == a * u - b * u;
    }
  }

  lemma TenToThe19()
    ensures Power(10, 19) == 10_000_000_000_000_000_000
  {
    assert Power(10, 4) == 10_000;
    assert Power(10, 8) == 10_000 * Power(10, 4);
    assert Power(10, 12) == 10_000 * Power(10, 8);
    assert Power(10, 16) == 10_000 * Power(10, 12);
    assert Power(10, 19) == 1000 * Power(10, 16);
  }

  /** Without the bound on the size the rounding wraps: the largest 64-bit size shows as "~B" in 19 characters. */
  lemma LargestSizeWraps(si: bool)
    ensures var size := TWO_TO_THE_64 - 1;
      && FirstRoom(19, si, size, 0, 1) && Rounded(si, size, 1) == 0
      && Shown(19, si, Rounded(si, size, 1), 1, 0) == "~B"
  {
    hide Power, Room;
    TenToThe19();
    StopsWhen(19, TWO_TO_THE_64 - 1, 0);
    StopsWhen(19, 0, 1);
    assert Rounded(si, TWO_TO_THE_64 - 1, 0) == TWO_TO_THE_64 - 1;
  }
}
