/** IEEE 754-2019 binary64 and binary32 values as bit patterns (section 3.4), with the
    round-to-nearest-even conversions (section 4.3.1) the codec relies on. */
module Floats {
  import opened Base

  /** A magnitude m * 2^e is stored as (q - emin) * hidden + significand, where q is the
      exponent of the last place; the formula covers subnormals and carries alike. */
  datatype Format = Format(precision: nat, hidden: nat, emin: int, infinity: nat, signBit: nat)

  const BINARY64 := Format(53, 0x10_0000_0000_0000, -1074, 0x7FF0_0000_0000_0000, 0x8000_0000_0000_0000)
  const BINARY32 := Format(24, 0x80_0000, -149, 0x7F80_0000, 0x8000_0000)

  predicate Valid(f: Format) {
    && f.precision > 1
    && f.hidden == Pow2(f.precision - 1)
    && f.infinity < f.signBit
  }

  lemma FormatsValid()
    ensures Valid(BINARY64) && Valid(BINARY32)
  {
    Pow2Values();
  }

  /** An exact dyadic rational m * 2^e. */
  datatype Dyadic = Dyadic(m: nat, e: int)

  function Magnitude(f: Format, bits: nat): nat {
    if bits >= f.signBit then bits - f.signBit else bits
  }

  predicate Negative(f: Format, bits: nat) {
    bits >= f.signBit
  }

  function SignOf(f: Format, negative: bool): nat {
    if negative then f.signBit else 0
  }

  function Unpack(f: Format, mag: nat): (d: Dyadic)
    requires f.precision > 0
  {
    var field := Unshift(mag, f.precision - 1);
    var fraction := Low(mag, f.precision - 1);
    if field == 0 then Dyadic(fraction, f.emin)
    else Dyadic(fraction + f.hidden, f.emin + field - 1)
  }

  /** m * 2^-k to the nearest integer, ties to even. */
  function HalfEven(m: nat, k: nat): nat {
    var q := Unshift(m, k);
    var r := Low(m, k);
    if 2 * r > Pow2(k) || (2 * r == Pow2(k) && q % 2 == 1) then q + 1 else q
  }

  function LastPlace(f: Format, d: Dyadic): int {
    Max(d.e + BitLen(d.m) - f.precision, f.emin)
  }

  function Significand(d: Dyadic, q: int): nat {
    if q <= d.e then Shift(d.m, d.e - q) else HalfEven(d.m, q - d.e)
  }

  /** The magnitude bits of the nearest representable value, infinity on overflow. */
  function Round(f: Format, d: Dyadic): (mag: nat)
    requires f.precision > 0
    ensures mag <= f.infinity
  {
    if d.m == 0 then 0
    else
      var q := LastPlace(f, d);
      var mag := Shift(q - f.emin, f.precision - 1) + Significand(d, q);
      if mag < f.infinity then mag else f.infinity
  }

  lemma HalfEvenShifted(m: nat, j: nat, k: nat)
    ensures HalfEven(Shift(m, j), j + k) == HalfEven(m, k)
  {
    SplitShifted(m, j, k);
    ShiftPow2(k, j);
    assert 2 * Shift(Low(m, k), j) == Shift(2 * Low(m, k), j) by {
      ShiftAdd(Low(m, k), Low(m, k), j);
    }
    ShiftMonotone(2 * Low(m, k), Pow2(k), j);
    ShiftMonotone(Pow2(k), 2 * Low(m, k), j);
  }

  lemma HalfEvenExact(m: nat, k: nat)
    ensures HalfEven(Shift(m, k), k) == m
  {
    ShiftExact(m, k);
  }

  /** Rounding depends on the value m * 2^e and not on how it is split. */
  lemma RoundScaled(f: Format, d: Dyadic, k: nat)
    requires f.precision > 0
    ensures Round(f, Dyadic(Shift(d.m, k), d.e - k)) == Round(f, d)
  {
    if d.m > 0 {
      BitLenShift(d.m, k);
      SignificandScaled(d, k, LastPlace(f, d));
    } else {
      ShiftIsProduct(0, k);
    }
  }

  lemma SignificandScaled(d: Dyadic, k: nat, q: int)
    ensures Significand(Dyadic(Shift(d.m, k), d.e - k), q) == Significand(d, q)
  {
    if q <= d.e - k {
      ShiftShift(d.m, k, d.e - k - q);
    } else if q <= d.e {
      var j := q - (d.e - k);
      ShiftShift(d.m, d.e - q, j);
      HalfEvenExact(Shift(d.m, d.e - q), j);
    } else {
      HalfEvenShifted(d.m, k, q - d.e);
    }
  }

  lemma UnpackedRange(f: Format, mag: nat)
    requires Valid(f)
    ensures
      var d := Unpack(f, mag);
      d.m < 2 * f.hidden && d.e >= f.emin && (d.m >= f.hidden || d.e == f.emin)
  {
    SplitBits(mag, f.precision - 1);
  }

  lemma UnpackedPlace(f: Format, mag: nat)
    requires Valid(f)
    ensures LastPlace(f, Unpack(f, mag)) == Unpack(f, mag).e
  {
    UnpackedRange(f, mag);
    var d := Unpack(f, mag);
    assert Pow2(f.precision) == 2 * f.hidden;
    BitLenBound(d.m, f.precision);
    BitLenBound(d.m, f.precision - 1);
  }

  /** A representable value rounds to itself. */
  lemma RoundUnpacked(f: Format, mag: nat)
    requires Valid(f) && mag < f.infinity
    ensures Round(f, Unpack(f, mag)) == mag
  {
    var d := Unpack(f, mag);
    var k := f.precision - 1;
    SplitBits(mag, k);
    UnpackedPlace(f, mag);
    var field := Unshift(mag, k);
    if field > 0 {
      ShiftAdd(field - 1, 1, k);
      ShiftPow2(0, k);
    } else {
      ShiftIsProduct(0, k);
    }
  }

  /** Values equal as dyadics round alike, whatever the target format. */
  lemma RoundSameValue(f: Format, a: Dyadic, b: Dyadic)
    requires f.precision > 0
    requires a.e >= b.e && b.m == Shift(a.m, a.e - b.e)
    ensures Round(f, a) == Round(f, b)
  {
    RoundScaled(f, a, a.e - b.e);
  }

  // ----- binary32 inside binary64 -----

  predicate Finite(x: F64) {
    Magnitude(BINARY64, x) < BINARY64.infinity
  }

  predicate Finite32(u: U32) {
    Magnitude(BINARY32, u) < BINARY32.infinity
  }

  function Narrow(x: F64): U32 {
    SignOf(BINARY32, Negative(BINARY64, x)) + Round(BINARY32, Unpack(BINARY64, Magnitude(BINARY64, x)))
  }

  /** Infinity and NaN patterns keep their payload, shifted to the wider fraction. */
  function Widen(u: U32): F64 {
    var mag := Magnitude(BINARY32, u);
    SignOf(BINARY64, Negative(BINARY32, u)) +
      if mag < BINARY32.infinity then Round(BINARY64, Unpack(BINARY32, mag))
      else BINARY64.infinity + (mag - BINARY32.infinity) * 0x2000_0000
  }

  predicate ExactF32(x: F64) {
    Finite(x) && Widen(Narrow(x)) == x
  }

  /** Where a binary32 magnitude sits among the binary64 ones: its dyadic, renormalised. */
  lemma WidenedDyadic(mag: nat)
    requires 0 < mag < BINARY32.infinity
    ensures
      var d := Unpack(BINARY32, mag);
      var w := Round(BINARY64, d);
      && 0 < w < BINARY64.infinity
      && var c := Unpack(BINARY64, w);
         c.e <= d.e && c.m == Shift(d.m, d.e - c.e)
  {
    FormatsValid();
    UnpackedRange(BINARY32, mag);
    UnpackedSmall(mag);
    RoundNormal(Unpack(BINARY32, mag));
  }

  /** Every nonzero binary32 value is a normal binary64 value. */
  lemma RoundNormal(d: Dyadic)
    requires 0 < d.m < 0x100_0000 && -149 <= d.e <= 104
    ensures
      var w := Round(BINARY64, d);
      && 0 < w < BINARY64.infinity
      && BitLen(d.m) <= 24
      && Unpack(BINARY64, w) == Dyadic(Shift(d.m, 53 - BitLen(d.m)), d.e + BitLen(d.m) - 53)
  {
    NormalisedSignificand(d.m);
    var l := BitLen(d.m);
    NormalPlace(d.e + l - 53 + 1074, Shift(d.m, 53 - l));
    assert LastPlace(BINARY64, d) == d.e + l - 53;
  }

  lemma NormalisedSignificand(m: nat)
    requires 0 < m < 0x100_0000
    ensures 0 < BitLen(m) <= 24
    ensures BINARY64.hidden <= Shift(m, 53 - BitLen(m)) < 2 * BINARY64.hidden
  {
    Pow2Values();
    BitLenRange(m);
    BitLenBound(m, 24);
    var l := BitLen(m);
    ShiftPow2(l - 1, 53 - l);
    ShiftPow2(l, 53 - l);
    ShiftMonotone(Pow2(l - 1), m, 53 - l);
    ShiftMonotone(Pow2(l), m, 53 - l);
  }

  lemma NormalPlace(place: nat, s: nat)
    requires place <= 2044 && BINARY64.hidden <= s < 2 * BINARY64.hidden
    ensures
      var w := Shift(place, 52) + s;
      0 < w < BINARY64.infinity && Unpack(BINARY64, w) == Dyadic(s, place - 1074)
  {
    PlaceSum(place, s);
    PlaceBound(place);
    var w := Shift(place, 52) + s;
    hide Shift, Unshift, Low, Pow2, Unpack;
    JoinBits(place + 1, s - BINARY64.hidden, 52);
    PlaceUnpacked(w, place, s);
  }

  lemma PlaceSum(place: nat, s: nat)
    requires BINARY64.hidden <= s < 2 * BINARY64.hidden
    ensures Shift(place, 52) + s == Shift(place + 1, 52) + (s - BINARY64.hidden) && s - BINARY64.hidden < Pow2(52)
  {
    Pow2Values();
    ShiftAdd(place, 1, 52);
    ShiftPow2(0, 52);
    hide Shift, Pow2;
  }

  lemma PlaceBound(place: nat)
    requires place <= 2044
    ensures Shift(place + 1, 52) + BINARY64.hidden <= BINARY64.infinity
  {
    Pow2Values();
    ShiftMonotone(place + 1, 2045, 52);
    ShiftIsProduct(2045, 52);
    hide Shift, Pow2;
  }

  lemma PlaceUnpacked(w: nat, place: nat, s: nat)
    requires s >= BINARY64.hidden && Unshift(w, 52) == place + 1 && Low(w, 52) == s - BINARY64.hidden
    ensures Unpack(BINARY64, w) == Dyadic(s, place - 1074)
  {
    hide Unshift, Low;
  }

  lemma UnpackedSmall(mag: nat)
    requires 0 < mag < BINARY32.infinity
    ensures 0 < Unpack(BINARY32, mag).m && Unpack(BINARY32, mag).e <= 104
  {
    FormatsValid();
    SplitBits(mag, 23);
    Pow2Values();
    ShiftIsProduct(Unshift(mag, 23), 23);
  }

  lemma UnpackZero(f: Format)
    requires f.precision > 0
    ensures Unpack(f, 0).m == 0
  {
    JoinBits(0, 0, f.precision - 1);
    ShiftIsProduct(0, f.precision - 1);
  }

  /** Narrowing undoes widening on every finite binary32 pattern, signed zeros included. */
  lemma NarrowWiden(u: U32)
    requires Finite32(u)
    ensures Narrow(Widen(u)) == u
    ensures ExactF32(Widen(u))
  {
    FormatsValid();
    var mag := Magnitude(BINARY32, u);
    if mag == 0 {
      UnpackZero(BINARY32);
      UnpackZero(BINARY64);
    } else {
      WidenedDyadic(mag);
      var d := Unpack(BINARY32, mag);
      var w := Round(BINARY64, d);
      RoundSameValue(BINARY32, d, Unpack(BINARY64, w));
      RoundUnpacked(BINARY32, mag);
      assert Magnitude(BINARY64, Widen(u)) == w;
      assert Negative(BINARY64, Widen(u)) == Negative(BINARY32, u);
    }
  }

  // ----- integers -----

  /** The value is a whole number. */
  predicate Integral(x: F64) {
    var d := Unpack(BINARY64, Magnitude(BINARY64, x));
    d.e >= 0 || Low(d.m, -d.e) == 0
  }

  /** The magnitude of the value, rounded towards zero. */
  function WholePart(x: F64): nat {
    var d := Unpack(BINARY64, Magnitude(BINARY64, x));
    if d.e >= 0 then Shift(d.m, d.e) else Unshift(d.m, -d.e)
  }

  function ToInt(x: F64): int {
    if Negative(BINARY64, x) then 0 - WholePart(x) else WholePart(x)
  }

  /** The nearest binary64 value of an integer. */
  function FromInt(n: int): F64 {
    SignOf(BINARY64, n < 0) + Round(BINARY64, Dyadic(Abs(n), 0))
  }

  predicate NegativeZero(x: F64) {
    x == BINARY64.signBit
  }

  /** A whole number of safe magnitude; zero counts only with a positive sign. */
  predicate SafeInteger(x: F64) {
    Finite(x) && Integral(x) && WholePart(x) <= SAFE_INTEGER_MAX && !NegativeZero(x)
  }

  lemma RoundWholePart(x: F64)
    requires Finite(x) && Integral(x)
    ensures Round(BINARY64, Dyadic(WholePart(x), 0)) == Magnitude(BINARY64, x)
  {
    FormatsValid();
    var mag := Magnitude(BINARY64, x);
    var d := Unpack(BINARY64, mag);
    RoundUnpacked(BINARY64, mag);
    var n := WholePart(x);
    if d.e >= 0 {
      RoundSameValue(BINARY64, d, Dyadic(n, 0));
    } else {
      SplitBits(d.m, -d.e);
      RoundSameValue(BINARY64, Dyadic(n, 0), d);
    }
  }

  /** Reading a safe integer as an integer and converting it back gives the same bits. */
  lemma FromIntToInt(x: F64)
    requires SafeInteger(x)
    ensures FromInt(ToInt(x)) == x
  {
    RoundWholePart(x);
    assert WholePart(x) == 0 ==> Magnitude(BINARY64, x) == 0;
  }

  // ----- arithmetic: doubling and subtraction -----

  function Signed(negative: bool, m: nat): int {
    if negative then 0 - m else m
  }

  /** 2 * x, rounded. */
  function Twice(x: F64): F64 {
    var d := Unpack(BINARY64, Magnitude(BINARY64, x));
    SignOf(BINARY64, Negative(BINARY64, x)) + Round(BINARY64, Dyadic(d.m, d.e + 1))
  }

  /** x in units of 2^e. */
  function SignedAt(x: F64, e: int): int
    requires e <= Unpack(BINARY64, Magnitude(BINARY64, x)).e
  {
    var d := Unpack(BINARY64, Magnitude(BINARY64, x));
    Signed(Negative(BINARY64, x), Shift(d.m, d.e - e))
  }

  /** The exact difference x - y in units of 2^e. */
  function DifferenceAt(x: F64, y: F64, e: int): int
    requires e <= Unpack(BINARY64, Magnitude(BINARY64, x)).e
    requires e <= Unpack(BINARY64, Magnitude(BINARY64, y)).e
  {
    SignedAt(x, e) - SignedAt(y, e)
  }

  function CommonPlace(x: F64, y: F64): int {
    var ex := Unpack(BINARY64, Magnitude(BINARY64, x)).e;
    var ey := Unpack(BINARY64, Magnitude(BINARY64, y)).e;
    if ex <= ey then ex else ey
  }

  /** x - y, rounded; an exact zero is positive except for (-0) - (+0). */
  function Minus(x: F64, y: F64): F64 {
    var e := CommonPlace(x, y);
    var n := DifferenceAt(x, y, e);
    if n == 0 then SignOf(BINARY64, NegativeZero(x) && y == 0)
    else SignOf(BINARY64, n < 0) + Round(BINARY64, Dyadic(Abs(n), e))
  }

  // ----- subtraction of safe integers -----

  /** An integral value in units of a power of two below one. */
  lemma WholeAt(x: F64, e: int)
    requires Integral(x) && e <= 0 && e <= Unpack(BINARY64, Magnitude(BINARY64, x)).e
    ensures
      var d := Unpack(BINARY64, Magnitude(BINARY64, x));
      Shift(d.m, d.e - e) == Shift(WholePart(x), -e)
  {
    var d := Unpack(BINARY64, Magnitude(BINARY64, x));
    if d.e >= 0 {
      ShiftShift(d.m, d.e, -e);
    } else {
      SplitBits(d.m, -d.e);
      ShiftShift(WholePart(x), -d.e, d.e - e);
    }
  }

  lemma SignedShift(a: int, b: int, k: nat)
    ensures Signed(a < 0, Shift(Abs(a), k)) - Signed(b < 0, Shift(Abs(b), k))
         == Signed(a - b < 0, Shift(Abs(a - b), k))
  {
    if k > 0 {
      SignedShift(a, b, k - 1);
    }
  }

  lemma SignedZero(k: nat)
    ensures Shift(0, k) == 0
  {
    ShiftIsProduct(0, k);
  }

  /** The difference of two integral values is the difference of the integers. */
  lemma DifferenceBelowOne(x: F64, y: F64)
    requires Integral(x) && Integral(y) && CommonPlace(x, y) <= 0
    ensures
      var e := CommonPlace(x, y);
      var w := ToInt(x) - ToInt(y);
      DifferenceAt(x, y, e) == Signed(w < 0, Shift(Abs(w), -e))
  {
    var e := CommonPlace(x, y);
    WholeAt(x, e);
    WholeAt(y, e);
    SignedZero(-e);
    SignedShift(ToInt(x), ToInt(y), -e);
    hide Unpack, Shift, WholePart, Integral;
  }

  lemma DifferenceAboveOne(x: F64, y: F64)
    requires CommonPlace(x, y) >= 0
    ensures
      var e := CommonPlace(x, y);
      var n := DifferenceAt(x, y, e);
      ToInt(x) - ToInt(y) == Signed(n < 0, Shift(Abs(n), e))
  {
    var e := CommonPlace(x, y);
    SignedWholeShift(x, e);
    SignedWholeShift(y, e);
    SignedShift(SignedAt(x, e), SignedAt(y, e), e);
  }

  lemma SignedWholeShift(x: F64, e: int)
    requires 0 <= e <= Unpack(BINARY64, Magnitude(BINARY64, x)).e
    ensures ToInt(x) == Signed(SignedAt(x, e) < 0, Shift(Abs(SignedAt(x, e)), e))
  {
    var d := Unpack(BINARY64, Magnitude(BINARY64, x));
    ShiftShift(d.m, d.e - e, e);
    SignedZero(e);
  }

  lemma ShiftPositive(n: nat, k: nat)
    ensures Shift(n, k) == 0 <==> n == 0
  {
    ShiftMonotone(n, 0, k);
    SignedZero(k);
  }

  /** Subtracting safe integers in binary64 rounds the exact integer difference. */
  lemma MinusOfSafeIntegers(x: F64, y: F64)
    requires SafeInteger(x) && SafeInteger(y)
    ensures Minus(x, y) == FromInt(ToInt(x) - ToInt(y))
  {
    var e := CommonPlace(x, y);
    var n := DifferenceAt(x, y, e);
    var w := ToInt(x) - ToInt(y);
    if e <= 0 {
      DifferenceBelowOne(x, y);
      ShiftPositive(Abs(w), -e);
      RoundSameValue(BINARY64, Dyadic(Abs(w), 0), Dyadic(Abs(n), e));
    } else {
      DifferenceAboveOne(x, y);
      ShiftPositive(Abs(n), e);
      RoundSameValue(BINARY64, Dyadic(Abs(n), e), Dyadic(Abs(w), 0));
    }
  }

  /** Integers below 2^53 are exact; larger ones never round to a small one. */
  lemma RoundInteger(n: nat)
    requires 0 < n < 0x40_0000_0000_0000
    ensures
      var mag := Round(BINARY64, Dyadic(n, 0));
      && mag < BINARY64.infinity
      && (BitLen(n) <= 53 ==> Integral(mag) && WholePart(mag) == n)
      && (BitLen(n) > 53 ==> WholePart(mag) >= BINARY64.hidden)
  {
    BitLenRange(n);
    if BitLen(n) <= 53 {
      RoundSmallInteger(n);
    } else {
      RoundLargeInteger(n);
    }
  }

  lemma RoundSmallInteger(n: nat)
    requires n > 0 && BitLen(n) <= 53
    ensures
      var mag := Round(BINARY64, Dyadic(n, 0));
      mag < BINARY64.infinity && Integral(mag) && WholePart(mag) == n
  {
    var l := BitLen(n);
    NormalisedWide(n);
    NormalPlace(l + 1021, Shift(n, 53 - l));
    assert LastPlace(BINARY64, Dyadic(n, 0)) == l as int - 53;
    WholeOf(Round(BINARY64, Dyadic(n, 0)), Shift(n, 53 - l), l as int - 53);
    ShiftExact(n, 53 - l);
  }

  lemma WholeOf(mag: nat, m: nat, e: int)
    requires mag < BINARY64.infinity && Unpack(BINARY64, mag) == Dyadic(m, e)
    ensures Integral(mag) == (e >= 0 || Low(m, -e) == 0)
    ensures WholePart(mag) == if e >= 0 then Shift(m, e) else Unshift(m, -e)
  {
  }

  lemma NormalisedWide(m: nat)
    requires m > 0 && BitLen(m) <= 53
    ensures 0 < BitLen(m)
    ensures BINARY64.hidden <= Shift(m, 53 - BitLen(m)) < 2 * BINARY64.hidden
  {
    Pow2Values();
    BitLenRange(m);
    var l := BitLen(m);
    ShiftPow2(l - 1, 53 - l);
    ShiftPow2(l, 53 - l);
    ShiftMonotone(Pow2(l - 1), m, 53 - l);
    ShiftMonotone(Pow2(l), m, 53 - l);
  }

  lemma RoundLargeInteger(n: nat)
    requires BitLen(n) > 53 && n < 0x40_0000_0000_0000
    ensures
      var mag := Round(BINARY64, Dyadic(n, 0));
      mag < BINARY64.infinity && WholePart(mag) >= BINARY64.hidden
  {
    LargeSignificand(n);
    LargeRound(n);
    LargeSum(HalfEven(n, 1));
  }

  lemma LargeSum(s: nat)
    requires BINARY64.hidden <= s <= 2 * BINARY64.hidden
    ensures
      var sum := Shift(1075, 52) + s;
      sum < BINARY64.infinity && WholePart(sum) >= BINARY64.hidden
  {
    if s < 2 * BINARY64.hidden {
      LargeWhole(1075, s);
    } else {
      ShiftAdd(1075, 1, 52);
      ShiftPow2(0, 52);
      Pow2Values();
      LargeWhole(1076, BINARY64.hidden);
    }
  }

  lemma LargeRound(n: nat)
    requires BitLen(n) == 54
    ensures
      var sum := Shift(1075, 52) + HalfEven(n, 1);
      Round(BINARY64, Dyadic(n, 0)) == if sum < BINARY64.infinity then sum else BINARY64.infinity
  {
    assert LastPlace(BINARY64, Dyadic(n, 0)) == 1;
  }

  lemma LargeWhole(place: nat, s: nat)
    requires 1074 <= place <= 2044 && BINARY64.hidden <= s < 2 * BINARY64.hidden
    ensures
      var mag := Shift(place, 52) + s;
      mag < BINARY64.infinity && WholePart(mag) >= BINARY64.hidden
  {
    NormalPlace(place, s);
    WholeOf(Shift(place, 52) + s, s, place - 1074);
    ShiftGrows(s, place - 1074);
  }

  lemma ShiftGrows(n: nat, k: nat)
    ensures Shift(n, k) >= n
  {
  }

  lemma LargeSignificand(n: nat)
    requires BitLen(n) > 53 && n < 0x40_0000_0000_0000
    ensures BitLen(n) == 54
    ensures BINARY64.hidden <= HalfEven(n, 1) <= 2 * BINARY64.hidden
  {
    Pow2Values();
    assert Pow2(54) == 0x40_0000_0000_0000;
    BitLenBound(n, 54);
    BitLenBound(n, 53);
    assert Unshift(n, 1) == n / 2;
  }

  /** The guard of the integer delta, as the writer evaluates it in floating point, and the
      exact integer condition it amounts to. */
  lemma DifferenceGuardExact(next: F64, previous: F64, limit: nat)
    requires SafeInteger(next) && SafeInteger(previous) && limit < BINARY64.hidden
    ensures
      var d := Minus(next, previous);
      var n := ToInt(next) - ToInt(previous);
      && ((Integral(d) && WholePart(d) <= limit) <==> Abs(n) <= limit)
      && (Abs(n) <= limit ==> ToInt(d) == n)
  {
    MinusOfSafeIntegers(next, previous);
    var n := ToInt(next) - ToInt(previous);
    if n == 0 {
      UnpackZero(BINARY64);
      ZeroIsWhole();
    } else {
      RoundInteger(Abs(n));
      SignIgnored(n);
      Pow2Values();
      BitLenBound(Abs(n), 53);
    }
  }

  lemma ZeroIsWhole()
    ensures Integral(0) && WholePart(0) == 0
  {
    JoinBits(0, 0, 52);
    SignedZero(52);
    JoinBits(0, 0, 1074);
    SignedZero(1074);
  }

  lemma SignIgnored(n: int)
    requires n != 0 && Round(BINARY64, Dyadic(Abs(n), 0)) < BINARY64.infinity
    ensures
      var mag := Round(BINARY64, Dyadic(Abs(n), 0));
      && Integral(FromInt(n)) == Integral(mag)
      && WholePart(FromInt(n)) == WholePart(mag)
      && ToInt(FromInt(n)) == Signed(n < 0, WholePart(mag))
  {
  }
}
