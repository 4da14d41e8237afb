/** The order of the binary64 numbers by value, and how rounding an integer respects it. */
module FloatOrder {
  import opened Base
  import opened Floats

  /** The magnitude in units of the smallest subnormal number. */
  function Steps(mag: nat): nat {
    var d := Unpack(BINARY64, mag);
    Shift(d.m, d.e - BINARY64.emin)
  }

  /** The exact value in those units. */
  function Units(x: F64): int {
    Signed(Negative(BINARY64, x), Steps(Magnitude(BINARY64, x)))
  }

  /** An integer in those units. */
  function UnitsOf(n: int): int {
    Signed(n < 0, Shift(Abs(n), -BINARY64.emin))
  }

  /** The comparison of IEEE 754-2019, section 5.11: by value, the two zeros equal. */
  predicate AtMost(a: F64, b: F64) {
    Units(a) <= Units(b)
  }

  // ----- rounding is monotone -----

  lemma {:induction false} UnshiftMonotone(m: nat, n: nat, k: nat)
    requires m <= n
    ensures Unshift(m, k) <= Unshift(n, k)
    decreases k
  {
    if k > 0 {
      UnshiftMonotone(m / 2, n / 2, k - 1);
    }
  }

  lemma HalfEvenMonotone(m: nat, n: nat, k: nat)
    requires m <= n
    ensures HalfEven(m, k) <= HalfEven(n, k)
  {
    UnshiftMonotone(m, n, k);
    SplitBits(m, k);
    SplitBits(n, k);
  }

  lemma {:induction false} BitLenMonotone(m: nat, n: nat)
    requires m <= n
    ensures BitLen(m) <= BitLen(n)
  {
    if m > 0 {
      BitLenMonotone(m / 2, n / 2);
    }
  }

  lemma {:induction false} BitLenUnshift(n: nat, k: nat)
    ensures BitLen(Unshift(n, k)) == if k <= BitLen(n) then BitLen(n) - k else 0
    decreases k
  {
    if k > 0 {
      BitLenUnshift(n / 2, k - 1);
      if n == 0 {
        assert BitLen(0) == 0;
      }
    }
  }

  /** The significand at a last place that leaves at most the precision. */
  lemma SignificandAtMost(f: Format, d: Dyadic, q: int)
    requires Valid(f) && d.m > 0 && q >= d.e + BitLen(d.m) - f.precision
    ensures Significand(d, q) <= 2 * f.hidden
  {
    assert Pow2(f.precision) == 2 * f.hidden;
    if q <= d.e {
      BitLenShift(d.m, d.e - q);
      BitLenBound(Significand(d, q), f.precision);
    } else {
      BitLenUnshift(d.m, q - d.e);
      BitLenBound(Unshift(d.m, q - d.e), f.precision);
    }
  }

  lemma SignificandAtLeast(f: Format, d: Dyadic)
    requires Valid(f) && d.m > 0
    ensures Significand(d, d.e + BitLen(d.m) - f.precision) >= f.hidden
  {
    var q := d.e + BitLen(d.m) - f.precision;
    if q <= d.e {
      BitLenShift(d.m, d.e - q);
      FullLength(f, Shift(d.m, d.e - q));
    } else {
      BitLenUnshift(d.m, q - d.e);
      FullLength(f, Unshift(d.m, q - d.e));
    }
    hide BitLen, Shift, Unshift;
  }

  lemma FullLength(f: Format, n: nat)
    requires Valid(f) && BitLen(n) == f.precision
    ensures f.hidden <= n
  {
    BitLenBound(n, f.precision - 1);
    hide BitLen;
  }

  /** The magnitude before overflow is considered. */
  function Placed(f: Format, d: Dyadic): nat
    requires Valid(f)
  {
    var q := LastPlace(f, d);
    Shift(q - f.emin, f.precision - 1) + Significand(d, q)
  }

  lemma PlacedMonotone(f: Format, m: nat, n: nat, e: int)
    requires Valid(f) && 0 < m <= n
    ensures Placed(f, Dyadic(m, e)) <= Placed(f, Dyadic(n, e))
  {
    BitLenMonotone(m, n);
    var a, b := Dyadic(m, e), Dyadic(n, e);
    var p, q := LastPlace(f, a), LastPlace(f, b);
    if p == q {
      SamePlace(m, n, e, p);
    } else {
      assert q == e + BitLen(n) - f.precision && p < q;
      SignificandAtMost(f, a, p);
      SignificandAtLeast(f, b);
      NextPlace(f, p - f.emin, q - f.emin, Significand(a, p), Significand(b, q));
    }
  }

  lemma SamePlace(m: nat, n: nat, e: int, q: int)
    requires m <= n
    ensures Significand(Dyadic(m, e), q) <= Significand(Dyadic(n, e), q)
  {
    if q <= e {
      ShiftMonotone(m, n, e - q);
    } else {
      HalfEvenMonotone(m, n, q - e);
    }
  }

  lemma NextPlace(f: Format, p: nat, q: nat, s: nat, t: nat)
    requires Valid(f) && p < q && s <= 2 * f.hidden && t >= f.hidden
    ensures Shift(p, f.precision - 1) + s <= Shift(q, f.precision - 1) + t
  {
    ShiftAdd(p, 1, f.precision - 1);
    ShiftPow2(0, f.precision - 1);
    ShiftMonotone(p + 1, q, f.precision - 1);
  }

  lemma RoundMonotone(f: Format, m: nat, n: nat, e: int)
    requires Valid(f) && m <= n
    ensures Round(f, Dyadic(m, e)) <= Round(f, Dyadic(n, e))
  {
    if m > 0 {
      PlacedMonotone(f, m, n, e);
    }
    hide LastPlace, Significand, Shift;
  }

  // ----- the order of the magnitudes -----

  /** Rounding the exact value gives the magnitude back. */
  lemma RoundSteps(mag: nat)
    requires mag <= BINARY64.infinity
    ensures Round(BINARY64, Dyadic(Steps(mag), BINARY64.emin)) == mag
  {
    FormatsValid();
    var d := Unpack(BINARY64, mag);
    RoundSameValue(BINARY64, d, Dyadic(Steps(mag), BINARY64.emin));
    if mag < BINARY64.infinity {
      RoundUnpacked(BINARY64, mag);
    } else {
      RoundInfinity();
    }
  }

  lemma RoundInfinity()
    ensures Round(BINARY64, Unpack(BINARY64, BINARY64.infinity)) == BINARY64.infinity
  {
    Pow2Values();
    ShiftIsProduct(2047, 52);
    JoinBits(2047, 0, 52);
    assert Unpack(BINARY64, BINARY64.infinity) == Dyadic(BINARY64.hidden, 972);
    InfinityPlace();
  }

  lemma InfinityPlace()
    ensures Round(BINARY64, Dyadic(BINARY64.hidden, 972)) == BINARY64.infinity
  {
    Pow2Values();
    var d := Dyadic(BINARY64.hidden, 972);
    BitLenBound(d.m, 53);
    BitLenBound(d.m, 52);
    assert LastPlace(BINARY64, d) == 972 && Significand(d, 972) == d.m;
    ShiftIsProduct(2046, 52);
  }

  /** Bit patterns of magnitudes are ordered as their values. */
  lemma StepsMonotone(a: nat, b: nat)
    requires a <= BINARY64.infinity && b <= BINARY64.infinity
    ensures a <= b <==> Steps(a) <= Steps(b)
  {
    FormatsValid();
    RoundSteps(a);
    RoundSteps(b);
    hide Steps, Round;
    if Steps(a) <= Steps(b) {
      RoundMonotone(BINARY64, Steps(a), Steps(b), BINARY64.emin);
    } else {
      RoundMonotone(BINARY64, Steps(b), Steps(a), BINARY64.emin);
    }
  }

  /** The two infinities bound every finite number. */
  lemma FiniteWithinInfinities(x: F64)
    requires Finite(x)
    ensures AtMost(BINARY64.signBit + BINARY64.infinity, x) && AtMost(x, BINARY64.infinity)
  {
    StepsMonotone(Magnitude(BINARY64, x), BINARY64.infinity);
    hide Steps;
  }

  // ----- integers beside numbers -----

  lemma FromIntParts(n: int)
    ensures
      var mag := Round(BINARY64, Dyadic(Abs(n), 0));
      && mag <= BINARY64.infinity
      && Units(FromInt(n)) == Signed(n < 0, Steps(mag))
  {
    hide Round, Steps;
  }

  /** A short significand above the subnormal range is exact. */
  lemma RoundShort(m: nat, e: int)
    requires 0 < m < 2 * BINARY64.hidden && -1074 <= e <= 900
    ensures Steps(Round(BINARY64, Dyadic(m, e))) == Shift(m, e - BINARY64.emin)
  {
    hide *;
    ShortRound(m, e);
    var q := LastPlace(BINARY64, Dyadic(m, e));
    ShortSignificand(m, e);
    var s := Shift(m, e - q);
    ShiftShift(m, e - q, q - BINARY64.emin);
    if q > BINARY64.emin {
      ShortPlace(q - BINARY64.emin, s);
    } else {
      SubnormalPlace(s);
    }
  }

  lemma ShortRound(m: nat, e: int)
    requires 0 < m < 2 * BINARY64.hidden && -1074 <= e <= 900
    ensures
      var q := LastPlace(BINARY64, Dyadic(m, e));
      && BINARY64.emin <= q <= e && q - BINARY64.emin <= 2000
      && var w := Shift(q - BINARY64.emin, 52) + Shift(m, e - q);
         Round(BINARY64, Dyadic(m, e)) == if w < BINARY64.infinity then w else BINARY64.infinity
  {
    Pow2Values();
    BitLenBound(m, 53);
  }

  lemma ShortSignificand(m: nat, e: int)
    requires 0 < m < 2 * BINARY64.hidden && -1074 <= e <= 900
    ensures
      var q := LastPlace(BINARY64, Dyadic(m, e));
      q <= e && Shift(m, e - q) < 2 * BINARY64.hidden && (q > BINARY64.emin ==> Shift(m, e - q) >= BINARY64.hidden)
  {
    Pow2Values();
    BitLenBound(m, 53);
    var q := LastPlace(BINARY64, Dyadic(m, e));
    BitLenShift(m, e - q);
    BitLenBound(Shift(m, e - q), 53);
    BitLenBound(Shift(m, e - q), 52);
  }

  lemma ShortPlace(place: nat, s: nat)
    requires place <= 2000 && BINARY64.hidden <= s < 2 * BINARY64.hidden
    ensures Shift(place, 52) + s < BINARY64.infinity && Steps(Shift(place, 52) + s) == Shift(s, place)
  {
    NormalPlace(place, s);
    hide Unpack, Shift;
  }

  lemma SubnormalPlace(s: nat)
    requires s < 2 * BINARY64.hidden
    ensures Shift(0, 52) + s < BINARY64.infinity && Steps(Shift(0, 52) + s) == Shift(s, 0)
  {
    Pow2Values();
    ShiftIsProduct(0, 52);
    if s < BINARY64.hidden {
      JoinBits(0, s, 52);
    } else {
      ShiftPow2(0, 52);
      JoinBits(1, s - BINARY64.hidden, 52);
    }
  }

  // ----- the end of the binary32 range -----

  /** The least binary64 magnitude that narrowing rounds to infinity: halfway past the greatest
      binary32 number. */
  const NARROW_END: nat := 0x47EF_FFFF_F000_0000

  lemma NarrowEndUnpacked()
    ensures Unpack(BINARY64, NARROW_END) == Dyadic(0x1F_FFFF_F000_0000, 75)
    ensures Unpack(BINARY64, NARROW_END - 1) == Dyadic(0x1F_FFFF_EFFF_FFFF, 75)
  {
    Pow2Values();
    ShiftIsProduct(0x47E, 52);
    JoinBits(0x47E, 0xF_FFFF_F000_0000, 52);
    JoinBits(0x47E, 0xF_FFFF_EFFF_FFFF, 52);
    hide Shift, Unshift, Low, Pow2;
  }

  lemma NarrowEndHalves()
    ensures HalfEven(0x1F_FFFF_F000_0000, 29) == 0x100_0000
    ensures HalfEven(0x1F_FFFF_EFFF_FFFF, 29) == 0xFF_FFFF
  {
    Pow2Values();
    ShiftIsProduct(0xFF_FFFF, 29);
    JoinBits(0xFF_FFFF, 0x1000_0000, 29);
    JoinBits(0xFF_FFFF, 0xFFF_FFFF, 29);
    hide Shift, Unshift, Low, Pow2;
  }

  lemma NarrowEndRounds()
    ensures Round(BINARY32, Unpack(BINARY64, NARROW_END)) == BINARY32.infinity
    ensures Round(BINARY32, Unpack(BINARY64, NARROW_END - 1)) < BINARY32.infinity
  {
    NarrowEndUnpacked();
    NarrowEndHalves();
    NarrowEndPlaces();
    ShiftIsProduct(253, 23);
    Pow2Values();
    hide Shift, HalfEven, Unpack, LastPlace, Pow2;
  }

  lemma NarrowEndPlaces()
    ensures LastPlace(BINARY32, Dyadic(0x1F_FFFF_F000_0000, 75)) == 104
    ensures LastPlace(BINARY32, Dyadic(0x1F_FFFF_EFFF_FFFF, 75)) == 104
  {
    Pow2Values();
    BitLenBound(0x1F_FFFF_F000_0000, 53);
    BitLenBound(0x1F_FFFF_F000_0000, 52);
    BitLenBound(0x1F_FFFF_EFFF_FFFF, 53);
    BitLenBound(0x1F_FFFF_EFFF_FFFF, 52);
    hide BitLen, Pow2;
  }

  lemma NarrowedMonotone(a: nat, b: nat)
    requires a <= b <= BINARY64.infinity
    ensures Round(BINARY32, Unpack(BINARY64, a)) <= Round(BINARY32, Unpack(BINARY64, b))
  {
    FormatsValid();
    UnpackedRange(BINARY64, a);
    UnpackedRange(BINARY64, b);
    RoundSameValue(BINARY32, Unpack(BINARY64, a), Dyadic(Steps(a), BINARY64.emin));
    RoundSameValue(BINARY32, Unpack(BINARY64, b), Dyadic(Steps(b), BINARY64.emin));
    StepsMonotone(a, b);
    RoundMonotone(BINARY32, Steps(a), Steps(b), BINARY64.emin);
    hide Round, Unpack, Shift;
  }

  /** A number narrows to a finite one exactly when its magnitude is below `NARROW_END`. */
  lemma NarrowsBelowEnd(x: F64)
    requires Magnitude(BINARY64, x) <= BINARY64.infinity
    ensures Finite32(Narrow(x)) <==> Magnitude(BINARY64, x) < NARROW_END
  {
    NarrowEndRounds();
    var mag := Magnitude(BINARY64, x);
    if mag < NARROW_END {
      NarrowedMonotone(mag, NARROW_END - 1);
    } else {
      NarrowedMonotone(NARROW_END, mag);
    }
    hide Round, Unpack;
  }
}
