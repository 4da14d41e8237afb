/** The numbers on which the Python encoder raises when it narrows them, with an input of each kind. */
module PythonRefusals {
  import opened Base
  import opened Floats
  import opened FloatOrder
  import opened Values
  import opened Residuals
  import opened Delta
  import opened ChunkRoundTrip
  import opened PythonNarrowing
  import opened PythonDelta
  import opened PythonChunk
  import ReaderDifferences
  import WriterRange

  /** A number whose last place stands for four or more is no safe integer. */
  lemma LargeIsUnsafe(x: F64)
    requires
      var d := Unpack(BINARY64, Magnitude(BINARY64, x));
      d.e >= 2 && d.m >= BINARY64.hidden
    ensures !SafeInteger(x)
  {
    var d := Unpack(BINARY64, Magnitude(BINARY64, x));
    ShiftShift(d.m, 2, d.e - 2);
    ShiftGrows(Shift(d.m, 2), d.e - 2);
    assert Shift(d.m, 1) == 2 * d.m;
    assert Shift(d.m, 2) == 2 * Shift(d.m, 1);
    hide Shift, Unpack;
  }

  lemma BeyondEnd(mag: nat)
    requires mag >= NARROW_END
    ensures Unpack(BINARY64, mag).e >= 2 && Unpack(BINARY64, mag).m >= BINARY64.hidden
  {
    NarrowEndField();
    UnshiftMonotone(NARROW_END, mag, 52);
    hide Unshift, Low;
  }

  lemma NarrowEndField()
    ensures Unshift(NARROW_END, 52) == 0x47E
  {
    Pow2Values();
    ShiftIsProduct(0x47E, 52);
    JoinBits(0x47E, 0xF_FFFF_F000_0000, 52);
  }

  /** A finite number is written exactly when its magnitude lies below the end of the binary32 range. */
  lemma NumberWrites(x: F64)
    requires Finite(x)
    ensures Writable(Num(x)) <==> Magnitude(BINARY64, x) < NARROW_END
  {
    NarrowsBelowEnd(x);
    if Magnitude(BINARY64, x) >= NARROW_END {
      BeyondEnd(Magnitude(BINARY64, x));
      LargeIsUnsafe(x);
    }
    hide Narrow, SafeInteger, Unpack;
  }

  /** After two exact binary32 numbers, a third is written as an integer difference, or exactly
      when what the first two extrapolate to lies below the end of the binary32 range. */
  lemma ExtrapolationWrites(before: F64, previous: F64, next: F64)
    requires ExactF32(before) && ExactF32(previous) && ExactF32(next)
    ensures NumberNarrows(previous, next, Some(Num(before))) <==>
      IntegerDelta(previous, next) || Magnitude(BINARY64, Extrapolated(before, previous)) < NARROW_END
  {
    ExactNarrows(before);
    ExactNarrows(previous);
    ExactNarrows(next);
    DifferenceMagnitude(Twice(previous), before);
    NarrowsBelowEnd(Extrapolated(before, previous));
    hide Narrow, Widen, IntegerDelta, Minus, Twice, ExactF32;
  }

  /** The numbers narrowed on the way to a number, in order: the one before, unless both are near
      integers; the next, if that is a binary32 number; the one before last, if both are; and what it
      extrapolates to, if all three are. The step is written exactly when none lies beyond the range. */
  lemma NumberStepNarrows(previous: F64, next: F64, before: Option<Value>)
    requires Finite(previous) && Finite(next) && (before.Some? && before.value.Num? ==> Finite(before.value.bits))
    ensures NumberNarrows(previous, next, before) <==>
      || IntegerDelta(previous, next)
      || (Magnitude(BINARY64, previous) < NARROW_END
          && (ExactF32(previous) ==>
                Magnitude(BINARY64, next) < NARROW_END
                && (ExactF32(next) && before.Some? && before.value.Num? ==>
                      Magnitude(BINARY64, before.value.bits) < NARROW_END
                      && (ExactF32(before.value.bits) ==>
                            Magnitude(BINARY64, Extrapolated(before.value.bits, previous)) < NARROW_END))))
  {
    NarrowsBelowEnd(previous);
    NarrowsBelowEnd(next);
    if before.Some? && before.value.Num? {
      NarrowsBelowEnd(before.value.bits);
      DifferenceMagnitude(Twice(previous), before.value.bits);
      NarrowsBelowEnd(Extrapolated(before.value.bits, previous));
    }
    hide Narrow, Widen, IntegerDelta, Minus, Twice, ExactF32, Magnitude, Finite32;
  }

  lemma DifferenceMagnitude(x: F64, y: F64)
    ensures Magnitude(BINARY64, Minus(x, y)) <= BINARY64.infinity
  {
    hide Round, CommonPlace, DifferenceAt;
  }

  // ----- a number beyond the range -----

  /** 10^300. */
  const HUGE: F64 := 0x7E37_E43C_8800_759C

  /** The one-stage encoder writes this tick and the Python one raises. */
  lemma HugeNumberRaises()
    ensures AllWellFormed([Num(HUGE)]) && EncodeChunk([Num(HUGE)], 0).Ok?
    ensures Encode([Num(HUGE)], 0) == None
  {
    var ticks := [Num(HUGE)];
    HugeAccepted();
    NumberWrites(HUGE);
    FirstWrites(ticks);
    EncodeAgrees(ticks, 0);
    hide Writable, ChunkWrites, Encode, EncodeChunk;
  }

  lemma HugeAccepted()
    ensures AllWellFormed([Num(HUGE)]) && EncodeChunk([Num(HUGE)], 0).Ok?
  {
    var ticks := [Num(HUGE)];
    assert WellFormed(ticks[0]) && WriterRange.SmallValue(ticks[0]);
    hide SafeInteger, ExactF32;
    WriterRange.EncoderAccepts(ticks, 0);
  }

  // ----- an extrapolation beyond the range -----

  const LOW_POWER: F64 := Widen(0xFF00_0000)
  const HIGH_POWER: F64 := Widen(0x7F00_0000)
  const HALF: F64 := Widen(0x3F00_0000)

  /** -2^127, 2^127 and 0.5: binary32 numbers, each written alone without raising. */
  function Powers(): seq<Value> {
    [Num(LOW_POWER), Num(HIGH_POWER), Num(HALF)]
  }

  lemma PowersExact()
    ensures ExactF32(LOW_POWER) && ExactF32(HIGH_POWER) && ExactF32(HALF)
  {
    NarrowWiden(0xFF00_0000);
    NarrowWiden(0x7F00_0000);
    NarrowWiden(0x3F00_0000);
    hide Narrow, Widen;
  }

  lemma PowerUnpacked()
    ensures Unpack(BINARY32, 0x7F00_0000) == Dyadic(0x80_0000, 104)
  {
    Pow2Values();
    ShiftIsProduct(0xFE, 23);
    JoinBits(0xFE, 0, 23);
  }

  lemma PowerShifted()
    ensures BitLen(0x80_0000) == 24 && Shift(0x80_0000, 29) == BINARY64.hidden
  {
    Pow2Values();
    BitLenBound(0x80_0000, 24);
    BitLenBound(0x80_0000, 23);
    ShiftPow2(23, 29);
    hide BitLen, Shift, Pow2;
  }

  lemma WidePowers()
    ensures Unpack(BINARY64, Magnitude(BINARY64, HIGH_POWER)) == Dyadic(BINARY64.hidden, 75)
    ensures Unpack(BINARY64, Magnitude(BINARY64, LOW_POWER)) == Dyadic(BINARY64.hidden, 75)
    ensures Negative(BINARY64, LOW_POWER) && !Negative(BINARY64, HIGH_POWER)
  {
    PowerUnpacked();
    PowerShifted();
    RoundNormal(Dyadic(0x80_0000, 104));
    hide Unpack, Round, Shift, BitLen;
  }

  lemma PowerPlaced(place: nat)
    requires place <= 100
    ensures Round(BINARY64, Dyadic(BINARY64.hidden, place)) == Shift(place + 1074, 52) + BINARY64.hidden
    ensures Unpack(BINARY64, Round(BINARY64, Dyadic(BINARY64.hidden, place))) == Dyadic(BINARY64.hidden, place)
    ensures Round(BINARY64, Dyadic(BINARY64.hidden, place)) < BINARY64.signBit
  {
    HiddenPlace(place);
    hide LastPlace, Unpack, Significand;
    NormalPlace(place + 1074, BINARY64.hidden);
    hide Shift;
  }

  lemma HiddenPlace(place: nat)
    ensures LastPlace(BINARY64, Dyadic(BINARY64.hidden, place)) == place
    ensures Significand(Dyadic(BINARY64.hidden, place), place) == BINARY64.hidden
  {
    Pow2Values();
    BitLenBound(BINARY64.hidden, 53);
    BitLenBound(BINARY64.hidden, 52);
    assert BitLen(BINARY64.hidden) == 53;
    hide BitLen, Pow2;
  }

  lemma TwicePower(x: F64)
    requires Unpack(BINARY64, Magnitude(BINARY64, x)) == Dyadic(BINARY64.hidden, 75) && !Negative(BINARY64, x)
    ensures Unpack(BINARY64, Magnitude(BINARY64, Twice(x))) == Dyadic(BINARY64.hidden, 76)
    ensures !Negative(BINARY64, Twice(x))
  {
    PowerPlaced(76);
    hide Shift, Unpack, Round;
  }

  /** Twice 2^127 less -2^127 is 3 * 2^127. */
  lemma PowersDifference(x: F64, y: F64)
    requires Unpack(BINARY64, Magnitude(BINARY64, x)) == Dyadic(BINARY64.hidden, 76) && !Negative(BINARY64, x)
    requires Unpack(BINARY64, Magnitude(BINARY64, y)) == Dyadic(BINARY64.hidden, 75) && Negative(BINARY64, y)
    ensures Magnitude(BINARY64, Minus(x, y)) == Round(BINARY64, Dyadic(3 * BINARY64.hidden, 75))
  {
    assert CommonPlace(x, y) == 75;
    assert Shift(BINARY64.hidden, 0) == BINARY64.hidden && Shift(BINARY64.hidden, 1) == 2 * BINARY64.hidden;
    assert SignedAt(x, 75) == 2 * BINARY64.hidden && SignedAt(y, 75) == 0 - BINARY64.hidden;
    assert DifferenceAt(x, y, 75) == 3 * BINARY64.hidden;
    hide Unpack, Round, Shift, CommonPlace, DifferenceAt;
  }

  lemma PowersExtrapolate()
    ensures Magnitude(BINARY64, Extrapolated(LOW_POWER, HIGH_POWER)) == Round(BINARY64, Dyadic(3 * BINARY64.hidden, 75))
  {
    WidePowers();
    TwicePower(HIGH_POWER);
    PowersDifference(Twice(HIGH_POWER), LOW_POWER);
    hide Twice, Minus, Unpack, Round, Magnitude, Widen;
  }

  lemma PowersBeyondEnd()
    ensures Magnitude(BINARY64, Extrapolated(LOW_POWER, HIGH_POWER)) >= NARROW_END
  {
    FormatsValid();
    PowersExtrapolate();
    NarrowEndUnpacked();
    RoundUnpacked(BINARY64, NARROW_END);
    RoundMonotone(BINARY64, 0x1F_FFFF_F000_0000, 3 * BINARY64.hidden, 75);
    hide Round, Unpack, Extrapolated;
  }

  lemma PowersUnwritten()
    ensures !Writes(Some(Num(HIGH_POWER)), Num(HALF), Some(Num(LOW_POWER)))
  {
    hide *;
    PowersExact();
    PowersBeyondEnd();
    WidePowers();
    LargeIsUnsafe(HIGH_POWER);
    NoIntegerDelta(HIGH_POWER, HALF);
    ExtrapolationWrites(LOW_POWER, HIGH_POWER, HALF);
    PowersDiffer();
    NumberStepWrites(HIGH_POWER, HALF, Some(Num(LOW_POWER)));
  }

  lemma NoIntegerDelta(previous: F64, next: F64)
    requires !SafeInteger(previous)
    ensures !IntegerDelta(previous, next)
  {
    hide SafeInteger;
  }

  lemma PowersDiffer()
    ensures HIGH_POWER != HALF
  {
    NarrowWiden(0x7F00_0000);
    NarrowWiden(0x3F00_0000);
    hide Narrow, Widen;
  }

  lemma NumberStepWrites(previous: F64, next: F64, before: Option<Value>)
    requires previous != next
    ensures Writes(Some(Num(previous)), Num(next), before) == NumberNarrows(previous, next, before)
  {
    hide NumberNarrows;
  }

  lemma PowersAccepted()
    ensures AllWellFormed(Powers()) && EncodeChunk(Powers(), 0).Ok?
  {
    var ticks := Powers();
    PowersExact();
    NumbersAccepted(LOW_POWER, HIGH_POWER, HALF);
    hide AllWellFormed, EncodeChunk, Widen;
  }

  lemma NumbersAccepted(a: F64, b: F64, c: F64)
    requires Finite(a) && Finite(b) && Finite(c)
    ensures AllWellFormed([Num(a), Num(b), Num(c)]) && EncodeChunk([Num(a), Num(b), Num(c)], 0).Ok?
  {
    var ticks := [Num(a), Num(b), Num(c)];
    assert forall i :: 0 <= i < |ticks| ==> WellFormed(ticks[i]) && WriterRange.SmallValue(ticks[i]);
    NumberCallsFew(a);
    NumberDeltaCallsFew(a, b, None);
    NumberDeltaCallsFew(b, c, Some(Num(a)));
    hide ValueOps, DeltaOps, WellFormed, EncodeChunk, Finite;
    ReaderDifferences.ThreeTicks(ticks, 0);
    WriterRange.EncoderAccepts(ticks, 0);
  }

  lemma NumberCallsFew(x: F64)
    requires Finite(x)
    ensures WellFormed(Num(x)) && |ValueOps(Num(x))| <= 3
  {
    hide SafeInteger, ExactF32;
  }

  lemma NumberDeltaCallsFew(previous: F64, next: F64, before: Option<Value>)
    requires Finite(next)
    ensures WellFormed(Num(next)) && |DeltaOps(Some(Num(previous)), Num(next), before)| <= 3
  {
    hide SafeInteger, ExactF32, IntegerDelta;
  }

  /** Three ticks inside the binary32 range which the one-stage encoder writes and on which the
      Python encoder raises. */
  lemma PowersRaise()
    ensures AllWellFormed(Powers()) && EncodeChunk(Powers(), 0).Ok?
    ensures ExactF32(LOW_POWER) && ExactF32(HIGH_POWER) && ExactF32(HALF)
    ensures Encode(Powers(), 0) == None
  {
    hide *;
    PowersExact();
    PowersAccepted();
    PowersUnwritten();
    PowersItems();
    ReaderDifferences.ThirdUnwritten(Powers());
    EncodeAgrees(Powers(), 0);
  }

  lemma PowersItems()
    ensures |Powers()| == 3 && Powers()[0] == Num(LOW_POWER) && Powers()[1] == Num(HIGH_POWER)
    ensures Powers()[2] == Num(HALF)
  {
  }
}
