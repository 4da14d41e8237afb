/** JSON documents with their numbers as written, and what is left of a number once it has been
    rounded to binary64. */
module WrittenNumbers {
  import opened Base
  import opened Floats
  import opened FloatOrder
  import Values

  const WORD_MAX: nat := 0xFFFF_FFFF_FFFF_FFFF
  const WORD_MIN: int := -0x8000_0000_0000_0000

  /** A number as the document writes it: digits only that fit an unsigned or a signed machine
      word, or anything else, as the nearest binary64 number. */
  datatype Written = Unsigned(n: nat) | Signed(i: int) | Decimal(bits: F64)

  datatype Json =
    | Null
    | Bool(b: bool)
    | Num(number: Written)
    | Str(text: string)
    | Arr(items: seq<Json>)
    | Obj(keys: seq<string>, vals: map<string, Json>)

  predicate InRange(w: Written) {
    match w
    case Unsigned(n) => n <= WORD_MAX
    case Signed(i) => WORD_MIN <= i < 0
    case Decimal(bits) => Finite(bits)
  }

  ghost predicate WellFormed(j: Json) {
    match j
    case Num(number) => InRange(number)
    case Arr(items) => forall i :: 0 <= i < |items| ==> WellFormed(items[i])
    case Obj(keys, vals) =>
      && Values.NoDuplicates(keys) && (forall k :: k in keys <==> k in vals)
      && forall k :: k in vals ==> WellFormed(vals[k])
    case _ => true
  }

  /** The number itself, in units of the smallest subnormal binary64 number. */
  function Exactly(w: Written): int {
    match w
    case Unsigned(n) => UnitsOf(n)
    case Signed(i) => UnitsOf(i)
    case Decimal(bits) => Units(bits)
  }

  /** The number read as a binary64 one. */
  function AsNumber(w: Written): F64 {
    match w
    case Unsigned(n) => FromInt(n)
    case Signed(i) => FromInt(i)
    case Decimal(bits) => bits
  }

  /** The number read as a count: only digits that fit an unsigned word. */
  function AsCount(w: Written): Option<nat> {
    if w.Unsigned? then Some(w.n) else None
  }

  predicate Whole(w: Written) {
    w.Decimal? ==> Integral(w.bits)
  }

  function OfInt(n: int): Written {
    if n >= 0 then Unsigned(n) else Signed(n)
  }

  // ----- the order of written numbers -----

  /** Rounding an exact value, in units. */
  function Rounded(units: int): int {
    Floats.Signed(units < 0, Steps(Round(BINARY64, Dyadic(Abs(units), BINARY64.emin))))
  }

  lemma UnitsOfOrder(a: int, b: int)
    ensures UnitsOf(a) <= UnitsOf(b) <==> a <= b
    ensures UnitsOf(0) == 0
  {
    var k := -BINARY64.emin;
    ShiftMonotone(Abs(a), Abs(b), k);
    ShiftMonotone(Abs(b), Abs(a), k);
    ShiftMonotone(0, Abs(a), k);
    ShiftMonotone(0, Abs(b), k);
    ShiftMonotone(Abs(a), 0, k);
    ShiftMonotone(Abs(b), 0, k);
    ShiftIsProduct(0, k);
    hide Shift;
  }

  lemma StepsOfZero()
    ensures Steps(0) == 0 && Round(BINARY64, Dyadic(0, BINARY64.emin)) == 0
  {
    UnpackZero(BINARY64);
    ShiftIsProduct(0, Unpack(BINARY64, 0).e - BINARY64.emin);
  }

  lemma RoundedMonotone(a: int, b: int)
    requires a <= b
    ensures Rounded(a) <= Rounded(b)
  {
    hide Round, Steps;
    var p, q := Round(BINARY64, Dyadic(Abs(a), BINARY64.emin)), Round(BINARY64, Dyadic(Abs(b), BINARY64.emin));
    FormatsValid();
    StepsOfZero();
    StepsMonotone(0, p);
    StepsMonotone(0, q);
    if a >= 0 {
      RoundMonotone(BINARY64, a, b, BINARY64.emin);
      StepsMonotone(p, q);
    } else if b < 0 {
      RoundMonotone(BINARY64, -b, -a, BINARY64.emin);
      StepsMonotone(q, p);
    }
  }

  lemma IntRounded(n: int)
    ensures Units(FromInt(n)) == Rounded(UnitsOf(n))
  {
    hide Round, Steps, Shift, FromInt;
    FromIntParts(n);
    RoundSameValue(BINARY64, Dyadic(Abs(n), 0), Dyadic(Shift(Abs(n), -BINARY64.emin), BINARY64.emin));
    StepsOfZero();
    UnitsOfSign(n);
  }

  lemma UnitsOfSign(n: int)
    ensures UnitsOf(n) < 0 <==> n < 0
    ensures Abs(UnitsOf(n)) == Shift(Abs(n), -BINARY64.emin)
  {
    if n < 0 {
      ShiftPositive(Abs(n), -BINARY64.emin);
    }
    hide Shift;
  }

  lemma NumberRounded(bits: F64)
    requires Finite(bits)
    ensures Units(bits) == Rounded(Units(bits))
  {
    RoundSteps(Magnitude(BINARY64, bits));
    StepsOfZero();
    hide Round, Steps;
  }

  /** Reading a number as a binary64 one rounds its exact value. */
  lemma ReadRounds(w: Written)
    requires InRange(w)
    ensures Units(AsNumber(w)) == Rounded(Exactly(w))
  {
    match w
    case Unsigned(n) => IntRounded(n);
    case Signed(i) => IntRounded(i);
    case Decimal(bits) => NumberRounded(bits);
  }

  // ----- the nearest integers -----

  /** The greatest integer whose value is at most the given units. */
  function FloorOf(units: int): int {
    if units >= 0 then Unshift(units, -BINARY64.emin) else -1 - Unshift(-units - 1, -BINARY64.emin)
  }

  lemma FloorExact(units: int)
    ensures UnitsOf(FloorOf(units)) <= units < UnitsOf(FloorOf(units) + 1)
  {
    var k := -BINARY64.emin;
    var m: nat := if units >= 0 then units else -units - 1;
    SplitBits(m, k);
    ShiftAdd(Unshift(m, k), 1, k);
    ShiftPow2(0, k);
    ShiftIsProduct(0, k);
    hide Shift, Unshift, Low, Pow2;
  }

  /** The least machine integer above a number, and the greatest one below it. */
  function NextAbove(w: Written): int {
    Max(FloorOf(Exactly(w)) + 1, WORD_MIN)
  }

  function NextBelow(w: Written): int {
    var below := -FloorOf(-Exactly(w)) - 1;
    if below <= WORD_MAX then below else WORD_MAX
  }

  lemma UnitsOfNegated(n: int)
    ensures UnitsOf(-n) == -UnitsOf(n)
  {
    ShiftIsProduct(0, -BINARY64.emin);
    hide Shift;
  }

  lemma NextAboveExact(w: Written, n: int)
    requires WORD_MIN <= n
    ensures Exactly(w) < UnitsOf(n) <==> NextAbove(w) <= n
  {
    var f := FloorOf(Exactly(w));
    FloorExact(Exactly(w));
    hide FloorOf, UnitsOf, Exactly;
    UnitsOfOrder(f + 1, n);
    UnitsOfOrder(n, f);
  }

  lemma NextBelowExact(w: Written, n: int)
    requires n <= WORD_MAX
    ensures UnitsOf(n) < Exactly(w) <==> n <= NextBelow(w)
  {
    var f := FloorOf(-Exactly(w));
    FloorExact(-Exactly(w));
    UnitsOfNegated(n);
    hide FloorOf, UnitsOf, Exactly;
    UnitsOfOrder(f + 1, -n);
    UnitsOfOrder(-n, f);
  }

  // ----- numeric limits -----

  /** Rounding has not lowered the limit, and keeps the next smaller machine integer below it. */
  predicate MinimumRead(limit: Option<Written>) {
    limit.Some? ==>
      var w := limit.value;
      && Exactly(w) <= Units(AsNumber(w))
      && (NextBelow(w) >= WORD_MIN ==> Units(FromInt(NextBelow(w))) < Units(AsNumber(w)))
  }

  predicate MaximumRead(limit: Option<Written>) {
    limit.Some? ==>
      var w := limit.value;
      && Units(AsNumber(w)) <= Exactly(w)
      && (NextAbove(w) <= WORD_MAX ==> Units(AsNumber(w)) < Units(FromInt(NextAbove(w))))
  }

  lemma OfIntFacts(n: int)
    requires WORD_MIN <= n <= WORD_MAX
    ensures InRange(OfInt(n)) && Exactly(OfInt(n)) == UnitsOf(n) && AsNumber(OfInt(n)) == FromInt(n)
  {
  }

  lemma FarFinite()
    ensures Shift(1, 64) > WORD_MAX && Round(BINARY64, Dyadic(Shift(1, 64), 0)) < BINARY64.infinity
  {
    hide *;
    WordPower();
    RoundSameValue(BINARY64, Dyadic(1, 64), Dyadic(Shift(1, 64), 0));
    RoundNormal(Dyadic(1, 64));
  }

  lemma WordPower()
    ensures Shift(1, 64) > WORD_MAX && BINARY64.precision > 0
  {
    ShiftPow2(0, 64);
    Pow2Values();
  }

  lemma FromIntFinite(n: nat)
    requires n <= WORD_MAX
    ensures Finite(FromInt(n)) && Finite(FromInt(0 - n))
  {
    hide Round, Shift;
    FormatsValid();
    FarFinite();
    RoundMonotone(BINARY64, n, Shift(1, 64), 0);
  }

  lemma NumberFinite(w: Written)
    requires InRange(w)
    ensures Finite(AsNumber(w))
  {
    match w
    case Unsigned(n) => FromIntFinite(n);
    case Signed(i) => FromIntFinite(0 - i);
    case Decimal(_) =>
  }

  /** The comparison of a number with a minimum, both rounded. */
  predicate MinimumAgrees(w: Written, x: Written) {
    AtMost(AsNumber(w), AsNumber(x)) <==> Exactly(w) <= Exactly(x)
  }

  predicate MaximumAgrees(w: Written, x: Written) {
    AtMost(AsNumber(x), AsNumber(w)) <==> Exactly(x) <= Exactly(w)
  }

  /** Where the exact numbers are in order, so are the rounded ones. */
  lemma RoundedStay(a: Written, b: Written)
    requires InRange(a) && InRange(b) && Exactly(a) <= Exactly(b)
    ensures AtMost(AsNumber(a), AsNumber(b))
  {
    ReadRounds(a);
    ReadRounds(b);
    RoundedMonotone(Exactly(a), Exactly(b));
    hide Rounded, Units, Exactly, AsNumber;
  }

  function IntOf(w: Written): int
    requires !w.Decimal?
  {
    if w.Unsigned? then w.n else w.i
  }

  lemma MinimumReadAgrees(w: Written, x: Written)
    requires InRange(w) && InRange(x) && MinimumRead(Some(w))
    ensures MinimumAgrees(w, x)
  {
    if Exactly(w) <= Exactly(x) {
      RoundedStay(w, x);
    } else if !x.Decimal? {
      var c := NextBelow(w);
      NextBelowExact(w, IntOf(x));
      NextBelowExact(w, c);
      OfIntFacts(c);
      hide Units, UnitsOf, FromInt, NextBelow;
      assert IntOf(x) <= c;
      UnitsOfOrder(IntOf(x), c);
      RoundedStay(x, OfInt(c));
    }
  }

  lemma MaximumReadAgrees(w: Written, x: Written)
    requires InRange(w) && InRange(x) && MaximumRead(Some(w))
    ensures MaximumAgrees(w, x)
  {
    if Exactly(x) <= Exactly(w) {
      RoundedStay(x, w);
    } else if !x.Decimal? {
      var c := NextAbove(w);
      NextAboveExact(w, IntOf(x));
      NextAboveExact(w, c);
      OfIntFacts(c);
      hide Units, UnitsOf, FromInt, NextAbove;
      assert c <= IntOf(x);
      UnitsOfOrder(c, IntOf(x));
      RoundedStay(OfInt(c), x);
    }
  }

  /** A minimum is read for what it says, on every written number, exactly when rounding neither
      lowers it nor lifts the next smaller machine integer to it. */
  lemma MinimumExact(w: Written)
    requires InRange(w)
    ensures (forall x :: InRange(x) ==> MinimumAgrees(w, x)) <==> MinimumRead(Some(w))
  {
    if MinimumRead(Some(w)) {
      hide MinimumRead, MinimumAgrees, InRange;
      forall x | InRange(x) ensures MinimumAgrees(w, x) {
        MinimumReadAgrees(w, x);
      }
    } else {
      NumberFinite(w);
      NextBelowExact(w, NextBelow(w));
      hide Units, UnitsOf, FromInt, FloorOf;
      if Exactly(w) > Units(AsNumber(w)) {
        assert InRange(Decimal(AsNumber(w))) && !MinimumAgrees(w, Decimal(AsNumber(w)));
      } else {
        OfIntFacts(NextBelow(w));
        assert !MinimumAgrees(w, OfInt(NextBelow(w)));
      }
    }
  }

  /** A maximum is read for what it says, on every written number, exactly when rounding neither
      raises it nor brings the next larger machine integer down to it. */
  lemma MaximumExact(w: Written)
    requires InRange(w)
    ensures (forall x :: InRange(x) ==> MaximumAgrees(w, x)) <==> MaximumRead(Some(w))
  {
    if MaximumRead(Some(w)) {
      hide MaximumRead, MaximumAgrees, InRange;
      forall x | InRange(x) ensures MaximumAgrees(w, x) {
        MaximumReadAgrees(w, x);
      }
    } else {
      NumberFinite(w);
      NextAboveExact(w, NextAbove(w));
      hide Units, UnitsOf, FromInt, FloorOf;
      if Units(AsNumber(w)) > Exactly(w) {
        assert InRange(Decimal(AsNumber(w))) && !MaximumAgrees(w, Decimal(AsNumber(w)));
      } else {
        OfIntFacts(NextAbove(w));
        assert !MaximumAgrees(w, OfInt(NextAbove(w)));
      }
    }
  }

  // ----- small limits -----

  const EXACT_MAX: int := 0x20_0000_0000_0000

  /** Integers up to 2^53 in magnitude are exact. */
  lemma SmallIntExact(n: int)
    requires -EXACT_MAX <= n <= EXACT_MAX
    ensures Units(FromInt(n)) == UnitsOf(n)
  {
    hide Round, Steps, Shift;
    FromIntParts(n);
    SmallSteps(Abs(n));
  }

  lemma SmallSteps(m: nat)
    requires m <= EXACT_MAX
    ensures Steps(Round(BINARY64, Dyadic(m, 0))) == Shift(m, -BINARY64.emin)
  {
    hide Round, Steps;
    if m == 0 {
      NothingRounded();
      ShiftIsProduct(0, -BINARY64.emin);
    } else if m < EXACT_MAX {
      RoundShort(m, 0);
    } else {
      RoundShort(1, 53);
      LargestExact();
    }
    hide Shift;
  }

  lemma NothingRounded()
    ensures Steps(Round(BINARY64, Dyadic(0, 0))) == 0
  {
    StepsOfZero();
    hide Steps;
  }

  lemma LargestExact()
    ensures Round(BINARY64, Dyadic(EXACT_MAX, 0)) == Round(BINARY64, Dyadic(1, 53))
    ensures Shift(EXACT_MAX, -BINARY64.emin) == Shift(1, 53 - BINARY64.emin)
  {
    ShiftPow2(0, 53);
    Pow2Values();
    ShiftShift(1, 53, -BINARY64.emin);
    hide Round;
    RoundSameValue(BINARY64, Dyadic(1, 53), Dyadic(EXACT_MAX, 0));
  }

  /** Every limit below 2^53 in magnitude is read for what it says. */
  lemma SmallLimitsRead(w: Written)
    requires InRange(w) && UnitsOf(-EXACT_MAX) < Exactly(w) < UnitsOf(EXACT_MAX)
    ensures MinimumRead(Some(w)) && MaximumRead(Some(w))
  {
    SmallNumberExact(w);
    var a, b := NextAbove(w), NextBelow(w);
    NextAboveExact(w, EXACT_MAX);
    NextAboveExact(w, -EXACT_MAX);
    NextAboveExact(w, a);
    NextBelowExact(w, EXACT_MAX);
    NextBelowExact(w, -EXACT_MAX);
    NextBelowExact(w, b);
    hide Units, UnitsOf, FromInt, NextAbove, NextBelow, Exactly, AsNumber;
    SmallIntExact(a);
    SmallIntExact(b);
  }

  lemma SmallNumberExact(w: Written)
    requires InRange(w) && UnitsOf(-EXACT_MAX) < Exactly(w) < UnitsOf(EXACT_MAX)
    ensures Units(AsNumber(w)) == Exactly(w)
  {
    if !w.Decimal? {
      UnitsOfOrder(EXACT_MAX, IntOf(w));
      UnitsOfOrder(IntOf(w), -EXACT_MAX);
      SmallIntExact(IntOf(w));
    }
    hide Units, UnitsOf, FromInt;
  }

  // ----- the first limit that is not -----

  lemma NextIntRounds()
    ensures FromInt(EXACT_MAX + 1) == FromInt(EXACT_MAX)
  {
    LongInt(EXACT_MAX);
    LongInt(EXACT_MAX + 1);
    assert HalfEven(EXACT_MAX, 1) == HalfEven(EXACT_MAX + 1, 1) by {
      assert Unshift(EXACT_MAX, 1) == EXACT_MAX / 2 && Unshift(EXACT_MAX + 1, 1) == EXACT_MAX / 2;
      assert Low(EXACT_MAX, 1) == 0 && Low(EXACT_MAX + 1, 1) == 1;
    }
    hide Round, HalfEven, Shift;
  }

  /** An integer of 54 bits rounds at its last bit. */
  lemma LongInt(n: nat)
    requires EXACT_MAX <= n < 2 * EXACT_MAX
    ensures
      var w := Shift(1075, 52) + HalfEven(n, 1);
      Round(BINARY64, Dyadic(n, 0)) == if w < BINARY64.infinity then w else BINARY64.infinity
  {
    Pow2Values();
    assert Pow2(54) == 2 * Pow2(53);
    BitLenBound(n, 53);
    BitLenBound(n, 54);
    LargeRound(n);
  }

  /** A maximum of 2^53 lets 2^53 + 1 pass once both are rounded; it is not read for what it says. */
  lemma LargeMaximumMisread()
    ensures AtMost(AsNumber(Unsigned(EXACT_MAX + 1)), AsNumber(Unsigned(EXACT_MAX)))
    ensures Exactly(Unsigned(EXACT_MAX)) < Exactly(Unsigned(EXACT_MAX + 1))
    ensures !MaximumRead(Some(Unsigned(EXACT_MAX)))
  {
    NextIntRounds();
    UnitsOfOrder(EXACT_MAX + 1, EXACT_MAX);
    hide Units, UnitsOf, FromInt, MaximumRead;
    assert !MaximumAgrees(Unsigned(EXACT_MAX), Unsigned(EXACT_MAX + 1));
    MaximumExact(Unsigned(EXACT_MAX));
  }

  // ----- whole numbers -----

  lemma LargeIsWhole(mag: nat)
    requires Shift(1075, 52) <= mag <= BINARY64.infinity
    ensures Integral(mag)
  {
    UnshiftMonotone(Shift(1075, 52), mag, 52);
    ShiftExact(1075, 52);
    hide Shift, Unshift, Low;
  }

  lemma LargePlace(m: nat)
    requires BitLen(m) > 53
    ensures Shift(1075, 52) <= Round(BINARY64, Dyadic(m, 0)) <= BINARY64.infinity
  {
    ShiftMonotone(1075, BitLen(m) - 53 + 1074, 52);
    Pow2Values();
    ShiftIsProduct(1075, 52);
    assert LastPlace(BINARY64, Dyadic(m, 0)) == BitLen(m) - 53;
    hide Shift, Significand, BitLen;
  }

  lemma RoundedWhole(m: nat)
    ensures Integral(Round(BINARY64, Dyadic(m, 0)))
  {
    if m == 0 {
      ZeroIsWhole();
    } else if BitLen(m) <= 53 {
      RoundSmallInteger(m);
    } else {
      LargePlace(m);
      hide *;
      LargeIsWhole(Round(BINARY64, Dyadic(m, 0)));
    }
  }

  /** Rounding keeps integers whole. */
  lemma FromIntWhole(n: int)
    ensures Integral(FromInt(n))
  {
    RoundedWhole(Abs(n));
    hide Round, Unpack;
  }

  lemma WholeKept(w: Written)
    ensures Whole(w) <==> Integral(AsNumber(w))
  {
    if !w.Decimal? {
      FromIntWhole(IntOf(w));
    }
    hide Integral, FromInt;
  }
}
