/** The four float32 predictors, their residuals, and the choice of the cheapest encoding. */
module Residuals {
  import opened Base
  import opened Floats
  import opened FloatOrder
  import opened Wire
  import opened Packing

  // ----- signed differences on wrapped 32-bit patterns -----

  function SignedDifference(previous: U32, next: U32): int {
    var d := next as int - previous as int;
    if d > 0x7FFF_FFFF then d - 0x1_0000_0000
    else if d < -0x8000_0000 then d + 0x1_0000_0000
    else d
  }

  function ZigZag(d: int): nat {
    if d >= 0 then 2 * d else -2 * d - 1
  }

  function UnZigZag(n: nat): int {
    if n % 2 == 0 then n / 2 else -((n + 1) / 2)
  }

  lemma UnZigZagInverts(d: int)
    ensures UnZigZag(ZigZag(d)) == d
  {
  }

  // ----- predictors -----

  const MODE_XOR: nat := 0
  const MODE_DIFFERENCE: nat := 1
  const MODE_BIT_PREDICTION: nat := 2
  const MODE_VALUE_PREDICTION: nat := 3

  type Mode = m: nat | m < 4

  function PredictBits(before: F64, previous: F64): U32 {
    (2 * Narrow(previous) - Narrow(before)) % 0x1_0000_0000
  }

  /** The value two ticks extrapolate to. */
  function Extrapolated(before: F64, previous: F64): F64 {
    Minus(Twice(previous), before)
  }

  /** The number does not overflow the binary32 range when it is narrowed. */
  predicate Narrowable(x: F64) {
    Finite32(Narrow(x))
  }

  function PredictValueBits(before: F64, previous: F64): U32 {
    Narrow(Extrapolated(before, previous))
  }

  /** What the residual is taken against. */
  function Prediction(mode: Mode, before: F64, previous: F64): U32 {
    if mode == MODE_BIT_PREDICTION then PredictBits(before, previous)
    else if mode == MODE_VALUE_PREDICTION then PredictValueBits(before, previous)
    else Narrow(previous)
  }

  function ResidualFrom(mode: Mode, prediction: U32, next: U32): nat {
    if mode == MODE_XOR then Xor(prediction, next) else ZigZag(SignedDifference(prediction, next))
  }

  function Residual(mode: Mode, before: F64, previous: F64, next: F64): nat {
    ResidualFrom(mode, Prediction(mode, before, previous), Narrow(next))
  }

  lemma ResidualBound(mode: Mode, prediction: U32, next: U32)
    ensures ResidualFrom(mode, prediction, next) < 0x1_0000_0000
  {
    if mode == MODE_XOR {
      Pow2Values();
      XorBound(prediction, next, 32);
    }
  }

  /** The reader's step: undo the residual modulo 2^32, rejecting what no writer produces. */
  function Patch(mode: Mode, prediction: U32, residual: nat): Result<U32> {
    if mode == MODE_XOR then
      if residual >= 0x1_0000_0000 then Err(BadDelta)
      else
        XorBound32(prediction, residual);
        Ok(Xor(prediction, residual))
    else
      var d := UnZigZag(residual);
      if d < -0x8000_0000 || d > 0x7FFF_FFFF then Err(BadDelta)
      else Ok((prediction + d) % 0x1_0000_0000)
  }

  lemma XorBound32(a: U32, b: U32)
    ensures Xor(a, b) < 0x1_0000_0000
  {
    Pow2Values();
    XorBound(a, b, 32);
  }

  /** Every mode is invertible whatever the prediction, by wrapping in 32 bits. */
  lemma PatchInverts(mode: Mode, prediction: U32, next: U32)
    ensures Patch(mode, prediction, ResidualFrom(mode, prediction, next)) == Ok(next)
  {
    ResidualBound(mode, prediction, next);
    if mode == MODE_XOR {
      XorCancels(prediction, next);
    } else {
      UnZigZagInverts(SignedDifference(prediction, next));
    }
  }

  // ----- residuals of an array -----

  function ResidualsOf(mode: Mode, before: seq<F64>, previous: seq<F64>, next: seq<F64>): (r: seq<nat>)
    requires |before| == |previous| == |next|
    ensures |r| == |next|
    ensures forall i :: 0 <= i < |r| ==> r[i] == Residual(mode, before[i], previous[i], next[i])
  {
    seq(|next|, i requires 0 <= i < |next| => Residual(mode, before[i], previous[i], next[i]))
  }

  function VaruintBytesTotal(values: seq<nat>): nat {
    if values == [] then 0 else VaruintLength(values[0]) + VaruintBytesTotal(values[1..])
  }

  function WidestBits(values: seq<nat>): nat {
    if values == [] then 0 else Max(BitLen(values[0]), WidestBits(values[1..]))
  }

  lemma {:induction false} WidestFits(values: seq<nat>)
    ensures Fits(values, WidestBits(values))
  {
    if values != [] {
      WidestFits(values[1..]);
      forall i | 0 <= i < |values| ensures values[i] < Pow2(WidestBits(values)) {
        if i == 0 {
          BitLenBound(values[0], WidestBits(values));
        } else {
          assert values[i] == values[1..][i - 1];
          Pow2Monotone(WidestBits(values[1..]), WidestBits(values));
        }
      }
    }
  }

  lemma {:induction false} WidestBound(values: seq<nat>, k: nat)
    requires Fits(values, k)
    ensures WidestBits(values) <= k
  {
    if values != [] {
      WidestBound(values[1..], k);
      BitLenBound(values[0], k);
    }
  }

  // ----- candidates -----

  datatype Candidate = Candidate(mode: Mode, packed: bool, width: nat, bytes: nat)

  function CandidateFor(mode: Mode, residuals: seq<nat>): Candidate {
    var varint := VaruintBytesTotal(residuals);
    var width := WidestBits(residuals);
    var packed := 2 + PackedLength(|residuals|, width);
    if 4 * packed <= 3 * varint then Candidate(mode, true, width, packed)
    else Candidate(mode, false, width, varint)
  }

  /** The cost comparison of the reference, on the exact numbers. */
  predicate AtMostThreeQuarters(packed: nat, varint: nat) {
    packed as real <= varint as real * 0.75
  }

  lemma ThreeQuarterRule(packed: nat, varint: nat)
    ensures 4 * packed <= 3 * varint <==> AtMostThreeQuarters(packed, varint)
  {
  }

  /** Below 2^53 / 3 bytes the binary64 product varint * 0.75 is exact, so comparing with it is
      comparing with the exact number. */
  lemma ThreeQuartersExact(packed: nat, varint: nat)
    requires 0 < 3 * varint < 0x20_0000_0000_0000
    ensures
      var product := Round(BINARY64, Dyadic(3 * varint, -2));
      UnitsOf(packed) <= Units(product) <==> AtMostThreeQuarters(packed, varint)
  {
    hide *;
    ProductUnits(varint);
    PackedUnits(packed);
    ShiftMonotone(4 * packed, 3 * varint, 1072);
    ThreeQuarterRule(packed, varint);
  }

  lemma ProductUnits(varint: nat)
    requires 0 < 3 * varint < 0x20_0000_0000_0000
    ensures Units(Round(BINARY64, Dyadic(3 * varint, -2))) == Shift(3 * varint, 1072)
  {
    RoundShort(3 * varint, -2);
    hide Round, Steps, Shift;
  }

  lemma PackedUnits(packed: nat)
    ensures UnitsOf(packed) == Shift(4 * packed, 1072)
  {
    ShiftShift(packed, 2, 1072);
    assert Shift(packed, 1) == 2 * packed && Shift(packed, 2) == 2 * Shift(packed, 1);
  }

  /** The candidates in the order they are offered. */
  function Candidates(offered: nat, before: seq<F64>, previous: seq<F64>, next: seq<F64>): (c: seq<Candidate>)
    requires offered <= 4 && |before| == |previous| == |next|
    ensures |c| == offered
    ensures forall m :: 0 <= m < offered ==> c[m] == CandidateFor(m, ResidualsOf(m, before, previous, next))
  {
    seq(offered, m requires 0 <= m < offered => CandidateFor(m, ResidualsOf(m, before, previous, next)))
  }

  /** The first cheapest candidate. */
  function Cheapest(candidates: seq<Candidate>): (best: Candidate)
    requires candidates != []
    ensures best in candidates
  {
    var last := candidates[|candidates| - 1];
    if |candidates| == 1 then last
    else
      var best := Cheapest(candidates[..|candidates| - 1]);
      if last.bytes < best.bytes then last else best
  }

  /** Nothing offered is cheaper, and everything offered earlier is dearer. */
  ghost predicate FirstMinimum(candidates: seq<Candidate>, i: nat) {
    && i < |candidates|
    && (forall j :: 0 <= j < |candidates| ==> candidates[i].bytes <= candidates[j].bytes)
    && (forall j :: 0 <= j < i ==> candidates[i].bytes < candidates[j].bytes)
  }

  /** The selection is minimal, and an earlier candidate wins every tie. */
  lemma {:induction false} CheapestIsFirstMinimum(candidates: seq<Candidate>) returns (i: nat)
    requires candidates != []
    ensures FirstMinimum(candidates, i) && candidates[i] == Cheapest(candidates)
  {
    var n := |candidates| - 1;
    if n == 0 {
      i := 0;
    } else {
      var front := candidates[..n];
      var k := CheapestIsFirstMinimum(front);
      assert forall j :: 0 <= j < n ==> candidates[j] == front[j];
      i := if candidates[n].bytes < front[k].bytes then n else k;
    }
  }

  // ----- what the writer calls for a selected candidate -----

  const DENSE_FLOAT32_DIFFERENCE: byte := 8
  const DENSE_FLOAT32_XOR: byte := 10
  const DENSE_FLOAT32_BIT_PREDICTION: byte := 11
  const DENSE_FLOAT32_VALUE_PREDICTION: byte := 12
  const DENSE_FLOAT32_BITPACKED: byte := 15

  function DenseTag(mode: Mode): byte {
    if mode == MODE_XOR then DENSE_FLOAT32_XOR
    else if mode == MODE_DIFFERENCE then DENSE_FLOAT32_DIFFERENCE
    else if mode == MODE_BIT_PREDICTION then DENSE_FLOAT32_BIT_PREDICTION
    else DENSE_FLOAT32_VALUE_PREDICTION
  }

  function KindOf(c: Candidate): byte {
    if c.packed then DENSE_FLOAT32_BITPACKED else DenseTag(c.mode)
  }

  function VaruintOps(values: seq<nat>): seq<Op> {
    if values == [] then [] else [Varuint(values[0])] + VaruintOps(values[1..])
  }

  function PayloadOps(c: Candidate, residuals: seq<nat>): seq<Op>
    requires c.width < 256
  {
    if c.packed then [Byte(c.mode), Byte(c.width), Raw(PackedBytes(residuals, c.width))]
    else VaruintOps(residuals)
  }

  lemma {:induction false} VaruintOpsLength(table: seq<string>, values: seq<nat>)
    ensures |Emit(table, VaruintOps(values))| == VaruintBytesTotal(values)
    ensures Table(table, VaruintOps(values)) == table
  {
    if values != [] {
      VaruintOpsLength(table, values[1..]);
      VaruintLengthExact(values[0]);
      Front(table, Varuint(values[0]), VaruintOps(values[1..]));
    }
  }

  /** The recorded cost is the number of payload bytes written after the tag. */
  lemma CandidateCostExact(table: seq<string>, mode: Mode, residuals: seq<nat>)
    requires Fits(residuals, 32)
    ensures
      var c := CandidateFor(mode, residuals);
      c.width <= 32 && |Emit(table, PayloadOps(c, residuals))| == c.bytes
  {
    WidestBound(residuals, 32);
    var c := CandidateFor(mode, residuals);
    if c.packed {
      var raw := Raw(PackedBytes(residuals, c.width));
      assert PayloadOps(c, residuals) == [Byte(c.mode)] + ([Byte(c.width)] + [raw]);
      Front(table, Byte(c.mode), [Byte(c.width)] + [raw]);
      Front(table, Byte(c.width), [raw]);
      One(table, raw);
    } else {
      VaruintOpsLength(table, residuals);
    }
  }

  lemma ResidualsFit(mode: Mode, before: seq<F64>, previous: seq<F64>, next: seq<F64>)
    requires |before| == |previous| == |next|
    ensures Fits(ResidualsOf(mode, before, previous, next), 32)
  {
    Pow2Values();
    forall i | 0 <= i < |next| ensures ResidualsOf(mode, before, previous, next)[i] < Pow2(32) {
      ResidualBound(mode, Prediction(mode, before[i], previous[i]), Narrow(next[i]));
    }
  }

  /** The selection is the candidate costed for its own mode, and that mode was offered. */
  lemma CheapestFacts(offered: nat, before: seq<F64>, previous: seq<F64>, next: seq<F64>)
    requires 0 < offered <= 4 && |before| == |previous| == |next|
    ensures
      var c := Cheapest(Candidates(offered, before, previous, next));
      && c.mode < offered
      && c == CandidateFor(c.mode, ResidualsOf(c.mode, before, previous, next))
  {
    var candidates := Candidates(offered, before, previous, next);
    var m :| 0 <= m < offered && candidates[m] == Cheapest(candidates);
    assert candidates[m].mode == m;
  }

  lemma CandidateWidth(mode: Mode, residuals: seq<nat>)
    requires Fits(residuals, 32)
    ensures CandidateFor(mode, residuals).width <= 32
  {
    WidestBound(residuals, 32);
  }
}
