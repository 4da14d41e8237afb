/** The reference writer: the calls made for a value and for a delta between two values. */
module Delta {
  import opened Base
  import opened Floats
  import opened Values
  import opened Wire
  import opened Packing
  import opened Residuals

  const VALUE_NULL: byte := 0
  const VALUE_FALSE: byte := 1
  const VALUE_TRUE: byte := 2
  const VALUE_INTEGER: byte := 3
  const VALUE_FLOAT32: byte := 4
  const VALUE_FLOAT64: byte := 5
  const VALUE_STRING: byte := 6
  const VALUE_ARRAY: byte := 7
  const VALUE_OBJECT: byte := 8

  const DELTA_SAME: byte := 0
  const DELTA_REPLACE: byte := 1
  const DELTA_OBJECT: byte := 2
  const DELTA_ARRAY: byte := 3
  const DELTA_NUMBER_XOR: byte := 4
  const DELTA_FLOAT32_XOR: byte := 5
  const DELTA_INTEGER_DIFFERENCE: byte := 6
  const DELTA_DENSE_ARRAY: byte := 7
  const DELTA_FLOAT32_DIFFERENCE: byte := 9
  const DELTA_FLOAT32_BIT_PREDICTION: byte := 13
  const DELTA_FLOAT32_VALUE_PREDICTION: byte := 14

  // ----- whole values -----

  function NumberOps(bits: F64): seq<Op> {
    if SafeInteger(bits) then
      [Byte(VALUE_INTEGER), Byte(if ToInt(bits) < 0 then 1 else 0), Varuint(Abs(ToInt(bits)))]
    else if ExactF32(bits) && !NegativeZero(bits) then
      [Byte(VALUE_FLOAT32), Raw(LittleEndian(Narrow(bits), 4))]
    else
      [Byte(VALUE_FLOAT64), Raw(LittleEndian(bits, 8))]
  }

  function ValueOps(v: Value): (ops: seq<Op>)
    requires WellFormed(v)
    decreases v, 1, 0
  {
    match v
    case Null => [Byte(VALUE_NULL)]
    case Bool(b) => [Byte(if b then VALUE_TRUE else VALUE_FALSE)]
    case Num(bits) => NumberOps(bits)
    case Str(text) => [Byte(VALUE_STRING), Text(text)]
    case Arr(items) => [Byte(VALUE_ARRAY), Varuint(|items|)] + ItemOps(v, 0)
    case Obj(keys, vals) => [Byte(VALUE_OBJECT), Varuint(|keys|)] + MemberOps(v, 0)
  }

  function ItemOps(v: Value, i: nat): seq<Op>
    requires WellFormed(v) && v.Arr? && i <= |v.items|
    decreases v, 0, |v.items| - i
  {
    if i == |v.items| then [] else ValueOps(v.items[i]) + ItemOps(v, i + 1)
  }

  function MemberOps(v: Value, i: nat): seq<Op>
    requires WellFormed(v) && v.Obj? && i <= |v.keys|
    decreases v, 0, |v.keys| - i
  {
    if i == |v.keys| then []
    else [Text(v.keys[i])] + ValueOps(v.vals[v.keys[i]]) + MemberOps(v, i + 1)
  }

  // ----- numbers -----

  /** Zero bytes at the low end, at most `limit` of them. */
  function ZeroBytes(x: nat, limit: nat): nat
    decreases limit
  {
    if limit == 0 || x % 256 != 0 then 0 else 1 + ZeroBytes(x / 256, limit - 1)
  }

  function SignificantLength(x: nat): nat {
    Max(1, (BitLen(x) + 7) / 8)
  }

  function XorDescriptor(trailing: nat, length: nat): byte
    requires trailing <= 7 && 1 <= length <= 8
  {
    16 * trailing + (length - 1)
  }

  lemma SignificantLengthBound(x: nat)
    requires x < 0x1_0000_0000_0000_0000
    ensures 1 <= SignificantLength(x) <= 8
  {
    Pow2Values();
    BitLenBound(x, 64);
  }

  lemma {:induction false} UnshiftShrinks(x: nat, k: nat)
    ensures Unshift(x, k) <= x
  {
    if k > 0 {
      UnshiftShrinks(x / 2, k - 1);
    }
  }

  lemma {:induction false} ZeroBytesBound(x: nat, limit: nat)
    ensures ZeroBytes(x, limit) <= limit
    decreases limit
  {
    if limit > 0 {
      ZeroBytesBound(x / 256, limit - 1);
    }
  }

  lemma Xor64(a: F64, b: F64)
    ensures Xor(a, b) < 0x1_0000_0000_0000_0000
  {
    Pow2Values();
    XorBound(a, b, 64);
  }

  function NumberXorOps(previous: F64, next: F64): seq<Op> {
    var x := Xor(previous, next);
    var trailing := ZeroBytes(x, 7);
    var significant := Unshift(x, 8 * trailing);
    var length := SignificantLength(significant);
    Xor64(previous, next);
    ZeroBytesBound(x, 7);
    UnshiftShrinks(x, 8 * trailing);
    SignificantLengthBound(significant);
    [Byte(XorDescriptor(trailing, length)), Raw(LittleEndian(significant, length))]
  }

  /** Half of the safe range, rounded down. */
  const HALF_SAFE: nat := SAFE_INTEGER_MAX / 2

  predicate IntegerDelta(previous: F64, next: F64) {
    && SafeInteger(previous)
    && SafeInteger(next)
    && Integral(Minus(next, previous))
    && WholePart(Minus(next, previous)) <= HALF_SAFE
  }

  function ScalarTag(mode: Mode): byte {
    if mode == MODE_XOR then DELTA_FLOAT32_XOR
    else if mode == MODE_DIFFERENCE then DELTA_FLOAT32_DIFFERENCE
    else if mode == MODE_BIT_PREDICTION then DELTA_FLOAT32_BIT_PREDICTION
    else DELTA_FLOAT32_VALUE_PREDICTION
  }

  /** The scalar residuals offered, costed by their varint length. */
  function ScalarCandidates(offered: nat, before: F64, previous: F64, next: F64): (c: seq<Candidate>)
    requires 0 < offered <= 4
    ensures |c| == offered
    ensures forall m :: 0 <= m < offered ==>
      c[m] == Candidate(m, false, 0, VaruintLength(Residual(m, before, previous, next)))
  {
    seq(offered, m requires 0 <= m < offered =>
      Candidate(m, false, 0, VaruintLength(Residual(m, before, previous, next))))
  }

  function ScalarMode(before: Option<F64>, previous: F64, next: F64): Mode {
    if before.Some? && ExactF32(before.value) then
      Cheapest(ScalarCandidates(4, before.value, previous, next)).mode
    else
      Cheapest(ScalarCandidates(2, previous, previous, next)).mode
  }

  function ScalarHistory(before: Option<F64>, previous: F64): F64 {
    if before.Some? && ExactF32(before.value) then before.value else previous
  }

  function NumberDeltaOps(previous: F64, next: F64, before: Option<F64>): seq<Op> {
    if IntegerDelta(previous, next) then
      [Byte(DELTA_INTEGER_DIFFERENCE), Varuint(ZigZag(ToInt(Minus(next, previous))))]
    else if ExactF32(previous) && ExactF32(next) then
      var mode := ScalarMode(before, previous, next);
      [Byte(ScalarTag(mode)), Varuint(Residual(mode, ScalarHistory(before, previous), previous, next))]
    else
      [Byte(DELTA_NUMBER_XOR)] + NumberXorOps(previous, next)
  }

  // ----- arrays of float32 numbers -----

  predicate FloatArrays(previous: Value, next: Value) {
    && ExactArray(previous)
    && ExactArray(next)
    && |previous.items| == |next.items| > 0
  }

  /** The tick before last offers its predictions when it has the same shape. */
  predicate FloatHistory(before: Option<Value>, count: nat) {
    before.Some? && ExactArray(before.value) && |before.value.items| == count
  }

  function BitsOf(v: Value): (bits: seq<F64>)
    requires ExactArray(v)
    ensures |bits| == |v.items|
    ensures forall i :: 0 <= i < |bits| ==> bits[i] == v.items[i].bits
  {
    seq(|v.items|, i requires 0 <= i < |v.items| => v.items[i].bits)
  }

  function HistoryBits(before: Option<Value>, previous: Value): (bits: seq<F64>)
    requires ExactArray(previous)
    ensures |bits| == |previous.items|
  {
    if FloatHistory(before, |previous.items|) then BitsOf(before.value) else BitsOf(previous)
  }

  function Offered(before: Option<Value>, count: nat): nat {
    if FloatHistory(before, count) then 4 else 2
  }

  function FloatChoice(previous: Value, next: Value, before: Option<Value>): Candidate
    requires FloatArrays(previous, next)
  {
    Cheapest(Candidates(Offered(before, |next.items|), HistoryBits(before, previous), BitsOf(previous), BitsOf(next)))
  }

  function FloatResiduals(mode: Mode, previous: Value, next: Value, before: Option<Value>): seq<nat>
    requires FloatArrays(previous, next)
  {
    ResidualsOf(mode, HistoryBits(before, previous), BitsOf(previous), BitsOf(next))
  }

  /** The selected candidate is the one costed for its own mode, and that mode was offered. */
  lemma FloatChoiceFacts(previous: Value, next: Value, before: Option<Value>)
    requires FloatArrays(previous, next)
    ensures
      var c := FloatChoice(previous, next, before);
      && c == CandidateFor(c.mode, FloatResiduals(c.mode, previous, next, before))
      && c.width <= 32
      && Fits(FloatResiduals(c.mode, previous, next, before), 32)
      && (c.mode >= 2 ==> FloatHistory(before, |next.items|))
  {
    CheapestFacts(Offered(before, |next.items|), HistoryBits(before, previous), BitsOf(previous), BitsOf(next));
    var mode := FloatChoice(previous, next, before).mode;
    ResidualsFit(mode, HistoryBits(before, previous), BitsOf(previous), BitsOf(next));
    CandidateWidth(mode, FloatResiduals(mode, previous, next, before));
  }

  function FloatPayload(previous: Value, next: Value, before: Option<Value>): seq<Op>
    requires FloatArrays(previous, next)
  {
    var c := FloatChoice(previous, next, before);
    FloatChoiceFacts(previous, next, before);
    PayloadOps(c, FloatResiduals(c.mode, previous, next, before))
  }

  function FloatArrayOps(previous: Value, next: Value, before: Option<Value>): seq<Op>
    requires FloatArrays(previous, next)
  {
    [Byte(KindOf(FloatChoice(previous, next, before)))] + FloatPayload(previous, next, before)
  }

  // ----- deltas -----

  predicate Changed(previous: Option<Value>, next: Value) {
    previous.None? || !Same(previous.value, next)
  }

  /** The number of items from i on that differ from the same place in `previous`. */
  function ChangedItems(previous: Value, next: Value, i: nat): nat
    requires next.Arr? && i <= |next.items|
    decreases |next.items| - i
  {
    if i == |next.items| then 0
    else (if Changed(Element(Some(previous), i), next.items[i]) then 1 else 0) + ChangedItems(previous, next, i + 1)
  }

  function ChangedMembers(previous: Value, next: Value, i: nat): nat
    requires next.Obj? && Ordered(next.keys, next.vals) && i <= |next.keys|
    decreases |next.keys| - i
  {
    if i == |next.keys| then 0
    else
      (if Changed(Member(Some(previous), next.keys[i]), next.vals[next.keys[i]]) then 1 else 0)
      + ChangedMembers(previous, next, i + 1)
  }

  /** The keys of `previous` that `next` no longer has, in order. */
  function Deleted(keys: seq<string>, next: map<string, Value>): seq<string> {
    if keys == [] then []
    else (if keys[0] in next then [] else [keys[0]]) + Deleted(keys[1..], next)
  }

  function TextOps(keys: seq<string>): seq<Op> {
    if keys == [] then [] else [Text(keys[0])] + TextOps(keys[1..])
  }

  predicate Dense(previous: Value, next: Value)
    requires previous.Arr? && next.Arr?
  {
    |previous.items| == |next.items| && ChangedItems(previous, next, 0) > |next.items| / 2
  }

  /** What the writer calls for the step from `previous` to `next`, given the value one tick
      further back. */
  function DeltaOps(previous: Option<Value>, next: Value, before: Option<Value>): seq<Op>
    requires WellFormed(next)
    decreases next, 1, 0
  {
    if !Changed(previous, next) then [Byte(DELTA_SAME)]
    else if previous.Some? && previous.value.Num? && next.Num? then
      NumberDeltaOps(previous.value.bits, next.bits, NumberOf(before))
    else if previous.Some? && previous.value.Arr? && next.Arr? then
      if FloatArrays(previous.value, next) then FloatArrayOps(previous.value, next, before)
      else if Dense(previous.value, next) then
        [Byte(DELTA_DENSE_ARRAY)] + DenseOps(previous.value, next, before, 0)
      else
        [Byte(DELTA_ARRAY), Varuint(|next.items|), Varuint(ChangedItems(previous.value, next, 0))]
        + SparseOps(previous.value, next, before, 0)
    else if previous.Some? && previous.value.Obj? && next.Obj? then
      var deleted := Deleted(previous.value.keys, next.vals);
      [Byte(DELTA_OBJECT), Varuint(|deleted|)] + TextOps(deleted)
      + ([Varuint(ChangedMembers(previous.value, next, 0))] + MemberDeltaOps(previous.value, next, before, 0))
    else
      [Byte(DELTA_REPLACE)] + ValueOps(next)
  }

  /** Every item from i on, changed or not. */
  function DenseOps(previous: Value, next: Value, before: Option<Value>, i: nat): seq<Op>
    requires WellFormed(next) && next.Arr? && i <= |next.items|
    decreases next, 0, |next.items| - i
  {
    if i == |next.items| then []
    else
      DeltaOps(Element(Some(previous), i), next.items[i], Element(before, i)) + DenseOps(previous, next, before, i + 1)
  }

  /** The changed items from i on, each after its index. */
  function SparseOps(previous: Value, next: Value, before: Option<Value>, i: nat): seq<Op>
    requires WellFormed(next) && next.Arr? && i <= |next.items|
    decreases next, 0, |next.items| - i
  {
    if i == |next.items| then []
    else
      (if Changed(Element(Some(previous), i), next.items[i]) then
         [Varuint(i)] + DeltaOps(Element(Some(previous), i), next.items[i], Element(before, i))
       else [])
      + SparseOps(previous, next, before, i + 1)
  }

  /** The changed members from i on, each after its key. */
  function MemberDeltaOps(previous: Value, next: Value, before: Option<Value>, i: nat): seq<Op>
    requires WellFormed(next) && next.Obj? && i <= |next.keys|
    decreases next, 0, |next.keys| - i
  {
    if i == |next.keys| then []
    else
      var key := next.keys[i];
      (if Changed(Member(Some(previous), key), next.vals[key]) then
         [Text(key)] + DeltaOps(Member(Some(previous), key), next.vals[key], Member(before, key))
       else [])
      + MemberDeltaOps(previous, next, before, i + 1)
  }

  lemma TwoThen(a: Op, b: Op, mid: seq<Op>, rest: seq<Op>)
    ensures [a, b] + mid + rest == [a] + ([b] + (mid + rest))
  {
  }

  // ----- chunks -----

  const CHUNK_MAGIC: seq<byte> := [0x48, 0x53, 0x52, 0x44]
  const CHUNK_VERSION: byte := 1

  ghost predicate AllWellFormed(ticks: seq<Value>) {
    forall i :: 0 <= i < |ticks| ==> WellFormed(ticks[i])
  }

  function TickOps(ticks: seq<Value>, i: nat): seq<Op>
    requires 1 <= i <= |ticks| && AllWellFormed(ticks)
    decreases |ticks| - i
  {
    if i == |ticks| then []
    else
      DeltaOps(Some(ticks[i - 1]), ticks[i], if i > 1 then Some(ticks[i - 2]) else None) + TickOps(ticks, i + 1)
  }

  function ChunkOps(ticks: seq<Value>, first: nat): seq<Op>
    requires ticks != [] && AllWellFormed(ticks)
  {
    [Raw(CHUNK_MAGIC), Byte(CHUNK_VERSION), Varuint(first), Varuint(|ticks|)] + (ValueOps(ticks[0]) + TickOps(ticks, 1))
  }

  /** The encoded chunk; the writer raises when a count or length leaves the safe range. */
  function EncodeChunk(ticks: seq<Value>, first: nat): Result<seq<byte>>
    requires AllWellFormed(ticks)
  {
    if ticks == [] then Err(BadCount)
    else if Safe([], ChunkOps(ticks, first)) then Ok(Emit([], ChunkOps(ticks, first)))
    else Err(UnsafeInteger)
  }
}
