/** The one-stage writer as the native viewer runs it: the calls of the reference functions,
    made step by step on the buffer. */
module ViewerWriter {
  import opened Base
  import opened Floats
  import opened Values
  import opened Wire
  import opened Packing
  import opened Residuals
  import opened Delta
  import opened NumberRoundTrip
  import opened DeltaRoundTrip
  import opened Buffers

  /** One step towards a goal: what is left afterwards, and that its failure spoils the goal. */
  lemma Next(calls: seq<Op>, step: seq<Op>, rest: seq<Op>, goal: seq<Op>)
    requires calls + (step + rest) == goal
    ensures (calls + step) + rest == goal
    ensures !Safe([], calls + step) ==> !Safe([], goal)
  {
    SafeParts(calls, step, rest);
  }

  lemma Last(calls: seq<Op>, goal: seq<Op>)
    requires calls + [] == goal
    ensures calls == goal
  {
  }

  // ----- whole values -----

  method WriteNumber(writer: BinaryWriter, bits: F64) returns (a: Attempt)
    requires writer.Valid()
    modifies writer
    ensures writer.Valid()
    ensures a.Done? ==> writer.calls == old(writer.calls) + NumberOps(bits)
    ensures a.Raised? ==> !Safe([], old(writer.calls) + NumberOps(bits))
  {
    ghost var goal := writer.calls + NumberOps(bits);
    NumberOpsShape(bits);
    hide *;
    if SafeInteger(bits) {
      var integer := ToInt(bits);
      Next(writer.calls, [Byte(VALUE_INTEGER)], [Byte(if integer < 0 then 1 else 0)] + [Varuint(Abs(integer))], goal);
      writer.Byte(VALUE_INTEGER);
      Next(writer.calls, [Byte(if integer < 0 then 1 else 0)], [Varuint(Abs(integer))], goal);
      writer.Byte(if integer < 0 then 1 else 0);
      a := writer.Varuint(Abs(integer));
    } else if ExactF32(bits) && !NegativeZero(bits) {
      Next(writer.calls, [Byte(VALUE_FLOAT32)], [Raw(LittleEndian(Narrow(bits), 4))], goal);
      writer.Byte(VALUE_FLOAT32);
      writer.Bytes(LittleEndian(Narrow(bits), 4));
      a := Done;
    } else {
      Next(writer.calls, [Byte(VALUE_FLOAT64)], [Raw(LittleEndian(bits, 8))], goal);
      writer.Byte(VALUE_FLOAT64);
      writer.Bytes(LittleEndian(bits, 8));
      a := Done;
    }
  }

  lemma NumberOpsShape(bits: F64)
    ensures NumberOps(bits) ==
      if SafeInteger(bits) then [Byte(VALUE_INTEGER)]
        + ([Byte(if ToInt(bits) < 0 then 1 else 0)] + [Varuint(Abs(ToInt(bits)))])
      else if ExactF32(bits) && !NegativeZero(bits) then [Byte(VALUE_FLOAT32)] + [Raw(LittleEndian(Narrow(bits), 4))]
      else [Byte(VALUE_FLOAT64)] + [Raw(LittleEndian(bits, 8))]
  {
  }

  lemma ValueOpsShape(v: Value)
    requires WellFormed(v)
    ensures v.Null? ==> ValueOps(v) == [Byte(VALUE_NULL)]
    ensures v.Bool? ==> ValueOps(v) == [Byte(if v.b then VALUE_TRUE else VALUE_FALSE)]
    ensures v.Num? ==> ValueOps(v) == NumberOps(v.bits)
    ensures v.Str? ==> ValueOps(v) == [Byte(VALUE_STRING)] + [Text(v.text)]
    ensures v.Arr? ==> ValueOps(v) == [Byte(VALUE_ARRAY)] + ([Varuint(|v.items|)] + ItemOps(v, 0))
    ensures v.Obj? ==> ValueOps(v) == [Byte(VALUE_OBJECT)] + ([Varuint(|v.keys|)] + MemberOps(v, 0))
  {
    hide NumberOps, ItemOps, MemberOps;
    match v
    case Arr(items) => PairThen(Byte(VALUE_ARRAY), Varuint(|items|), ItemOps(v, 0));
    case Obj(keys, _) => PairThen(Byte(VALUE_OBJECT), Varuint(|keys|), MemberOps(v, 0));
    case _ =>
  }

  lemma PairThen(a: Op, b: Op, rest: seq<Op>)
    ensures [a, b] + rest == [a] + ([b] + rest)
  {
  }

  lemma ItemOpsStep(v: Value, i: nat)
    requires WellFormed(v) && v.Arr? && i <= |v.items|
    ensures i == |v.items| ==> ItemOps(v, i) == []
    ensures i < |v.items| ==> WellFormed(v.items[i]) && ItemOps(v, i) == ValueOps(v.items[i]) + ItemOps(v, i + 1)
  {
  }

  lemma MemberOpsStep(v: Value, i: nat)
    requires WellFormed(v) && v.Obj? && i <= |v.keys|
    ensures i == |v.keys| ==> MemberOps(v, i) == []
    ensures i < |v.keys| ==>
      && v.keys[i] in v.vals
      && WellFormed(v.vals[v.keys[i]])
      && MemberOps(v, i) == [Text(v.keys[i])] + (ValueOps(v.vals[v.keys[i]]) + MemberOps(v, i + 1))
  {
    if i < |v.keys| {
      var key := v.keys[i];
      assert key in v.keys;
      assert [Text(key)] + ValueOps(v.vals[key]) + MemberOps(v, i + 1)
        == [Text(key)] + (ValueOps(v.vals[key]) + MemberOps(v, i + 1));
    }
  }

  method WriteValue(writer: BinaryWriter, v: Value) returns (a: Attempt)
    requires writer.Valid() && WellFormed(v)
    modifies writer
    ensures writer.Valid()
    ensures a.Done? ==> writer.calls == old(writer.calls) + ValueOps(v)
    ensures a.Raised? ==> !Safe([], old(writer.calls) + ValueOps(v))
    decreases v, 1
  {
    hide *;
    ValueOpsShape(v);
    ghost var goal := writer.calls + ValueOps(v);
    a := Done;
    match v {
      case Null =>
        writer.Byte(VALUE_NULL);
      case Bool(b) =>
        writer.Byte(if b then VALUE_TRUE else VALUE_FALSE);
      case Num(bits) =>
        a := WriteNumber(writer, bits);
        if a.Raised? {
          return;
        }
      case Str(text) =>
        Next(writer.calls, [Byte(VALUE_STRING)], [Text(text)], goal);
        writer.Byte(VALUE_STRING);
        a := writer.String(text);
        if a.Raised? {
          return;
        }
      case Arr(items) =>
        Next(writer.calls, [Byte(VALUE_ARRAY)], [Varuint(|items|)] + ItemOps(v, 0), goal);
        writer.Byte(VALUE_ARRAY);
        Next(writer.calls, [Varuint(|items|)], ItemOps(v, 0), goal);
        a := writer.Varuint(|items|);
        if a.Raised? {
          return;
        }
        a := WriteItems(writer, v, goal);
        if a.Raised? {
          return;
        }
      case Obj(keys, _) =>
        Next(writer.calls, [Byte(VALUE_OBJECT)], [Varuint(|keys|)] + MemberOps(v, 0), goal);
        writer.Byte(VALUE_OBJECT);
        Next(writer.calls, [Varuint(|keys|)], MemberOps(v, 0), goal);
        a := writer.Varuint(|keys|);
        if a.Raised? {
          return;
        }
        a := WriteMembers(writer, v, goal);
        if a.Raised? {
          return;
        }
    }
  }

  method WriteItems(writer: BinaryWriter, v: Value, ghost goal: seq<Op>) returns (a: Attempt)
    requires writer.Valid() && WellFormed(v) && v.Arr? && writer.calls + ItemOps(v, 0) == goal
    modifies writer
    ensures writer.Valid()
    ensures a.Done? ==> writer.calls == goal
    ensures a.Raised? ==> !Safe([], goal)
    decreases v, 0
  {
    hide *;
    for i := 0 to |v.items|
      invariant writer.Valid() && writer.calls + ItemOps(v, i) == goal
    {
      ItemOpsStep(v, i);
      Next(writer.calls, ValueOps(v.items[i]), ItemOps(v, i + 1), goal);
      a := WriteValue(writer, v.items[i]);
      if a.Raised? {
        return;
      }
    }
    ItemOpsStep(v, |v.items|);
    Last(writer.calls, goal);
    return Done;
  }

  method WriteMembers(writer: BinaryWriter, v: Value, ghost goal: seq<Op>) returns (a: Attempt)
    requires writer.Valid() && WellFormed(v) && v.Obj? && writer.calls + MemberOps(v, 0) == goal
    modifies writer
    ensures writer.Valid()
    ensures a.Done? ==> writer.calls == goal
    ensures a.Raised? ==> !Safe([], goal)
    decreases v, 0
  {
    hide *;
    for i := 0 to |v.keys|
      invariant writer.Valid() && writer.calls + MemberOps(v, i) == goal
    {
      MemberOpsStep(v, i);
      var key := v.keys[i];
      Next(writer.calls, [Text(key)], ValueOps(v.vals[key]) + MemberOps(v, i + 1), goal);
      a := writer.String(key);
      if a.Raised? {
        return;
      }
      Next(writer.calls, ValueOps(v.vals[key]), MemberOps(v, i + 1), goal);
      a := WriteValue(writer, v.vals[key]);
      if a.Raised? {
        return;
      }
    }
    MemberOpsStep(v, |v.keys|);
    Last(writer.calls, goal);
    return Done;
  }

  // ----- numbers -----

  lemma ZeroBytesStep(x: nat, limit: nat)
    ensures limit == 0 || x % 256 != 0 ==> ZeroBytes(x, limit) == 0
    ensures limit > 0 && x % 256 == 0 ==> ZeroBytes(x, limit) == 1 + ZeroBytes(x / 256, limit - 1)
  {
  }

  lemma UnshiftStart(x: nat)
    ensures Unshift(x, 8 * 0) == x
  {
  }

  lemma UnshiftNext(x: nat, k: nat)
    ensures Unshift(x, 8 * (k + 1)) == Unshift(x, 8 * k) / 256
  {
    UnshiftUnshift(x, 8 * k, 8);
    EightShift(Unshift(x, 8 * k));
  }

  lemma XorOpsShape(previous: F64, next: F64)
    ensures
      var x := Xor(previous, next);
      var trailing := ZeroBytes(x, 7);
      var significant := Unshift(x, 8 * trailing);
      var length := SignificantLength(significant);
      && trailing <= 7 && 1 <= length <= 8
      && NumberXorOps(previous, next)
           == [Byte(XorDescriptor(trailing, length))] + [Raw(LittleEndian(significant, length))]
      && XorDescriptor(trailing, length) == 16 * trailing + (length - 1)
      && (x == 0 <==> previous == next)
  {
    var x := Xor(previous, next);
    Xor64(previous, next);
    XorZero(previous, next);
    ZeroBytesBound(x, 7);
    UnshiftShrinks(x, 8 * ZeroBytes(x, 7));
    SignificantLengthBound(Unshift(x, 8 * ZeroBytes(x, 7)));
  }

  /** The significant bytes of the exclusive or, trimmed at both ends; equal numbers raise. */
  method WriteNumberXor(writer: BinaryWriter, previous: F64, next: F64) returns (a: Attempt)
    requires writer.Valid()
    modifies writer
    ensures writer.Valid()
    ensures a.Done? <==> previous != next
    ensures a.Done? ==> writer.calls == old(writer.calls) + NumberXorOps(previous, next)
  {
    hide *;
    XorOpsShape(previous, next);
    var xor := Xor(previous, next);
    if xor == 0 {
      return Raised;
    }
    var trailing, significant := 0, xor;
    UnshiftStart(xor);
    ZeroBytesStep(xor, 7);
    while trailing < 7 && significant % 256 == 0
      invariant 0 <= trailing <= 7 && trailing + ZeroBytes(significant, 7 - trailing) == ZeroBytes(xor, 7)
      invariant significant == Unshift(xor, 8 * trailing)
      invariant writer.Valid() && writer.calls == old(writer.calls)
      decreases 7 - trailing
    {
      ZeroBytesStep(significant, 7 - trailing);
      UnshiftNext(xor, trailing);
      significant := significant / 256;
      trailing := trailing + 1;
    }
    ZeroBytesStep(significant, 7 - trailing);
    var length := SignificantLength(significant);
    Next(writer.calls, [Byte(16 * trailing + (length - 1))], [Raw(LittleEndian(significant, length))],
         old(writer.calls) + NumberXorOps(previous, next));
    writer.Byte(16 * trailing + (length - 1));
    writer.Bytes(LittleEndian(significant, length));
    return Done;
  }

  /** The selection one candidate at a time. */
  function Pick(best: Candidate, c: Candidate): Candidate {
    if c.bytes < best.bytes then c else best
  }

  lemma CheapestGrows(candidates: seq<Candidate>, c: Candidate)
    requires candidates != []
    ensures Cheapest(candidates + [c]) == Pick(Cheapest(candidates), c)
  {
    assert (candidates + [c])[..|candidates|] == candidates;
  }

  function ScalarCandidate(mode: Mode, before: F64, previous: F64, next: F64): Candidate {
    Candidate(mode, false, 0, VaruintLength(Residual(mode, before, previous, next)))
  }

  lemma CheapestOfTwo(a: Candidate, b: Candidate)
    ensures Cheapest([a] + [b]) == Pick(a, b)
  {
    CheapestGrows([a], b);
  }

  lemma ScalarPicks(before: F64, previous: F64, next: F64)
    ensures
      var c := (mode: Mode) => ScalarCandidate(mode, before, previous, next);
      && Cheapest(ScalarCandidates(2, before, previous, next)) == Pick(c(0), c(1))
      && Cheapest(ScalarCandidates(4, before, previous, next)) == Pick(Pick(Pick(c(0), c(1)), c(2)), c(3))
  {
    var c := (mode: Mode) => ScalarCandidate(mode, before, previous, next);
    var two, four := ScalarCandidates(2, before, previous, next), ScalarCandidates(4, before, previous, next);
    assert two == [c(0)] + [c(1)];
    assert four == two + [c(2)] + [c(3)];
    hide *;
    CheapestOfTwo(c(0), c(1));
    CheapestGrows(two, c(2));
    CheapestGrows(two + [c(2)], c(3));
  }

  lemma ResidualIgnoresHistory(mode: Mode, a: F64, b: F64, previous: F64, next: F64)
    requires mode < 2
    ensures Residual(mode, a, previous, next) == Residual(mode, b, previous, next)
  {
    PredictionIgnoresHistory(mode, a, b, previous);
  }

  lemma ScalarModePicks(before: Option<F64>, previous: F64, next: F64)
    ensures
      var h := ScalarHistory(before, previous);
      var c := (mode: Mode) => ScalarCandidate(mode, h, previous, next);
      ScalarMode(before, previous, next) ==
        if before.Some? && ExactF32(before.value) then Pick(Pick(Pick(c(0), c(1)), c(2)), c(3)).mode
          else Pick(c(0), c(1)).mode
  {
    ScalarPicks(ScalarHistory(before, previous), previous, next);
  }

  /** The cheapest scalar residual, an earlier mode winning every tie. */
  method SelectScalar(previous: F64, next: F64, before: Option<F64>) returns (tag: byte, value: nat)
    ensures
      var mode := ScalarMode(before, previous, next);
      tag == ScalarTag(mode) && value == Residual(mode, ScalarHistory(before, previous), previous, next)
  {
    hide Residual, VaruintLength, ExactF32, ScalarMode;
    ScalarModePicks(before, previous, next);
    ghost var history := ScalarHistory(before, previous);
    ResidualIgnoresHistory(MODE_XOR, previous, history, previous, next);
    ResidualIgnoresHistory(MODE_DIFFERENCE, previous, history, previous, next);
    tag, value := DELTA_FLOAT32_XOR, Residual(MODE_XOR, previous, previous, next);
    var difference := Residual(MODE_DIFFERENCE, previous, previous, next);
    if VaruintLength(difference) < VaruintLength(value) {
      tag, value := DELTA_FLOAT32_DIFFERENCE, difference;
    }
    if before.Some? && ExactF32(before.value) {
      var bitPrediction := Residual(MODE_BIT_PREDICTION, before.value, previous, next);
      if VaruintLength(bitPrediction) < VaruintLength(value) {
        tag, value := DELTA_FLOAT32_BIT_PREDICTION, bitPrediction;
      }
      var valuePrediction := Residual(MODE_VALUE_PREDICTION, before.value, previous, next);
      if VaruintLength(valuePrediction) < VaruintLength(value) {
        tag, value := DELTA_FLOAT32_VALUE_PREDICTION, valuePrediction;
      }
    }
  }

  lemma NumberDeltaShape(previous: F64, next: F64, before: Option<F64>)
    ensures NumberDeltaOps(previous, next, before) ==
      if IntegerDelta(previous, next) then
        [Byte(DELTA_INTEGER_DIFFERENCE)] + [Varuint(ZigZag(ToInt(Minus(next, previous))))]
      else if ExactF32(previous) && ExactF32(next) then
        var mode := ScalarMode(before, previous, next);
        [Byte(ScalarTag(mode))] + [Varuint(Residual(mode, ScalarHistory(before, previous), previous, next))]
      else [Byte(DELTA_NUMBER_XOR)] + NumberXorOps(previous, next)
  {
  }

  method WriteNumberDelta(writer: BinaryWriter, previous: F64, next: F64, before: Option<F64>) returns (a: Attempt)
    requires writer.Valid() && previous != next
    modifies writer
    ensures writer.Valid()
    ensures a.Done? ==> writer.calls == old(writer.calls) + NumberDeltaOps(previous, next, before)
    ensures a.Raised? ==> !Safe([], old(writer.calls) + NumberDeltaOps(previous, next, before))
  {
    hide *;
    NumberDeltaShape(previous, next, before);
    ghost var goal := writer.calls + NumberDeltaOps(previous, next, before);
    if IntegerDelta(previous, next) {
      var n := ZigZag(ToInt(Minus(next, previous)));
      Next(writer.calls, [Byte(DELTA_INTEGER_DIFFERENCE)], [Varuint(n)], goal);
      writer.Byte(DELTA_INTEGER_DIFFERENCE);
      a := writer.Varuint(n);
    } else if ExactF32(previous) && ExactF32(next) {
      var tag, value := SelectScalar(previous, next, before);
      Next(writer.calls, [Byte(tag)], [Varuint(value)], goal);
      writer.Byte(tag);
      a := writer.Varuint(value);
    } else {
      Next(writer.calls, [Byte(DELTA_NUMBER_XOR)], NumberXorOps(previous, next), goal);
      writer.Byte(DELTA_NUMBER_XOR);
      a := WriteNumberXor(writer, previous, next);
    }
  }

  // ----- arrays of float32 numbers -----

  lemma ResidualsFrom(residuals: seq<nat>, i: nat)
    requires i <= |residuals|
    ensures i == |residuals| ==> VaruintBytesTotal(residuals[i..]) == 0 && WidestBits(residuals[i..]) == 0
    ensures i == |residuals| ==> VaruintOps(residuals[i..]) == []
    ensures i < |residuals| ==>
      && VaruintBytesTotal(residuals[i..]) == VaruintLength(residuals[i]) + VaruintBytesTotal(residuals[i + 1..])
      && WidestBits(residuals[i..]) == Max(BitLen(residuals[i]), WidestBits(residuals[i + 1..]))
      && VaruintOps(residuals[i..]) == [Varuint(residuals[i])] + VaruintOps(residuals[i + 1..])
  {
    if i < |residuals| {
      assert residuals[i..][1..] == residuals[i + 1..];
    }
  }

  lemma FloatResidualAt(mode: Mode, previous: Value, next: Value, before: Option<Value>, i: nat)
    requires FloatArrays(previous, next) && i < |next.items|
    ensures previous.Arr? && next.Arr?
    ensures |FloatResiduals(mode, previous, next, before)| == |next.items| == |previous.items|
    ensures previous.items[i].Num? && next.items[i].Num?
    ensures FloatHistory(before, |next.items|) ==>
      before.Some? && before.value.Arr? && |before.value.items| == |next.items| && before.value.items[i].Num?
    ensures FloatResiduals(mode, previous, next, before)[i] ==
      Residual(mode, if FloatHistory(before, |next.items|) then before.value.items[i].bits else previous.items[i].bits,
        previous.items[i].bits, next.items[i].bits)
  {
    assert Exact(previous.items[i]) && Exact(next.items[i]);
    if FloatHistory(before, |next.items|) {
      assert Exact(before.value.items[i]);
    }
  }

  method FloatResidual(mode: Mode, previous: Value, next: Value, before: Option<Value>, i: nat) returns (n: nat)
    requires FloatArrays(previous, next) && i < |next.items|
    ensures |FloatResiduals(mode, previous, next, before)| == |next.items|
    ensures n == FloatResiduals(mode, previous, next, before)[i]
  {
    hide Residual, FloatResiduals, FloatHistory, FloatArrays, ExactArray;
    FloatResidualAt(mode, previous, next, before, i);
    if FloatHistory(before, |next.items|) {
      n := Residual(mode, before.value.items[i].bits, previous.items[i].bits, next.items[i].bits);
    } else {
      n := Residual(mode, previous.items[i].bits, previous.items[i].bits, next.items[i].bits);
    }
  }

  lemma RunningMax(a: nat, b: nat, c: nat)
    ensures Max(a, Max(b, c)) == Max(Max(a, b), c)
    ensures Max(a, 0) == a && Max(0, b) == b
  {
  }

  lemma CandidateForParts(mode: Mode, residuals: seq<nat>)
    ensures CandidateFor(mode, residuals) ==
      var varint, width := VaruintBytesTotal(residuals), WidestBits(residuals);
      var packed := 2 + PackedLength(|residuals|, width);
      if AtMostThreeQuarters(packed, varint) then Candidate(mode, true, width, packed)
        else Candidate(mode, false, width, varint)
  {
    ThreeQuarterRule(2 + PackedLength(|residuals|, WidestBits(residuals)), VaruintBytesTotal(residuals));
  }

  /** The cost of one mode, residual by residual. */
  method FloatCandidate(mode: Mode, previous: Value, next: Value, before: Option<Value>) returns (c: Candidate)
    requires FloatArrays(previous, next)
    ensures c == CandidateFor(mode, FloatResiduals(mode, previous, next, before))
  {
    FloatArraysLength(previous, next);
    hide *;
    ghost var residuals := FloatResiduals(mode, previous, next, before);
    FloatResidualAt(mode, previous, next, before, 0);
    RunningMax(0, WidestBits(residuals), 0);
    var varintBytes: nat, bitWidth: nat := 0, 0;
    assert residuals[0..] == residuals;
    for i := 0 to |next.items|
      invariant varintBytes + VaruintBytesTotal(residuals[i..]) == VaruintBytesTotal(residuals)
      invariant Max(bitWidth, WidestBits(residuals[i..])) == WidestBits(residuals)
    {
      var residual := FloatResidual(mode, previous, next, before, i);
      ResidualsFrom(residuals, i);
      RunningMax(bitWidth, BitLen(residual), WidestBits(residuals[i + 1..]));
      varintBytes := varintBytes + VaruintLength(residual);
      bitWidth := Max(bitWidth, BitLen(residual));
    }
    ResidualsFrom(residuals, |residuals|);
    RunningMax(bitWidth, 0, 0);
    CandidateForParts(mode, residuals);
    var packed := 2 + PackedLength(|next.items|, bitWidth);
    if AtMostThreeQuarters(packed, varintBytes) {
      c := Candidate(mode, true, bitWidth, packed);
    } else {
      c := Candidate(mode, false, bitWidth, varintBytes);
    }
  }

  lemma CheapestScan(candidates: seq<Candidate>, m: nat)
    requires candidates != []
    ensures Cheapest(candidates[..1]) == candidates[0]
    ensures 0 < m < |candidates| ==> Cheapest(candidates[..m + 1]) == Pick(Cheapest(candidates[..m]), candidates[m])
    ensures candidates[..|candidates|] == candidates
  {
    assert candidates[..1] == [candidates[0]];
    if 0 < m < |candidates| {
      assert candidates[..m + 1] == candidates[..m] + [candidates[m]];
      CheapestGrows(candidates[..m], candidates[m]);
    }
  }

  function FloatCandidates(previous: Value, next: Value, before: Option<Value>): (c: seq<Candidate>)
    requires FloatArrays(previous, next)
    ensures |c| == Offered(before, |next.items|)
  {
    Candidates(Offered(before, |next.items|), HistoryBits(before, previous), BitsOf(previous), BitsOf(next))
  }

  lemma FloatChoiceParts(previous: Value, next: Value, before: Option<Value>)
    requires FloatArrays(previous, next)
    ensures |FloatCandidates(previous, next, before)| == if FloatHistory(before, |next.items|) then 4 else 2
    ensures forall m :: 0 <= m < |FloatCandidates(previous, next, before)| ==>
      FloatCandidates(previous, next, before)[m] == CandidateFor(m, FloatResiduals(m, previous, next, before))
    ensures FloatChoice(previous, next, before) == Cheapest(FloatCandidates(previous, next, before))
  {
    hide CandidateFor, ResidualsOf, FloatHistory, Cheapest;
  }

  /** A later mode is selected only when it is strictly cheaper. */
  method SelectFloats(previous: Value, next: Value, before: Option<Value>) returns (selected: Candidate)
    requires FloatArrays(previous, next)
    ensures selected == FloatChoice(previous, next, before)
  {
    hide *;
    FloatArraysLength(previous, next);
    FloatChoiceParts(previous, next, before);
    ghost var candidates := FloatCandidates(previous, next, before);
    CheapestScan(candidates, 0);
    selected := FloatCandidate(0, previous, next, before);
    var modes := if FloatHistory(before, |next.items|) then 4 else 2;
    for mode := 1 to modes
      invariant selected == Cheapest(candidates[..mode])
    {
      CheapestScan(candidates, mode);
      var candidate := FloatCandidate(mode, previous, next, before);
      PickParts(selected, candidate);
      if candidate.bytes < selected.bytes {
        selected := candidate;
      }
    }
  }

  lemma PickParts(best: Candidate, c: Candidate)
    ensures Pick(best, c) == if c.bytes < best.bytes then c else best
  {
  }

  method WriteVaruints(writer: BinaryWriter, values: seq<nat>) returns (a: Attempt)
    requires writer.Valid()
    modifies writer
    ensures writer.Valid()
    ensures a.Done? ==> writer.calls == old(writer.calls) + VaruintOps(values)
    ensures a.Raised? ==> !Safe([], old(writer.calls) + VaruintOps(values))
  {
    hide *;
    ghost var goal := writer.calls + VaruintOps(values);
    assert values[0..] == values;
    for i := 0 to |values|
      invariant writer.Valid() && writer.calls + VaruintOps(values[i..]) == goal
    {
      ResidualsFrom(values, i);
      Next(writer.calls, [Varuint(values[i])], VaruintOps(values[i + 1..]), goal);
      a := writer.Varuint(values[i]);
      if a.Raised? {
        return;
      }
    }
    ResidualsFrom(values, |values|);
    Last(writer.calls, goal);
    return Done;
  }

  lemma FloatOpsShape(previous: Value, next: Value, before: Option<Value>)
    requires FloatArrays(previous, next)
    ensures
      var c := FloatChoice(previous, next, before);
      var residuals := FloatResiduals(c.mode, previous, next, before);
      && c.width <= 32
      && (c.packed ==> Fits(residuals, c.width))
      && FloatArrayOps(previous, next, before) == [Byte(KindOf(c))]
        + if c.packed then [Byte(c.mode)] + ([Byte(c.width)] + [Raw(PackedBytes(residuals, c.width))])
          else VaruintOps(residuals)
  {
    FloatChoiceFacts(previous, next, before);
    var c := FloatChoice(previous, next, before);
    WidestFits(FloatResiduals(c.mode, previous, next, before));
  }

  method WriteFloats(writer: BinaryWriter, previous: Value, next: Value, before: Option<Value>) returns (a: Attempt)
    requires writer.Valid() && FloatArrays(previous, next)
    modifies writer
    ensures writer.Valid()
    ensures a.Done? ==> writer.calls == old(writer.calls) + FloatArrayOps(previous, next, before)
    ensures a.Raised? ==> !Safe([], old(writer.calls) + FloatArrayOps(previous, next, before))
  {
    hide *;
    FloatOpsShape(previous, next, before);
    ghost var goal := writer.calls + FloatArrayOps(previous, next, before);
    var c := SelectFloats(previous, next, before);
    var residuals := FloatResiduals(c.mode, previous, next, before);
    if c.packed {
      Next(writer.calls, [Byte(KindOf(c))],
           [Byte(c.mode)] + ([Byte(c.width)] + [Raw(PackedBytes(residuals, c.width))]), goal);
      writer.Byte(KindOf(c));
      Next(writer.calls, [Byte(c.mode)], [Byte(c.width)] + [Raw(PackedBytes(residuals, c.width))], goal);
      writer.Byte(c.mode);
      Next(writer.calls, [Byte(c.width)], [Raw(PackedBytes(residuals, c.width))], goal);
      writer.Byte(c.width);
      WritePacked(writer, residuals, c.width);
      a := Done;
    } else {
      Next(writer.calls, [Byte(KindOf(c))], VaruintOps(residuals), goal);
      writer.Byte(KindOf(c));
      a := WriteVaruints(writer, residuals);
    }
  }

  // ----- the changed parts, listed before they are written -----

  function ChangedIndexes(previous: Value, next: Value, i: nat): seq<nat>
    requires next.Arr? && i <= |next.items|
    decreases |next.items| - i
  {
    if i == |next.items| then []
    else
      (if Changed(Element(Some(previous), i), next.items[i]) then [i] else [])
      + ChangedIndexes(previous, next, i + 1)
  }

  function ChangedKeys(previous: Value, next: Value, i: nat): seq<string>
    requires next.Obj? && Ordered(next.keys, next.vals) && i <= |next.keys|
    decreases |next.keys| - i
  {
    if i == |next.keys| then []
    else
      (if Changed(Member(Some(previous), next.keys[i]), next.vals[next.keys[i]]) then [next.keys[i]] else [])
      + ChangedKeys(previous, next, i + 1)
  }

  ghost predicate InRange(next: Value, indexes: seq<nat>) {
    next.Arr? && forall j :: 0 <= j < |indexes| ==> indexes[j] < |next.items|
  }

  ghost predicate AreKeys(next: Value, keys: seq<string>) {
    next.Obj? && forall j :: 0 <= j < |keys| ==> keys[j] in next.vals
  }

  /** The listed items, each after its index. */
  ghost function ListedItems(previous: Value, next: Value, before: Option<Value>, indexes: seq<nat>): seq<Op>
    requires WellFormed(next) && InRange(next, indexes)
  {
    if indexes == [] then []
    else
      var i := indexes[0];
      [Varuint(i)] + (DeltaOps(Element(Some(previous), i), next.items[i], Element(before, i))
                      + ListedItems(previous, next, before, indexes[1..]))
  }

  /** The listed members, each after its key. */
  ghost function ListedMembers(previous: Value, next: Value, before: Option<Value>, keys: seq<string>): seq<Op>
    requires WellFormed(next) && AreKeys(next, keys)
  {
    if keys == [] then []
    else
      var key := keys[0];
      [Text(key)] + (DeltaOps(Member(Some(previous), key), next.vals[key], Member(before, key))
                     + ListedMembers(previous, next, before, keys[1..]))
  }

  lemma ChangedIndexesStep(previous: Value, next: Value, i: nat)
    requires next.Arr? && i <= |next.items|
    ensures i == |next.items| ==> ChangedIndexes(previous, next, i) == []
    ensures i < |next.items| ==>
      ChangedIndexes(previous, next, i) ==
      if Changed(Element(Some(previous), i), next.items[i]) then [i] + ChangedIndexes(previous, next, i + 1)
        else ChangedIndexes(previous, next, i + 1)
  {
    if i < |next.items| {
      var rest := ChangedIndexes(previous, next, i + 1);
      assert [] + rest == rest;
    }
  }

  lemma ChangedKeysStep(previous: Value, next: Value, i: nat)
    requires next.Obj? && Ordered(next.keys, next.vals) && i <= |next.keys|
    ensures i == |next.keys| ==> ChangedKeys(previous, next, i) == []
    ensures i < |next.keys| ==>
      next.keys[i] in next.vals && ChangedKeys(previous, next, i) ==
      if Changed(Member(Some(previous), next.keys[i]), next.vals[next.keys[i]])
        then [next.keys[i]] + ChangedKeys(previous, next, i + 1)
      else ChangedKeys(previous, next, i + 1)
  {
    if i < |next.keys| {
      var rest := ChangedKeys(previous, next, i + 1);
      assert [] + rest == rest;
      assert next.keys[i] in next.keys;
    }
  }

  lemma {:induction false} ChangedIndexesFacts(previous: Value, next: Value, i: nat)
    requires next.Arr? && i <= |next.items|
    ensures |ChangedIndexes(previous, next, i)| == ChangedItems(previous, next, i)
    ensures forall j :: 0 <= j < |ChangedIndexes(previous, next, i)| ==>
      i <= ChangedIndexes(previous, next, i)[j] < |next.items|
    ensures InRange(next, ChangedIndexes(previous, next, i))
    decreases |next.items| - i
  {
    ChangedIndexesStep(previous, next, i);
    if i < |next.items| {
      ChangedIndexesFacts(previous, next, i + 1);
    }
  }

  lemma {:induction false} ChangedKeysFacts(previous: Value, next: Value, i: nat)
    requires next.Obj? && Ordered(next.keys, next.vals) && i <= |next.keys|
    ensures |ChangedKeys(previous, next, i)| == ChangedMembers(previous, next, i)
    ensures AreKeys(next, ChangedKeys(previous, next, i))
    decreases |next.keys| - i
  {
    ChangedKeysStep(previous, next, i);
    if i < |next.keys| {
      ChangedKeysFacts(previous, next, i + 1);
    }
  }

  lemma ListedItemsStep(previous: Value, next: Value, before: Option<Value>, indexes: seq<nat>, j: nat)
    requires WellFormed(next) && InRange(next, indexes) && j <= |indexes|
    ensures InRange(next, indexes[j..])
    ensures j == |indexes| ==> ListedItems(previous, next, before, indexes[j..]) == []
    ensures j < |indexes| ==>
      && indexes[j] < |next.items|
      && WellFormed(next.items[indexes[j]])
      && InRange(next, indexes[j + 1..])
      && ListedItems(previous, next, before, indexes[j..]) ==
        [Varuint(indexes[j])] + (DeltaOps(Element(Some(previous), indexes[j]), next.items[indexes[j]],
                                          Element(before, indexes[j]))
          + ListedItems(previous, next, before, indexes[j + 1..]))
  {
    if j < |indexes| {
      assert indexes[j..][1..] == indexes[j + 1..];
    }
  }

  lemma ListedMembersStep(previous: Value, next: Value, before: Option<Value>, keys: seq<string>, j: nat)
    requires WellFormed(next) && AreKeys(next, keys) && j <= |keys|
    ensures AreKeys(next, keys[j..])
    ensures j == |keys| ==> ListedMembers(previous, next, before, keys[j..]) == []
    ensures j < |keys| ==>
      && keys[j] in next.vals
      && WellFormed(next.vals[keys[j]])
      && AreKeys(next, keys[j + 1..])
      && ListedMembers(previous, next, before, keys[j..]) ==
        [Text(keys[j])] + (DeltaOps(Member(Some(previous), keys[j]), next.vals[keys[j]], Member(before, keys[j]))
          + ListedMembers(previous, next, before, keys[j + 1..]))
  {
    if j < |keys| {
      assert keys[j..][1..] == keys[j + 1..];
    }
  }

  lemma SparseOpsStep(previous: Value, next: Value, before: Option<Value>, i: nat)
    requires WellFormed(next) && next.Arr? && i <= |next.items|
    ensures i == |next.items| ==> SparseOps(previous, next, before, i) == []
    ensures i < |next.items| ==>
      WellFormed(next.items[i]) && SparseOps(previous, next, before, i) ==
      if Changed(Element(Some(previous), i), next.items[i]) then
        [Varuint(i)] + (DeltaOps(Element(Some(previous), i), next.items[i], Element(before, i))
                        + SparseOps(previous, next, before, i + 1))
      else SparseOps(previous, next, before, i + 1)
  {
    hide DeltaOps, Changed;
    if i < |next.items| {
      var rest := SparseOps(previous, next, before, i + 1);
      assert [] + rest == rest;
      var step := DeltaOps(Element(Some(previous), i), next.items[i], Element(before, i));
      assert [Varuint(i)] + step + rest == [Varuint(i)] + (step + rest);
    }
  }

  lemma MemberDeltaOpsStep(previous: Value, next: Value, before: Option<Value>, i: nat)
    requires WellFormed(next) && next.Obj? && i <= |next.keys|
    ensures Ordered(next.keys, next.vals)
    ensures i == |next.keys| ==> MemberDeltaOps(previous, next, before, i) == []
    ensures i < |next.keys| ==>
      var key := next.keys[i];
      key in next.vals && WellFormed(next.vals[key]) && MemberDeltaOps(previous, next, before, i) ==
        if Changed(Member(Some(previous), key), next.vals[key]) then
          [Text(key)] + (DeltaOps(Member(Some(previous), key), next.vals[key], Member(before, key))
                         + MemberDeltaOps(previous, next, before, i + 1))
        else MemberDeltaOps(previous, next, before, i + 1)
  {
    hide DeltaOps, Changed;
    if i < |next.keys| {
      var key := next.keys[i];
      assert key in next.keys;
      var rest := MemberDeltaOps(previous, next, before, i + 1);
      assert [] + rest == rest;
      var step := DeltaOps(Member(Some(previous), key), next.vals[key], Member(before, key));
      assert [Text(key)] + step + rest == [Text(key)] + (step + rest);
    }
  }

  lemma {:induction false} SparseIsListed(previous: Value, next: Value, before: Option<Value>, i: nat)
    requires WellFormed(next) && next.Arr? && i <= |next.items|
    ensures InRange(next, ChangedIndexes(previous, next, i))
    ensures SparseOps(previous, next, before, i)
      == ListedItems(previous, next, before, ChangedIndexes(previous, next, i))
    decreases |next.items| - i
  {
    hide *;
    ChangedIndexesFacts(previous, next, i);
    ChangedIndexesStep(previous, next, i);
    SparseOpsStep(previous, next, before, i);
    var indexes := ChangedIndexes(previous, next, i);
    ListedItemsStep(previous, next, before, indexes, 0);
    WholeSlice(indexes);
    if i < |next.items| {
      SparseIsListed(previous, next, before, i + 1);
    }
  }

  lemma WholeSlice<T>(s: seq<T>)
    ensures s[0..] == s
    ensures forall head: T, tail: seq<T> :: s == [head] + tail ==> s[1..] == tail
  {
  }

  lemma {:induction false} MembersAreListed(previous: Value, next: Value, before: Option<Value>, i: nat)
    requires WellFormed(next) && next.Obj? && i <= |next.keys|
    ensures Ordered(next.keys, next.vals) && AreKeys(next, ChangedKeys(previous, next, i))
    ensures MemberDeltaOps(previous, next, before, i)
      == ListedMembers(previous, next, before, ChangedKeys(previous, next, i))
    decreases |next.keys| - i
  {
    hide *;
    MemberDeltaOpsStep(previous, next, before, i);
    ChangedKeysFacts(previous, next, i);
    ChangedKeysStep(previous, next, i);
    var keys := ChangedKeys(previous, next, i);
    ListedMembersStep(previous, next, before, keys, 0);
    WholeSlice(keys);
    if i < |next.keys| {
      MembersAreListed(previous, next, before, i + 1);
    }
  }

  // ----- deltas -----

  ghost function ArrayOps(previous: Value, next: Value, before: Option<Value>): seq<Op>
    requires WellFormed(next) && next.Arr? && previous.Arr?
  {
    if Dense(previous, next) then [Byte(DELTA_DENSE_ARRAY)] + DenseOps(previous, next, before, 0)
    else
      [Byte(DELTA_ARRAY)]
      + ([Varuint(|next.items|)] + ([Varuint(ChangedItems(previous, next, 0))] + SparseOps(previous, next, before, 0)))
  }

  ghost function ObjectOps(previous: Value, next: Value, before: Option<Value>): seq<Op>
    requires WellFormed(next) && next.Obj? && previous.Obj?
  {
    var deleted := Deleted(previous.keys, next.vals);
    [Byte(DELTA_OBJECT)] + ([Varuint(|deleted|)] + (TextOps(deleted)
      + ([Varuint(ChangedMembers(previous, next, 0))] + MemberDeltaOps(previous, next, before, 0))))
  }

  lemma DeltaOpsShape(previous: Option<Value>, next: Value, before: Option<Value>)
    requires WellFormed(next) && WellFormedOption(previous)
    ensures DeltaOps(previous, next, before) ==
      if !Changed(previous, next) then [Byte(DELTA_SAME)]
      else if previous.Some? && previous.value.Num?
        && next.Num? then NumberDeltaOps(previous.value.bits, next.bits, NumberOf(before))
      else if previous.Some? && previous.value.Arr? && next.Arr? then
        if FloatArrays(previous.value, next) then FloatArrayOps(previous.value, next, before)
          else ArrayOps(previous.value, next, before)
      else if previous.Some? && previous.value.Obj? && next.Obj? then ObjectOps(previous.value, next, before)
      else [Byte(DELTA_REPLACE)] + ValueOps(next)
    ensures Changed(previous, next) && previous.Some? && previous.value.Num? && next.Num? ==>
      previous.value.bits != next.bits
  {
    hide FloatArrays, Dense, SparseOps, DenseOps, MemberDeltaOps, ValueOps, NumberDeltaOps, FloatArrayOps, TextOps,
      Deleted;
    if Changed(previous, next) && previous.Some? {
      if previous.value.Arr? && next.Arr? {
        if !FloatArrays(previous.value, next) && !Dense(previous.value, next) {
          ThreeThen(Byte(DELTA_ARRAY), Varuint(|next.items|), Varuint(ChangedItems(previous.value, next, 0)),
                    SparseOps(previous.value, next, before, 0));
        }
      } else if previous.value.Obj? && next.Obj? {
        var deleted := Deleted(previous.value.keys, next.vals);
        TwoThen(Byte(DELTA_OBJECT), Varuint(|deleted|), TextOps(deleted),
                [Varuint(ChangedMembers(previous.value, next, 0))] + MemberDeltaOps(previous.value, next, before, 0));
      }
    }
  }

  lemma ThreeThen(a: Op, b: Op, c: Op, rest: seq<Op>)
    ensures [a, b, c] + rest == [a] + ([b] + ([c] + rest))
  {
  }

  lemma DenseOpsStep(previous: Value, next: Value, before: Option<Value>, i: nat)
    requires WellFormed(next) && next.Arr? && i <= |next.items|
    ensures i == |next.items| ==> DenseOps(previous, next, before, i) == []
    ensures i < |next.items| ==>
      && WellFormed(next.items[i])
      && DenseOps(previous, next, before, i)
        == DeltaOps(Element(Some(previous), i), next.items[i], Element(before, i))
          + DenseOps(previous, next, before, i + 1)
  {
  }

  lemma TextOpsStep(keys: seq<string>, i: nat)
    requires i <= |keys|
    ensures i == |keys| ==> TextOps(keys[i..]) == []
    ensures i < |keys| ==> TextOps(keys[i..]) == [Text(keys[i])] + TextOps(keys[i + 1..])
  {
    if i < |keys| {
      assert keys[i..][1..] == keys[i + 1..];
    }
  }

  method FindChangedIndexes(previous: Value, next: Value) returns (changed: seq<nat>)
    requires previous.Arr? && next.Arr?
    ensures changed == ChangedIndexes(previous, next, 0)
  {
    hide *;
    changed := [];
    for i := 0 to |next.items|
      invariant changed + ChangedIndexes(previous, next, i) == ChangedIndexes(previous, next, 0)
    {
      ChangedIndexesStep(previous, next, i);
      if Changed(Element(Some(previous), i), next.items[i]) {
        changed := changed + [i];
      }
    }
    ChangedIndexesStep(previous, next, |next.items|);
  }

  method FindChangedKeys(previous: Value, next: Value) returns (changed: seq<string>)
    requires previous.Obj? && next.Obj? && Ordered(next.keys, next.vals)
    ensures changed == ChangedKeys(previous, next, 0)
  {
    hide *;
    changed := [];
    for i := 0 to |next.keys|
      invariant changed + ChangedKeys(previous, next, i) == ChangedKeys(previous, next, 0)
    {
      ChangedKeysStep(previous, next, i);
      if Changed(Member(Some(previous), next.keys[i]), next.vals[next.keys[i]]) {
        changed := changed + [next.keys[i]];
      }
    }
    ChangedKeysStep(previous, next, |next.keys|);
  }

  lemma ChangedCount(previous: Value, next: Value)
    requires WellFormed(next)
    ensures next.Arr? ==> |ChangedIndexes(previous, next, 0)| == ChangedItems(previous, next, 0)
    ensures next.Arr? && previous.Arr? ==>
      (Dense(previous, next) <==>
       |previous.items| == |next.items| && |ChangedIndexes(previous, next, 0)| > |next.items| / 2)
    ensures next.Obj? ==>
      && Ordered(next.keys, next.vals)
      && |ChangedKeys(previous, next, 0)| == ChangedMembers(previous, next, 0)
  {
    if next.Arr? {
      ChangedIndexesFacts(previous, next, 0);
    }
    if next.Obj? {
      ChangedKeysFacts(previous, next, 0);
    }
  }

  lemma WellFormedParts(v: Value)
    requires WellFormed(v)
    ensures forall i :: WellFormedOption(Element(Some(v), i))
    ensures forall key :: WellFormedOption(Member(Some(v), key))
  {
  }

  lemma SomeWellFormed(v: Option<Value>)
    ensures WellFormedOption(v) <==> v.None? || WellFormed(v.value)
  {
  }

  method WriteTexts(writer: BinaryWriter, keys: seq<string>, ghost rest: seq<Op>, ghost goal: seq<Op>)
    returns (a: Attempt)
    requires writer.Valid() && writer.calls + (TextOps(keys) + rest) == goal
    modifies writer
    ensures writer.Valid()
    ensures a.Done? ==> writer.calls + rest == goal
    ensures a.Raised? ==> !Safe([], goal)
  {
    hide *;
    assert keys[0..] == keys;
    for i := 0 to |keys|
      invariant writer.Valid() && writer.calls + (TextOps(keys[i..]) + rest) == goal
    {
      TextOpsStep(keys, i);
      assert [Text(keys[i])] + TextOps(keys[i + 1..]) + rest == [Text(keys[i])] + (TextOps(keys[i + 1..]) + rest);
      Next(writer.calls, [Text(keys[i])], TextOps(keys[i + 1..]) + rest, goal);
      a := writer.String(keys[i]);
      if a.Raised? {
        return;
      }
    }
    TextOpsStep(keys, |keys|);
    assert [] + rest == rest;
    return Done;
  }

  method WriteDelta(writer: BinaryWriter, previous: Option<Value>, next: Value, before: Option<Value>)
    returns (a: Attempt)
    requires writer.Valid() && WellFormed(next) && WellFormedOption(previous)
    modifies writer
    ensures writer.Valid()
    ensures a.Done? ==> writer.calls == old(writer.calls) + DeltaOps(previous, next, before)
    ensures a.Raised? ==> !Safe([], old(writer.calls) + DeltaOps(previous, next, before))
    decreases next, 2
  {
    hide *;
    DeltaOpsShape(previous, next, before);
    SomeWellFormed(previous);
    ghost var goal := writer.calls + DeltaOps(previous, next, before);
    if !Changed(previous, next) {
      writer.Byte(DELTA_SAME);
      a := Done;
    } else if previous.Some? && previous.value.Num? && next.Num? {
      a := WriteNumberDelta(writer, previous.value.bits, next.bits, NumberOf(before));
    } else if previous.Some? && previous.value.Arr? && next.Arr? {
      if FloatArrays(previous.value, next) {
        a := WriteFloats(writer, previous.value, next, before);
      } else {
        a := WriteItemDeltas(writer, previous.value, next, before, goal);
      }
    } else if previous.Some? && previous.value.Obj? && next.Obj? {
      a := WriteMemberDeltas(writer, previous.value, next, before, goal);
    } else {
      Next(writer.calls, [Byte(DELTA_REPLACE)], ValueOps(next), goal);
      writer.Byte(DELTA_REPLACE);
      a := WriteValue(writer, next);
    }
  }

  method WriteItemDeltas(writer: BinaryWriter, previous: Value, next: Value, before: Option<Value>,
                         ghost goal: seq<Op>) returns (a: Attempt)
    requires writer.Valid() && WellFormed(next) && WellFormed(previous) && previous.Arr? && next.Arr?
    requires writer.calls + ArrayOps(previous, next, before) == goal
    modifies writer
    ensures writer.Valid()
    ensures a.Done? ==> writer.calls == goal
    ensures a.Raised? ==> !Safe([], goal)
    decreases next, 1
  {
    ArrayOpsShape(previous, next, before);
    hide *;
    ChangedCount(previous, next);
    var changed := FindChangedIndexes(previous, next);
    if |previous.items| == |next.items| && |changed| > |next.items| / 2 {
      Next(writer.calls, [Byte(DELTA_DENSE_ARRAY)], DenseOps(previous, next, before, 0), goal);
      writer.Byte(DELTA_DENSE_ARRAY);
      a := WriteDense(writer, previous, next, before, goal);
    } else {
      SparseIsListed(previous, next, before, 0);
      Next(writer.calls, [Byte(DELTA_ARRAY)],
           [Varuint(|next.items|)] + ([Varuint(|changed|)] + SparseOps(previous, next, before, 0)), goal);
      writer.Byte(DELTA_ARRAY);
      Next(writer.calls, [Varuint(|next.items|)], [Varuint(|changed|)] + SparseOps(previous, next, before, 0), goal);
      a := writer.Varuint(|next.items|);
      if a.Raised? {
        return;
      }
      Next(writer.calls, [Varuint(|changed|)], SparseOps(previous, next, before, 0), goal);
      a := writer.Varuint(|changed|);
      if a.Raised? {
        return;
      }
      a := WriteListedItems(writer, previous, next, before, changed, goal);
    }
  }

  method WriteDense(writer: BinaryWriter, previous: Value, next: Value, before: Option<Value>, ghost goal: seq<Op>)
    returns (a: Attempt)
    requires writer.Valid() && WellFormed(next) && WellFormed(previous) && next.Arr?
    requires writer.calls + DenseOps(previous, next, before, 0) == goal
    modifies writer
    ensures writer.Valid()
    ensures a.Done? ==> writer.calls == goal
    ensures a.Raised? ==> !Safe([], goal)
    decreases next, 0
  {
    hide *;
    WellFormedParts(previous);
    for i := 0 to |next.items|
      invariant writer.Valid() && writer.calls + DenseOps(previous, next, before, i) == goal
    {
      DenseOpsStep(previous, next, before, i);
      Next(writer.calls, DeltaOps(Element(Some(previous), i), next.items[i], Element(before, i)),
           DenseOps(previous, next, before, i + 1), goal);
      a := WriteDelta(writer, Element(Some(previous), i), next.items[i], Element(before, i));
      if a.Raised? {
        return;
      }
    }
    DenseOpsStep(previous, next, before, |next.items|);
    Last(writer.calls, goal);
    return Done;
  }

  method WriteListedItems(writer: BinaryWriter, previous: Value, next: Value, before: Option<Value>,
                          indexes: seq<nat>, ghost goal: seq<Op>) returns (a: Attempt)
    requires writer.Valid() && WellFormed(next) && WellFormed(previous) && next.Arr? && InRange(next, indexes)
    requires writer.calls + ListedItems(previous, next, before, indexes) == goal
    modifies writer
    ensures writer.Valid()
    ensures a.Done? ==> writer.calls == goal
    ensures a.Raised? ==> !Safe([], goal)
    decreases next, 0
  {
    hide *;
    WellFormedParts(previous);
    assert indexes[0..] == indexes;
    for j := 0 to |indexes|
      invariant writer.Valid() && InRange(next, indexes[j..])
      invariant writer.calls + ListedItems(previous, next, before, indexes[j..]) == goal
    {
      ListedItemsStep(previous, next, before, indexes, j);
      var i := indexes[j];
      ghost var step, rest :=
        DeltaOps(Element(Some(previous), i), next.items[i], Element(before, i)),
        ListedItems(previous, next, before, indexes[j + 1..]);
      Next(writer.calls, [Varuint(i)], step + rest, goal);
      a := writer.Varuint(i);
      if a.Raised? {
        return;
      }
      Next(writer.calls, step, rest, goal);
      a := WriteDelta(writer, Element(Some(previous), i), next.items[i], Element(before, i));
      if a.Raised? {
        return;
      }
    }
    ListedItemsStep(previous, next, before, indexes, |indexes|);
    Last(writer.calls, goal);
    return Done;
  }

  lemma ArrayOpsShape(previous: Value, next: Value, before: Option<Value>)
    requires WellFormed(next) && next.Arr? && previous.Arr?
    ensures ArrayOps(previous, next, before) ==
      if Dense(previous, next) then [Byte(DELTA_DENSE_ARRAY)] + DenseOps(previous, next, before, 0)
      else
        [Byte(DELTA_ARRAY)]
        + ([Varuint(|next.items|)]
           + ([Varuint(ChangedItems(previous, next, 0))] + SparseOps(previous, next, before, 0)))
  {
  }

  lemma ObjectOpsParts(previous: Value, next: Value, before: Option<Value>)
    requires WellFormed(next) && next.Obj? && previous.Obj?
    ensures Ordered(next.keys, next.vals)
    ensures
      var deleted := Deleted(previous.keys, next.vals);
      ObjectOps(previous, next, before) == [Byte(DELTA_OBJECT)] + ([Varuint(|deleted|)] + (TextOps(deleted)
        + ([Varuint(ChangedMembers(previous, next, 0))] + MemberDeltaOps(previous, next, before, 0))))
  {
  }

  /** The deletions and the two counts, up to the changed members themselves. */
  method WriteObjectHead(writer: BinaryWriter, deleted: seq<string>, count: nat, ghost members: seq<Op>,
                         ghost goal: seq<Op>) returns (a: Attempt)
    requires writer.Valid()
    requires writer.calls + ([Byte(DELTA_OBJECT)]
                             + ([Varuint(|deleted|)] + (TextOps(deleted) + ([Varuint(count)] + members)))) == goal
    modifies writer
    ensures writer.Valid()
    ensures a.Done? ==> writer.calls + members == goal
    ensures a.Raised? ==> !Safe([], goal)
  {
    hide *;
    Next(writer.calls, [Byte(DELTA_OBJECT)], [Varuint(|deleted|)] + (TextOps(deleted) + ([Varuint(count)] + members)),
         goal);
    writer.Byte(DELTA_OBJECT);
    Next(writer.calls, [Varuint(|deleted|)], TextOps(deleted) + ([Varuint(count)] + members), goal);
    a := writer.Varuint(|deleted|);
    if a.Raised? {
      return;
    }
    a := WriteTexts(writer, deleted, [Varuint(count)] + members, goal);
    if a.Raised? {
      return;
    }
    Next(writer.calls, [Varuint(count)], members, goal);
    a := writer.Varuint(count);
  }

  method WriteMemberDeltas(writer: BinaryWriter, previous: Value, next: Value, before: Option<Value>,
                           ghost goal: seq<Op>) returns (a: Attempt)
    requires writer.Valid() && WellFormed(next) && WellFormed(previous) && previous.Obj? && next.Obj?
    requires writer.calls + ObjectOps(previous, next, before) == goal
    modifies writer
    ensures writer.Valid()
    ensures a.Done? ==> writer.calls == goal
    ensures a.Raised? ==> !Safe([], goal)
    decreases next, 1
  {
    hide *;
    ObjectOpsParts(previous, next, before);
    ChangedCount(previous, next);
    MembersAreListed(previous, next, before, 0);
    var deleted := Deleted(previous.keys, next.vals);
    var changed := FindChangedKeys(previous, next);
    a := WriteObjectHead(writer, deleted, |changed|, ListedMembers(previous, next, before, changed), goal);
    if a.Raised? {
      return;
    }
    a := WriteListedMembers(writer, previous, next, before, changed, goal);
  }

  method WriteListedMembers(writer: BinaryWriter, previous: Value, next: Value, before: Option<Value>,
                            keys: seq<string>, ghost goal: seq<Op>) returns (a: Attempt)
    requires writer.Valid() && WellFormed(next) && WellFormed(previous) && next.Obj? && AreKeys(next, keys)
    requires writer.calls + ListedMembers(previous, next, before, keys) == goal
    modifies writer
    ensures writer.Valid()
    ensures a.Done? ==> writer.calls == goal
    ensures a.Raised? ==> !Safe([], goal)
    decreases next, 0
  {
    hide *;
    WellFormedParts(previous);
    assert keys[0..] == keys;
    for j := 0 to |keys|
      invariant writer.Valid() && AreKeys(next, keys[j..])
      invariant writer.calls + ListedMembers(previous, next, before, keys[j..]) == goal
    {
      ListedMembersStep(previous, next, before, keys, j);
      var key := keys[j];
      ghost var step, rest :=
        DeltaOps(Member(Some(previous), key), next.vals[key], Member(before, key)),
        ListedMembers(previous, next, before, keys[j + 1..]);
      Next(writer.calls, [Text(key)], step + rest, goal);
      a := writer.String(key);
      if a.Raised? {
        return;
      }
      Next(writer.calls, step, rest, goal);
      a := WriteDelta(writer, Member(Some(previous), key), next.vals[key], Member(before, key));
      if a.Raised? {
        return;
      }
    }
    ListedMembersStep(previous, next, before, keys, |keys|);
    Last(writer.calls, goal);
    return Done;
  }
}
