/** Number patches, one at a time and in dense float32 arrays, are undone exactly. */
module NumberRoundTrip {
  import opened Base
  import opened Floats
  import opened Values
  import opened Wire
  import opened Packing
  import opened Residuals
  import opened Delta
  import opened Decode
  import opened ValueRoundTrip

  // ----- integer differences -----

  lemma IntegerDifferenceUndone(previous: F64, next: F64, r: Reader, r1: Reader)
    requires IntegerDelta(previous, next)
    requires ReadVaruint(r) == Ok((ZigZag(ToInt(Minus(next, previous))), r1))
    ensures ReadIntegerDifference(r, Some(Num(previous))) == Ok((Num(next), r1))
  {
    DifferenceGuardExact(next, previous, HALF_SAFE);
    UnZigZagInverts(ToInt(Minus(next, previous)));
    FromIntToInt(next);
  }

  // ----- trimmed exclusive or -----

  /** Trimming whole zero bytes at the low end loses nothing. */
  lemma {:induction false} ZeroBytesTrimmed(x: nat, limit: nat)
    ensures Shift(Unshift(x, 8 * ZeroBytes(x, limit)), 8 * ZeroBytes(x, limit)) == x
    decreases limit
  {
    if limit > 0 && x % 256 == 0 {
      ZeroBytesTrimmed(x / 256, limit - 1);
      var k := ZeroBytes(x / 256, limit - 1);
      UnshiftByte(x, 8 * k);
      ShiftShift(Unshift(x, 8 * k + 8), 8 * k, 8);
      ByteShift(x / 256);
    }
  }

  lemma UnshiftByte(x: nat, k: nat)
    ensures Unshift(x, k + 8) == Unshift(x / 256, k)
  {
    UnshiftUnshift(x, 8, k);
    UnshiftUnshift(x, 4, 4);
    UnshiftFour(x);
    UnshiftFour(x / 16);
  }

  lemma UnshiftFour(x: nat)
    ensures Unshift(x, 4) == x / 16
  {
    assert Unshift(x / 2 / 2, 2) == Unshift(x / 2 / 2 / 2, 1);
    assert Unshift(x / 2 / 2 / 2, 1) == x / 2 / 2 / 2 / 2;
    assert Unshift(x, 4) == Unshift(x / 2, 3);
    assert Unshift(x / 2, 3) == Unshift(x / 2 / 2, 2);
  }

  lemma ByteShift(n: nat)
    ensures Shift(n, 8) == 256 * n
  {
    ShiftIsProduct(n, 8);
    Pow2Values();
  }

  /** The trimmed word fits beside its trailing zero bytes in eight bytes. */
  lemma TrimmedLength(x: nat, trailing: nat)
    requires 0 < x < 0x1_0000_0000_0000_0000 && trailing <= 7
    requires Shift(Unshift(x, 8 * trailing), 8 * trailing) == x
    ensures
      var significant := Unshift(x, 8 * trailing);
      && significant > 0
      && trailing + SignificantLength(significant) <= 8
      && significant < Pow2(8 * SignificantLength(significant))
  {
    var significant := Unshift(x, 8 * trailing);
    ShiftIsProduct(0, 8 * trailing);
    BitLenShift(significant, 8 * trailing);
    Pow2Values();
    BitLenBound(x, 64);
    BitLenBound(significant, 8 * SignificantLength(significant));
  }

  lemma DescriptorParts(trailing: nat, length: nat)
    requires trailing <= 7 && 1 <= length <= 8
    ensures XorDescriptor(trailing, length) / 16 == trailing
    ensures XorDescriptor(trailing, length) % 16 + 1 == length
  {
  }

  lemma NumberXorStep(r: Reader, previous: F64, trailing: nat, length: nat, r1: Reader, bs: seq<byte>, r2: Reader)
    requires trailing <= 7 && 1 <= length <= 8 && trailing + length <= 8
    requires ReadByte(r) == Ok((XorDescriptor(trailing, length), r1))
    requires |bs| == length && ReadBytes(r1, length) == Ok((bs, r2))
    requires previous < 0x1_0000_0000_0000_0000
    ensures
      var word := Shift(WordOf(bs), 8 * trailing);
      && Xor(previous, word) < 0x1_0000_0000_0000_0000
      && ReadNumberXor(r, Some(Num(previous))) == Ok((Num(Xor(previous, word)), r2))
  {
    DescriptorParts(trailing, length);
    ShiftedWordBound(bs, trailing);
    Xor64(previous, Shift(WordOf(bs), 8 * trailing));
  }

  lemma NumberXorUndone(previous: F64, next: F64, table: seq<string>, more: seq<Op>)
    requires previous != next && Safe(table, NumberXorOps(previous, next) + more)
    ensures ReadNumberXor(At(table, NumberXorOps(previous, next) + more), Some(Num(previous)))
         == Ok((Num(next), At(table, more)))
    ensures Table(table, NumberXorOps(previous, next)) == table
  {
    var x := Xor(previous, next);
    Xor64(previous, next);
    XorZero(previous, next);
    var trailing := ZeroBytes(x, 7);
    ZeroBytesBound(x, 7);
    ZeroBytesTrimmed(x, 7);
    TrimmedLength(x, trailing);
    var significant := Unshift(x, 8 * trailing);
    var length := SignificantLength(significant);
    var bs := LittleEndian(significant, length);
    FromLittleEndianInverts(significant, length);
    var descriptor := XorDescriptor(trailing, length);
    XorCancels(previous, next);
    hide *;
    var body := [Raw(bs)] + [];
    assert NumberXorOps(previous, next) == [Byte(descriptor)] + body by {
      NumberXorOpsShape(previous, next);
    }
    TagFirst(table, descriptor, body, more);
    RawFirst(table, bs, [], more);
    assert [] + more == more;
    NumberXorStep(At(table, NumberXorOps(previous, next) + more), previous, trailing, length,
      At(table, body + more), bs, At(table, more));
    WordIsFromLittleEndian(bs);
    EmptyTable(table);
  }

  lemma EmptyTable(table: seq<string>)
    ensures Table(table, []) == table
  {
  }

  lemma WordIsFromLittleEndian(bs: seq<byte>)
    ensures WordOf(bs) == FromLittleEndian(bs)
  {
  }

  lemma NumberXorOpsShape(previous: F64, next: F64)
    ensures
      var x := Xor(previous, next);
      var trailing := ZeroBytes(x, 7);
      var significant := Unshift(x, 8 * trailing);
      var length := SignificantLength(significant);
      && trailing <= 7 && 1 <= length <= 8
      && NumberXorOps(previous, next)
           == [Byte(XorDescriptor(trailing, length))] + ([Raw(LittleEndian(significant, length))] + [])
  {
    var x := Xor(previous, next);
    var trailing := ZeroBytes(x, 7);
    Xor64(previous, next);
    ZeroBytesBound(x, 7);
    UnshiftShrinks(x, 8 * trailing);
    SignificantLengthBound(Unshift(x, 8 * trailing));
  }

  // ----- float32 patches -----

  lemma ScalarModeFacts(before: Option<F64>, previous: F64, next: F64)
    ensures ScalarMode(before, previous, next) >= 2 ==> before.Some? && ExactF32(before.value)
  {
    if !(before.Some? && ExactF32(before.value)) {
      var candidates := ScalarCandidates(2, previous, previous, next);
      var m :| 0 <= m < 2 && candidates[m] == Cheapest(candidates);
    }
  }

  lemma PredictionIgnoresHistory(mode: Mode, a: F64, b: F64, previous: F64)
    requires mode < 2
    ensures Prediction(mode, a, previous) == Prediction(mode, b, previous)
  {
  }

  lemma FloatPatchUndone(previous: F64, next: F64, before: Option<Value>, r: Reader, r1: Reader)
    requires ExactF32(previous) && ExactF32(next)
    requires
      var history := NumberOf(before);
      var mode := ScalarMode(history, previous, next);
      ReadVaruint(r) == Ok((Residual(mode, ScalarHistory(history, previous), previous, next), r1))
    ensures
      var mode := ScalarMode(NumberOf(before), previous, next);
      ReadFloatPatch(r, mode, Some(Num(previous)), before) == Ok((Num(next), r1))
  {
    var history := NumberOf(before);
    var mode := ScalarMode(history, previous, next);
    ScalarModeFacts(history, previous, next);
    var h := ScalarHistory(history, previous);
    if mode < 2 {
      PredictionIgnoresHistory(mode, h, previous, previous);
    }
    PatchInverts(mode, Prediction(mode, h, previous), Narrow(next));
  }

  // ----- float32 arrays -----

  lemma PatchItemsStep(residuals: seq<nat>, mode: Mode, history: seq<F64>, previous: seq<F64>, i: nat, bits: U32)
    requires |history| == |previous| == |residuals| && i < |previous|
    requires Patch(mode, Prediction(mode, history[i], previous[i]), residuals[i]) == Ok(bits)
    ensures
      var rest := PatchItems(residuals, mode, history, previous, i + 1);
      rest.Ok? ==> PatchItems(residuals, mode, history, previous, i) == Ok([Num(Widen(bits))] + rest.value)
  {
  }

  /** Patching every residual of one mode restores the next array. */
  lemma {:induction false} PatchItemsUndone(mode: Mode, history: seq<F64>, previous: seq<F64>, next: seq<F64>, i: nat)
    requires |history| == |previous| == |next| && i <= |next|
    requires forall j :: 0 <= j < |next| ==> ExactF32(next[j])
    ensures PatchItems(ResidualsOf(mode, history, previous, next), mode, history, previous, i)
         == Ok(Numbers(next[i..]))
    decreases |next| - i
  {
    if i < |next| {
      PatchInverts(mode, Prediction(mode, history[i], previous[i]), Narrow(next[i]));
      assert Numbers(next[i..]) == [Num(next[i])] + Numbers(next[i + 1..]);
      var residuals := ResidualsOf(mode, history, previous, next);
      assert residuals[i] == ResidualFrom(mode, Prediction(mode, history[i], previous[i]), Narrow(next[i]));
      assert Widen(Narrow(next[i])) == next[i];
      hide *;
      PatchItemsUndone(mode, history, previous, next, i + 1);
      PatchItemsStep(residuals, mode, history, previous, i, Narrow(next[i]));
    } else {
      assert Numbers(next[i..]) == [];
    }
  }

  function Numbers(bits: seq<F64>): (items: seq<Value>)
    ensures |items| == |bits| && forall i :: 0 <= i < |bits| ==> items[i] == Num(bits[i])
  {
    seq(|bits|, i requires 0 <= i < |bits| => Num(bits[i]))
  }

  lemma NumbersOfBits(v: Value)
    requires ExactArray(v)
    ensures Arr(Numbers(BitsOf(v))) == v
    ensures forall j :: 0 <= j < |v.items| ==> ExactF32(BitsOf(v)[j])
  {
    forall j | 0 <= j < |v.items| ensures Exact(v.items[j]) && Numbers(BitsOf(v))[j] == v.items[j] {
    }
    assert Numbers(BitsOf(v)) == v.items;
  }

  lemma ReadFloatItemsStep(r: Reader, mode: Mode, history: seq<F64>, previous: seq<F64>, i: nat, n: nat, r1: Reader,
                           bits: U32)
    requires |history| == |previous| && i < |previous|
    requires ReadVaruint(r) == Ok((n, r1))
    requires Patch(mode, Prediction(mode, history[i], previous[i]), n) == Ok(bits)
    ensures
      var rest := ReadFloatItems(r1, mode, history, previous, i + 1);
      rest.Ok? ==>
        ReadFloatItems(r, mode, history, previous, i) == Ok(([Num(Widen(bits))] + rest.value.0, rest.value.1))
  {
  }

  lemma FloatItemsShape(mode: Mode, history: seq<F64>, previous: seq<F64>, next: seq<F64>, i: nat, more: seq<Op>)
    requires |history| == |previous| == |next| && i <= |next|
    requires forall j :: 0 <= j < |next| ==> ExactF32(next[j])
    ensures
      var residuals := ResidualsOf(mode, history, previous, next);
      if i == |next| then VaruintOps(residuals[i..]) + more == more && Numbers(next[i..]) == []
      else
        && VaruintOps(residuals[i..]) == [Varuint(residuals[i])] + VaruintOps(residuals[i + 1..])
        && Numbers(next[i..]) == [Num(Widen(Narrow(next[i])))] + Numbers(next[i + 1..])
        && Patch(mode, Prediction(mode, history[i], previous[i]), residuals[i]) == Ok(Narrow(next[i]))
  {
    hide Narrow, Widen, Prediction, Patch, ResidualFrom;
    var residuals := ResidualsOf(mode, history, previous, next);
    if i == |next| {
      assert residuals[i..] == [];
      assert [] + more == more;
    } else {
      assert residuals[i..][1..] == residuals[i + 1..];
      PatchInverts(mode, Prediction(mode, history[i], previous[i]), Narrow(next[i]));
      assert Numbers(next[i..]) == [Num(next[i])] + Numbers(next[i + 1..]);
      assert ExactF32(next[i]);
    }
  }

  lemma FloatItemsRead(mode: Mode, history: seq<F64>, previous: seq<F64>, r: Reader)
    requires |history| == |previous|
    ensures ReadFloatItems(r, mode, history, previous, |previous|) == Ok(([], r))
  {
  }

  lemma {:induction false} ReadFloatItemsUndone(mode: Mode, history: seq<F64>, previous: seq<F64>, next: seq<F64>,
      i: nat, table: seq<string>, more: seq<Op>)
    requires |history| == |previous| == |next| && i <= |next|
    requires forall j :: 0 <= j < |next| ==> ExactF32(next[j])
    requires Safe(table, VaruintOps(ResidualsOf(mode, history, previous, next)[i..]) + more)
    ensures ReadFloatItems(At(table, VaruintOps(ResidualsOf(mode, history, previous, next)[i..]) + more), mode,
                           history, previous, i)
         == Ok((Numbers(next[i..]), At(table, more)))
    decreases |next| - i
  {
    hide *;
    FloatItemsShape(mode, history, previous, next, i, more);
    if i < |next| {
      var residuals := ResidualsOf(mode, history, previous, next);
      var tail := VaruintOps(residuals[i + 1..]);
      CountFirst(table, residuals[i], tail, more);
      ReadFloatItemsUndone(mode, history, previous, next, i + 1, table, more);
      ReadFloatItemsStep(At(table, VaruintOps(residuals[i..]) + more), mode, history, previous, i, residuals[i],
        At(table, tail + more), Narrow(next[i]));
    } else {
      FloatItemsRead(mode, history, previous, At(table, more));
    }
  }
}
