/** Where the Python encoder narrows a number, it raises on one beyond the binary32 range. The
    writers of numbers and values with those failures, and exactly when they occur. */
module PythonNarrowing {
  import opened Base
  import opened Floats
  import opened Values
  import opened Wire
  import opened Packing
  import opened Residuals
  import opened Delta

  // ----- narrowing -----

  /** The bits of a packed number; packing raises beyond the binary32 range. */
  function Narrowed(x: F64): Option<U32> {
    if Narrowable(x) then Some(Narrow(x)) else None
  }

  /** Whether a value is an exact binary32 number; none when finding out raises. */
  function ExactTest(v: Value): Option<bool> {
    if !v.Num? || !Finite(v.bits) then Some(false)
    else
      match Narrowed(v.bits)
      case None => None
      case Some(u) => Some(Widen(u) == v.bits)
  }

  /** The test of one item after another, up to the first that is not exact. */
  function AllExactTest(items: seq<Value>, i: nat): Option<bool>
    requires i <= |items|
    decreases |items| - i
  {
    if i == |items| then Some(true)
    else
      match ExactTest(items[i])
      case None => None
      case Some(exact) => if exact then AllExactTest(items, i + 1) else Some(false)
  }

  /** A number that narrowing raises on. */
  predicate Raising(v: Value) {
    v.Num? && Finite(v.bits) && !Narrowable(v.bits)
  }

  /** No item up to the first inexact one raises. */
  predicate ScanNarrows(items: seq<Value>, i: nat) {
    forall j :: i <= j < |items| && (forall k :: i <= k < j ==> Exact(items[k])) ==> !Raising(items[j])
  }

  lemma ExactNarrows(x: F64)
    requires ExactF32(x)
    ensures Narrowable(x)
  {
    hide Round, Floats.Unpack, Narrow;
  }

  lemma ExactTestIs(v: Value)
    ensures ExactTest(v) == if Raising(v) then None else Some(Exact(v))
    ensures Exact(v) ==> !Raising(v)
  {
    if v.Num? && ExactF32(v.bits) {
      ExactNarrows(v.bits);
    }
    hide Narrow, Widen, Narrowable;
  }

  lemma {:induction false} AllExactTestIs(items: seq<Value>, i: nat)
    requires i <= |items|
    ensures AllExactTest(items, i) ==
      if ScanNarrows(items, i) then Some(forall j :: i <= j < |items| ==> Exact(items[j])) else None
    decreases |items| - i
  {
    if i < |items| {
      ExactTestIs(items[i]);
      ScanStep(items, i);
      hide Exact, Raising, ExactTest, ScanNarrows;
      if Exact(items[i]) {
        AllExactTestIs(items, i + 1);
      }
    }
  }

  lemma ScanStep(items: seq<Value>, i: nat)
    requires i < |items|
    ensures ScanNarrows(items, i) <==> !Raising(items[i]) && (Exact(items[i]) ==> ScanNarrows(items, i + 1))
  {
    hide Exact, Raising;
    if ScanNarrows(items, i) && Exact(items[i]) {
      forall j | i + 1 <= j < |items| && (forall k :: i + 1 <= k < j ==> Exact(items[k])) ensures !Raising(items[j]) {
        assert forall k :: i <= k < j ==> Exact(items[k]);
      }
    }
    if !Raising(items[i]) && (Exact(items[i]) ==> ScanNarrows(items, i + 1)) {
      forall j | i <= j < |items| && (forall k :: i <= k < j ==> Exact(items[k])) ensures !Raising(items[j]) {
        if j > i {
          assert Exact(items[i]);
        }
      }
    }
  }

  // ----- whole values -----

  predicate NumberWritable(bits: F64) {
    SafeInteger(bits) || !Raising(Num(bits))
  }

  /** No number of the value raises when it is written. */
  predicate Writable(v: Value) {
    match v
    case Num(bits) => NumberWritable(bits)
    case Arr(items) => forall i :: 0 <= i < |items| ==> Writable(items[i])
    case Obj(_, vals) => forall k :: k in vals ==> Writable(vals[k])
    case _ => true
  }

  function Then(a: Option<seq<Op>>, b: Option<seq<Op>>): Option<seq<Op>> {
    if a.Some? && b.Some? then Some(a.value + b.value) else None
  }

  function WriteNumber(bits: F64): Option<seq<Op>> {
    if SafeInteger(bits) then
      Some([Byte(VALUE_INTEGER), Byte(if ToInt(bits) < 0 then 1 else 0), Varuint(Abs(ToInt(bits)))])
    else
      match ExactTest(Num(bits))
      case None => None
      case Some(exact) =>
        if exact && !NegativeZero(bits) then Some([Byte(VALUE_FLOAT32), Raw(LittleEndian(Narrow(bits), 4))])
        else Some([Byte(VALUE_FLOAT64), Raw(LittleEndian(bits, 8))])
  }

  ghost function WriteValue(v: Value): Option<seq<Op>>
    requires WellFormed(v)
    decreases v, 1, 0
  {
    match v
    case Null => Some([Byte(VALUE_NULL)])
    case Bool(b) => Some([Byte(if b then VALUE_TRUE else VALUE_FALSE)])
    case Num(bits) => WriteNumber(bits)
    case Str(text) => Some([Byte(VALUE_STRING), Text(text)])
    case Arr(items) => Then(Some([Byte(VALUE_ARRAY), Varuint(|items|)]), WriteValueItems(v, 0))
    case Obj(keys, vals) => Then(Some([Byte(VALUE_OBJECT), Varuint(|keys|)]), WriteValueMembers(v, 0))
  }

  ghost function WriteValueItems(v: Value, i: nat): Option<seq<Op>>
    requires WellFormed(v) && v.Arr? && i <= |v.items|
    decreases v, 0, |v.items| - i
  {
    if i == |v.items| then Some([]) else Then(WriteValue(v.items[i]), WriteValueItems(v, i + 1))
  }

  ghost function WriteValueMembers(v: Value, i: nat): Option<seq<Op>>
    requires WellFormed(v) && v.Obj? && i <= |v.keys|
    decreases v, 0, |v.keys| - i
  {
    if i == |v.keys| then Some([])
    else Then(Then(Some([Text(v.keys[i])]), WriteValue(v.vals[v.keys[i]])), WriteValueMembers(v, i + 1))
  }

  lemma NumberCalls(bits: F64)
    requires Finite(bits)
    ensures WriteNumber(bits) == if NumberWritable(bits) then Some(NumberOps(bits)) else None
  {
    ExactTestIs(Num(bits));
    hide Narrow, Widen, Narrowable, ExactTest, ExactF32, LittleEndian, SafeInteger;
  }

  /** Writing a value makes the calls of its encoding, or raises exactly on a number that is no
      safe integer and lies beyond the binary32 range. */
  lemma {:induction false} ValueWritten(v: Value)
    requires WellFormed(v)
    ensures WriteValue(v) == if Writable(v) then Some(ValueOps(v)) else None
    decreases v, 1, 0
  {
    match v
    case Num(bits) =>
      NumberCalls(bits);
    case Arr(items) =>
      ItemsWritten(v, 0);
    case Obj(_, _) =>
      MembersWritten(v, 0);
      MembersWritable(v);
    case _ =>
  }

  lemma {:induction false} ItemsWritten(v: Value, i: nat)
    requires WellFormed(v) && v.Arr? && i <= |v.items|
    ensures WriteValueItems(v, i) == if forall j :: i <= j < |v.items| ==>
      Writable(v.items[j]) then Some(ItemOps(v, i)) else None
    decreases v, 0, |v.items| - i
  {
    if i < |v.items| {
      ValueWritten(v.items[i]);
      ItemsWritten(v, i + 1);
    }
  }

  lemma {:induction false} MembersWritten(v: Value, i: nat)
    requires WellFormed(v) && v.Obj? && i <= |v.keys|
    ensures WriteValueMembers(v, i) == if MembersFrom(v, i) then Some(MemberOps(v, i)) else None
    decreases v, 0, |v.keys| - i
  {
    if i < |v.keys| {
      assert v.keys[i] in v.vals;
      ValueWritten(v.vals[v.keys[i]]);
      MembersFromStep(v, i);
      hide Writable, MembersFrom, MemberWritable;
      MembersWritten(v, i + 1);
    }
  }

  predicate MembersFrom(v: Value, i: nat)
    requires v.Obj?
  {
    forall j :: i <= j < |v.keys| ==> MemberWritable(v, j)
  }

  lemma MembersFromStep(v: Value, i: nat)
    requires WellFormed(v) && v.Obj? && i < |v.keys|
    ensures v.keys[i] in v.vals
    ensures MembersFrom(v, i) <==> Writable(v.vals[v.keys[i]]) && MembersFrom(v, i + 1)
  {
    hide Writable;
    assert v.keys[i] in v.keys;
    assert MemberWritable(v, i) <==> Writable(v.vals[v.keys[i]]);
  }

  predicate MemberWritable(v: Value, j: nat)
    requires v.Obj? && j < |v.keys|
  {
    v.keys[j] in v.vals && Writable(v.vals[v.keys[j]])
  }

  lemma MembersWritable(v: Value)
    requires WellFormed(v) && v.Obj?
    ensures Writable(v) <==> MembersFrom(v, 0)
  {
    if MembersFrom(v, 0) {
      forall k | k in v.vals ensures Writable(v.vals[k]) {
        assert k in v.keys;
        var j :| 0 <= j < |v.keys| && v.keys[j] == k;
        assert MemberWritable(v, j);
      }
    }
    if Writable(v) {
      forall j | 0 <= j < |v.keys| ensures MemberWritable(v, j) {
        assert v.keys[j] in v.keys;
      }
    }
  }

  // ----- numbers after numbers -----

  /** Nothing narrowed on the way to a number delta raises: the previous number, the next one if
      that is exact, the older one if both are, and what it extrapolates to if all three are. */
  predicate NumberNarrows(previous: F64, next: F64, before: Option<Value>) {
    || IntegerDelta(previous, next)
    || (!Raising(Num(previous))
        && (ExactF32(previous) ==>
              !Raising(Num(next))
              && (ExactF32(next) && before.Some? ==>
                    !Raising(before.value)
                    && (Exact(before.value) ==> Narrowable(Extrapolated(before.value.bits, previous))))))
  }

  /** The test of the older number; a missing one is not exact. */
  function HistoryTest(before: Option<Value>): Option<bool> {
    if before.None? then Some(false) else ExactTest(before.value)
  }

  function WriteNumberDelta(previous: F64, next: F64, before: Option<Value>): Option<seq<Op>> {
    if IntegerDelta(previous, next)
      then Some([Byte(DELTA_INTEGER_DIFFERENCE), Varuint(ZigZag(ToInt(Minus(next, previous))))])
    else
      match ExactTest(Num(previous))
      case None => None
      case Some(first) =>
        match (if first then ExactTest(Num(next)) else Some(false))
        case None => None
        case Some(both) =>
          if !both then Some([Byte(DELTA_NUMBER_XOR)] + NumberXorOps(previous, next))
          else
            match HistoryTest(before)
            case None => None
            case Some(offered) =>
              if offered && NumberOf(before).Some?
                && Narrowed(Extrapolated(NumberOf(before).value, previous)).None? then None
              else
                var mode := ScalarMode(NumberOf(before), previous, next);
                Some([Byte(ScalarTag(mode)),
                      Varuint(Residual(mode, ScalarHistory(NumberOf(before), previous), previous, next))])
  }

  lemma NumberDeltaWritten(previous: F64, next: F64, before: Option<Value>)
    requires Finite(previous) && Finite(next)
    ensures WriteNumberDelta(previous, next, before) ==
      if NumberNarrows(previous, next, before) then Some(NumberDeltaOps(previous, next, NumberOf(before))) else None
  {
    ExactTestIs(Num(previous));
    ExactTestIs(Num(next));
    if before.Some? {
      ExactTestIs(before.value);
    }
    hide Narrow, Widen, Narrowable, ExactTest, ExactF32, Raising, IntegerDelta, NumberXorOps, ScalarMode,
      ScalarHistory, Residual,
      Extrapolated, ScalarTag, ZigZag, Minus, ToInt;
  }

  // ----- float32 arrays -----

  /** What the residual is taken against, with the failure of an extrapolated value. */
  function Predicted(mode: Mode, before: F64, previous: F64): Option<U32> {
    if mode == MODE_VALUE_PREDICTION then Narrowed(Extrapolated(before, previous))
    else if Narrowed(previous).None? || (mode == MODE_BIT_PREDICTION && Narrowed(before).None?) then None
    else Some(Prediction(mode, before, previous))
  }

  /** The residuals of one mode, item by item. */
  function WriteResiduals(mode: Mode, before: seq<F64>, previous: seq<F64>, next: seq<F64>, i: nat): Option<seq<nat>>
    requires |before| == |previous| == |next| && i <= |next|
    decreases |next| - i
  {
    if i == |next| then Some([])
    else
      match Predicted(mode, before[i], previous[i])
      case None => None
      case Some(prediction) =>
        match Narrowed(next[i])
        case None => None
        case Some(bits) =>
          match WriteResiduals(mode, before, previous, next, i + 1)
          case None => None
          case Some(rest) => Some([ResidualFrom(mode, prediction, bits)] + rest)
  }

  predicate AllExactBits(bits: seq<F64>) {
    forall i :: 0 <= i < |bits| ==> ExactF32(bits[i])
  }

  /** An extrapolated value from item i on raises. */
  predicate PredictionsRaiseFrom(before: seq<F64>, previous: seq<F64>, i: nat)
    requires |before| == |previous|
  {
    exists j :: i <= j < |previous| && !Narrowable(Extrapolated(before[j], previous[j]))
  }

  lemma RaiseFromStep(before: seq<F64>, previous: seq<F64>, i: nat)
    requires |before| == |previous| && i < |previous|
    ensures PredictionsRaiseFrom(before, previous, i) <==>
      !Narrowable(Extrapolated(before[i], previous[i])) || PredictionsRaiseFrom(before, previous, i + 1)
  {
    hide Narrowable, Extrapolated;
    if !Narrowable(Extrapolated(before[i], previous[i])) {
      assert PredictionsRaiseFrom(before, previous, i);
    }
  }

  /** What is written from item i on, when nothing but an extrapolated value can raise. */
  function WrittenResiduals(mode: Mode, before: seq<F64>, previous: seq<F64>, next: seq<F64>, i: nat): Option<seq<nat>>
    requires |before| == |previous| == |next| && i <= |next|
  {
    if mode == MODE_VALUE_PREDICTION && PredictionsRaiseFrom(before, previous, i) then None
    else Some(ResidualsOf(mode, before, previous, next)[i..])
  }

  lemma ResidualsStep(mode: Mode, before: seq<F64>, previous: seq<F64>, next: seq<F64>, i: nat)
    requires |before| == |previous| == |next| && i < |next|
    requires ExactF32(before[i]) && ExactF32(previous[i]) && ExactF32(next[i])
    ensures WriteResiduals(mode, before, previous, next, i) ==
      if mode == MODE_VALUE_PREDICTION && !Narrowable(Extrapolated(before[i], previous[i])) then None
      else
        match WriteResiduals(mode, before, previous, next, i + 1)
        case None => None
        case Some(rest) => Some([ResidualsOf(mode, before, previous, next)[i]] + rest)
  {
    ExactNarrows(before[i]);
    ExactNarrows(previous[i]);
    ExactNarrows(next[i]);
    hide Narrowable, Extrapolated, ExactF32, PredictBits, ResidualFrom, Narrow;
  }

  lemma WrittenResidualsStep(mode: Mode, before: seq<F64>, previous: seq<F64>, next: seq<F64>, i: nat)
    requires |before| == |previous| == |next| && i < |next|
    ensures WrittenResiduals(mode, before, previous, next, i) ==
      if mode == MODE_VALUE_PREDICTION && !Narrowable(Extrapolated(before[i], previous[i])) then None
      else
        match WrittenResiduals(mode, before, previous, next, i + 1)
        case None => None
        case Some(rest) => Some([ResidualsOf(mode, before, previous, next)[i]] + rest)
  {
    RaiseFromStep(before, previous, i);
    TailStep(ResidualsOf(mode, before, previous, next), i);
    hide Narrowable, Extrapolated, Residual, PredictionsRaiseFrom, ResidualsOf;
  }

  lemma TailStep(all: seq<nat>, i: nat)
    requires i < |all|
    ensures all[i..] == [all[i]] + all[i + 1..]
  {
  }

  lemma ResidualsEnd(mode: Mode, before: seq<F64>, previous: seq<F64>, next: seq<F64>)
    requires |before| == |previous| == |next|
    ensures
      var n := |next|;
      WriteResiduals(mode, before, previous, next, n) == WrittenResiduals(mode, before, previous, next, n)
  {
    assert ResidualsOf(mode, before, previous, next)[|next|..] == [];
    hide Narrowable, Extrapolated, Residual, ResidualsOf;
  }

  lemma {:induction false} ResidualsWritten(mode: Mode, before: seq<F64>, previous: seq<F64>, next: seq<F64>, i: nat)
    requires |before| == |previous| == |next| && i <= |next|
    requires AllExactBits(before) && AllExactBits(previous) && AllExactBits(next)
    ensures WriteResiduals(mode, before, previous, next, i) == WrittenResiduals(mode, before, previous, next, i)
    decreases |next| - i
  {
    if i < |next| {
      hide Narrowable, Extrapolated, ExactF32, WriteResiduals, WrittenResiduals, ResidualsOf;
      ResidualsWritten(mode, before, previous, next, i + 1);
      ResidualsStep(mode, before, previous, next, i);
      WrittenResidualsStep(mode, before, previous, next, i);
    } else {
      ResidualsEnd(mode, before, previous, next);
    }
  }
}
