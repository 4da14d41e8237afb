/** Every varint the codec computes is a safe integer, so the writer can only raise on counts
    and text lengths that leave the safe range by themselves. */
module WriterRange {
  import opened Base
  import opened Floats
  import opened Utf8
  import opened Values
  import opened Wire
  import opened Residuals
  import Packing
  import opened Delta

  predicate SmallText(s: string) {
    2 * |Encode(s)| + 1 <= SAFE_INTEGER_MAX
  }

  predicate SmallOp(op: Op) {
    match op
    case Varuint(n) => n <= SAFE_INTEGER_MAX
    case Text(s) => SmallText(s)
    case _ => true
  }

  predicate AllSmall(ops: seq<Op>) {
    forall i :: 0 <= i < |ops| ==> SmallOp(ops[i])
  }

  lemma {:induction false} SmallIsSafe(table: seq<string>, ops: seq<Op>)
    requires AllSmall(ops) && |table| + |ops| <= 0x10_0000_0000_0000
    ensures Safe(table, ops)
    decreases ops
  {
    if ops != [] {
      assert SmallOp(ops[0]);
      SmallIsSafe(TableOp(table, ops[0]), ops[1..]);
    }
  }

  lemma SmallJoin(a: seq<Op>, b: seq<Op>)
    requires AllSmall(a) && AllSmall(b)
    ensures AllSmall(a + b)
  {
  }

  /** Texts and collections of representable length, at every depth. */
  predicate SmallValue(v: Value) {
    match v
    case Str(text) => SmallText(text)
    case Arr(items) => |items| <= SAFE_INTEGER_MAX && forall i :: 0 <= i < |items| ==> SmallValue(items[i])
    case Obj(keys, vals) =>
      && |keys| <= SAFE_INTEGER_MAX
      && (forall i :: 0 <= i < |keys| ==> SmallText(keys[i]))
      && (forall k :: k in vals ==> SmallValue(vals[k]))
    case _ => true
  }

  predicate SmallOption(v: Option<Value>) {
    v.Some? ==> SmallValue(v.value)
  }

  lemma {:induction false} ValueOpsSmall(v: Value)
    requires WellFormed(v) && SmallValue(v)
    ensures AllSmall(ValueOps(v))
    decreases v, 1, 0
  {
    match v
    case Arr(items) =>
      ItemOpsSmall(v, 0);
      SmallJoin([Byte(VALUE_ARRAY), Varuint(|items|)], ItemOps(v, 0));
    case Obj(keys, vals) =>
      MemberOpsSmall(v, 0);
      SmallJoin([Byte(VALUE_OBJECT), Varuint(|keys|)], MemberOps(v, 0));
    case _ =>
  }

  lemma {:induction false} ItemOpsSmall(v: Value, i: nat)
    requires WellFormed(v) && SmallValue(v) && v.Arr? && i <= |v.items|
    ensures AllSmall(ItemOps(v, i))
    decreases v, 0, |v.items| - i
  {
    if i < |v.items| {
      ValueOpsSmall(v.items[i]);
      ItemOpsSmall(v, i + 1);
      SmallJoin(ValueOps(v.items[i]), ItemOps(v, i + 1));
    }
  }

  lemma {:induction false} MemberOpsSmall(v: Value, i: nat)
    requires WellFormed(v) && SmallValue(v) && v.Obj? && i <= |v.keys|
    ensures AllSmall(MemberOps(v, i))
    decreases v, 0, |v.keys| - i
  {
    if i < |v.keys| {
      var key := v.keys[i];
      SmallMember(v, i);
      hide SmallValue, WellFormed, SmallText, Ordered;
      ValueOpsSmall(v.vals[key]);
      MemberOpsSmall(v, i + 1);
      SmallJoin([Text(key)], ValueOps(v.vals[key]));
      SmallJoin([Text(key)] + ValueOps(v.vals[key]), MemberOps(v, i + 1));
    }
  }

  lemma SmallMember(v: Value, i: nat)
    requires WellFormed(v) && SmallValue(v) && v.Obj? && i < |v.keys|
    ensures v.keys[i] in v.vals && WellFormed(v.vals[v.keys[i]]) && SmallValue(v.vals[v.keys[i]])
    ensures SmallOp(Text(v.keys[i]))
  {
    assert v.keys[i] in v.keys;
    hide SmallText;
  }

  lemma ResidualSmall(mode: Mode, before: F64, previous: F64, next: F64)
    ensures Residual(mode, before, previous, next) <= SAFE_INTEGER_MAX
  {
    ResidualBound(mode, Prediction(mode, before, previous), Narrow(next));
  }

  lemma NumberDeltaOpsSmall(previous: F64, next: F64, before: Option<F64>)
    ensures AllSmall(NumberDeltaOps(previous, next, before))
  {
    hide Round, ExactF32, Narrow, Unpack;
    if IntegerDelta(previous, next) {
      assert Abs(ToInt(Minus(next, previous))) <= HALF_SAFE;
    } else if ExactF32(previous) && ExactF32(next) {
      ResidualSmall(ScalarMode(before, previous, next), ScalarHistory(before, previous), previous, next);
    } else {
      SmallJoin([Byte(DELTA_NUMBER_XOR)], NumberXorOps(previous, next));
    }
  }

  lemma {:induction false} VaruintOpsSmall(values: seq<nat>)
    requires forall i :: 0 <= i < |values| ==> values[i] <= SAFE_INTEGER_MAX
    ensures AllSmall(VaruintOps(values))
  {
    if values != [] {
      VaruintOpsSmall(values[1..]);
      SmallJoin([Varuint(values[0])], VaruintOps(values[1..]));
    }
  }

  lemma PayloadSmall(c: Candidate, residuals: seq<nat>)
    requires Packing.Fits(residuals, 32) && c.width < 256
    ensures AllSmall(PayloadOps(c, residuals))
  {
    Pow2Values();
    VaruintOpsSmall(residuals);
  }

  lemma FloatArrayOpsSmall(previous: Value, next: Value, before: Option<Value>)
    requires FloatArrays(previous, next)
    ensures AllSmall(FloatArrayOps(previous, next, before))
  {
    var c := FloatChoice(previous, next, before);
    FloatChoiceFacts(previous, next, before);
    PayloadSmall(c, FloatResiduals(c.mode, previous, next, before));
    SmallJoin([Byte(KindOf(c))], FloatPayload(previous, next, before));
  }

  lemma {:induction false} ChangedItemsBound(previous: Value, next: Value, i: nat)
    requires next.Arr? && i <= |next.items|
    ensures ChangedItems(previous, next, i) <= |next.items| - i
    decreases |next.items| - i
  {
    if i < |next.items| {
      ChangedItemsBound(previous, next, i + 1);
    }
  }

  lemma {:induction false} ChangedMembersBound(previous: Value, next: Value, i: nat)
    requires next.Obj? && Ordered(next.keys, next.vals) && i <= |next.keys|
    ensures ChangedMembers(previous, next, i) <= |next.keys| - i
    decreases |next.keys| - i
  {
    if i < |next.keys| {
      ChangedMembersBound(previous, next, i + 1);
    }
  }

  lemma {:induction false} DeletedSmall(keys: seq<string>, next: map<string, Value>)
    requires forall i :: 0 <= i < |keys| ==> SmallText(keys[i])
    ensures |Deleted(keys, next)| <= |keys|
    ensures AllSmall(TextOps(Deleted(keys, next)))
  {
    if keys != [] {
      DeletedSmall(keys[1..], next);
      var rest := Deleted(keys[1..], next);
      if keys[0] in next {
        assert [] + rest == rest;
      } else {
        assert ([keys[0]] + rest)[1..] == rest;
        SmallJoin([Text(keys[0])], TextOps(rest));
      }
    }
  }

  lemma {:induction false} DeltaOpsSmall(previous: Option<Value>, next: Value, before: Option<Value>)
    requires WellFormed(next) && SmallValue(next) && SmallOption(previous)
    ensures AllSmall(DeltaOps(previous, next, before))
    decreases next, 1, 0
  {
    if !Changed(previous, next) {
    } else if previous.Some? && previous.value.Num? && next.Num? {
      NumberDeltaOpsSmall(previous.value.bits, next.bits, NumberOf(before));
    } else if previous.Some? && previous.value.Arr? && next.Arr? {
      if FloatArrays(previous.value, next) {
        FloatArrayOpsSmall(previous.value, next, before);
      } else {
        ArrayOpsSmall(previous.value, next, before);
      }
    } else if previous.Some? && previous.value.Obj? && next.Obj? {
      ObjectOpsSmall(previous.value, next, before);
    } else {
      ValueOpsSmall(next);
      SmallJoin([Byte(DELTA_REPLACE)], ValueOps(next));
    }
  }

  lemma {:induction false} ArrayOpsSmall(previous: Value, next: Value, before: Option<Value>)
    requires WellFormed(next) && SmallValue(next) && SmallValue(previous) && previous.Arr? && next.Arr?
    ensures AllSmall([Byte(DELTA_DENSE_ARRAY)] + DenseOps(previous, next, before, 0))
    ensures AllSmall([Byte(DELTA_ARRAY), Varuint(|next.items|), Varuint(ChangedItems(previous, next, 0))]
                     + SparseOps(previous, next, before, 0))
    decreases next, 0, |next.items| + 1
  {
    DenseOpsSmall(previous, next, before, 0);
    SparseOpsSmall(previous, next, before, 0);
    ChangedItemsBound(previous, next, 0);
    SmallJoin([Byte(DELTA_DENSE_ARRAY)], DenseOps(previous, next, before, 0));
    SmallJoin([Byte(DELTA_ARRAY), Varuint(|next.items|), Varuint(ChangedItems(previous, next, 0))],
              SparseOps(previous, next, before, 0));
  }

  lemma {:induction false} DenseOpsSmall(previous: Value, next: Value, before: Option<Value>, i: nat)
    requires WellFormed(next) && SmallValue(next) && SmallValue(previous) && previous.Arr? && next.Arr?
    requires i <= |next.items|
    ensures AllSmall(DenseOps(previous, next, before, i))
    decreases next, 0, |next.items| - i
  {
    if i < |next.items| {
      DeltaOpsSmall(Element(Some(previous), i), next.items[i], Element(before, i));
      DenseOpsSmall(previous, next, before, i + 1);
      SmallJoin(DeltaOps(Element(Some(previous), i), next.items[i], Element(before, i)),
                DenseOps(previous, next, before, i + 1));
    }
  }

  lemma {:induction false} SparseOpsSmall(previous: Value, next: Value, before: Option<Value>, i: nat)
    requires WellFormed(next) && SmallValue(next) && SmallValue(previous) && previous.Arr? && next.Arr?
    requires i <= |next.items|
    ensures AllSmall(SparseOps(previous, next, before, i))
    decreases next, 0, |next.items| - i
  {
    if i < |next.items| {
      var step := DeltaOps(Element(Some(previous), i), next.items[i], Element(before, i));
      DeltaOpsSmall(Element(Some(previous), i), next.items[i], Element(before, i));
      SparseOpsSmall(previous, next, before, i + 1);
      SmallJoin([Varuint(i)], step);
      SmallJoin([Varuint(i)] + step, SparseOps(previous, next, before, i + 1));
      SmallJoin([], SparseOps(previous, next, before, i + 1));
    }
  }

  lemma {:induction false} ObjectOpsSmall(previous: Value, next: Value, before: Option<Value>)
    requires WellFormed(next) && SmallValue(next) && SmallValue(previous) && previous.Obj? && next.Obj?
    ensures
      var deleted := Deleted(previous.keys, next.vals);
      AllSmall([Byte(DELTA_OBJECT), Varuint(|deleted|)] + TextOps(deleted)
        + ([Varuint(ChangedMembers(previous, next, 0))] + MemberDeltaOps(previous, next, before, 0)))
    decreases next, 0, |next.keys| + 1
  {
    var deleted := Deleted(previous.keys, next.vals);
    DeletedSmall(previous.keys, next.vals);
    ChangedMembersBound(previous, next, 0);
    MemberDeltaOpsSmall(previous, next, before, 0);
    SmallJoin([Byte(DELTA_OBJECT), Varuint(|deleted|)], TextOps(deleted));
    SmallJoin([Varuint(ChangedMembers(previous, next, 0))], MemberDeltaOps(previous, next, before, 0));
    SmallJoin([Byte(DELTA_OBJECT), Varuint(|deleted|)] + TextOps(deleted),
              [Varuint(ChangedMembers(previous, next, 0))] + MemberDeltaOps(previous, next, before, 0));
  }

  lemma SmallOldMember(previous: Value, key: string)
    requires SmallValue(previous)
    ensures SmallOption(Member(Some(previous), key))
  {
    hide SmallText;
  }

  lemma {:induction false} MemberDeltaOpsSmall(previous: Value, next: Value, before: Option<Value>, i: nat)
    requires WellFormed(next) && SmallValue(next) && SmallValue(previous) && previous.Obj? && next.Obj?
    requires i <= |next.keys|
    ensures AllSmall(MemberDeltaOps(previous, next, before, i))
    decreases next, 0, |next.keys| - i
  {
    if i < |next.keys| {
      var key := next.keys[i];
      SmallMember(next, i);
      SmallOldMember(previous, key);
      hide SmallValue, WellFormed, SmallText, Ordered, Changed, DeltaOps;
      var step := DeltaOps(Member(Some(previous), key), next.vals[key], Member(before, key));
      var tail := MemberDeltaOps(previous, next, before, i + 1);
      DeltaOpsSmall(Member(Some(previous), key), next.vals[key], Member(before, key));
      MemberDeltaOpsSmall(previous, next, before, i + 1);
      SmallJoin([Text(key)], step);
      SmallJoin([Text(key)] + step, tail);
      SmallJoin([], tail);
    }
  }

  lemma {:induction false} TickOpsSmall(ticks: seq<Value>, i: nat)
    requires 1 <= i <= |ticks| && AllWellFormed(ticks)
    requires forall j :: 0 <= j < |ticks| ==> SmallValue(ticks[j])
    ensures AllSmall(TickOps(ticks, i))
    decreases |ticks| - i
  {
    if i < |ticks| {
      var before := if i > 1 then Some(ticks[i - 2]) else None;
      DeltaOpsSmall(Some(ticks[i - 1]), ticks[i], before);
      TickOpsSmall(ticks, i + 1);
      SmallJoin(DeltaOps(Some(ticks[i - 1]), ticks[i], before), TickOps(ticks, i + 1));
    }
  }

  /** The encoder accepts every non-empty sequence of finite ticks of representable size. */
  lemma EncoderAccepts(ticks: seq<Value>, first: nat)
    requires ticks != [] && AllWellFormed(ticks)
    requires forall i :: 0 <= i < |ticks| ==> SmallValue(ticks[i])
    requires first <= SAFE_INTEGER_MAX && |ticks| <= SAFE_INTEGER_MAX
    requires |ChunkOps(ticks, first)| <= 0x10_0000_0000_0000
    ensures EncodeChunk(ticks, first).Ok?
  {
    ValueOpsSmall(ticks[0]);
    TickOpsSmall(ticks, 1);
    SmallJoin(ValueOps(ticks[0]), TickOps(ticks, 1));
    var header := [Raw(CHUNK_MAGIC), Byte(CHUNK_VERSION), Varuint(first), Varuint(|ticks|)];
    SmallJoin(header, ValueOps(ticks[0]) + TickOps(ticks, 1));
    SmallIsSafe([], ChunkOps(ticks, first));
  }
}
