/** Reading a written delta: exactly when it succeeds, and that it then restores the value. */
module DeltaRoundTrip {
  import opened Base
  import opened Floats
  import opened Values
  import opened Wire
  import opened Packing
  import opened Residuals
  import opened Delta
  import opened Decode
  import opened ValueRoundTrip
  import opened NumberRoundTrip

  /** The chosen residual is a value prediction that the reader cannot narrow. */
  predicate NumberRefused(rules: Rules, previous: F64, next: F64, before: Option<Value>) {
    && !IntegerDelta(previous, next) && ExactF32(previous) && ExactF32(next)
    && ScalarMode(NumberOf(before), previous, next) == MODE_VALUE_PREDICTION
    && PredictionRaises(rules, Some(Num(previous)), before)
  }

  predicate FloatsRefused(rules: Rules, previous: Value, next: Value, before: Option<Value>)
    requires FloatArrays(previous, next)
  {
    || HistoryRefused(rules, before, |next.items|)
    || PredictionsRaise(rules, FloatChoice(previous, next, before).mode, HistoryBits(before, previous),
                        BitsOf(previous))
  }

  /** The reader has room for every node the delta enters, and the history meets what its rules ask
      of it there. Under GUARDED this always holds. */
  predicate Readable(rules: Rules, previous: Option<Value>, next: Value, before: Option<Value>)
    decreases next
  {
    && !Exhausted(rules.room)
    && if previous.None? then FitsRoom(rules.room, next)
       else if !Changed(previous, next) then true
       else
         match (previous.value, next)
         case (Num(p), Num(n)) => !NumberRefused(rules, p, n, before)
         case (Arr(_), Arr(items)) =>
           if FloatArrays(previous.value, next) then !FloatsRefused(rules, previous.value, next, before)
           else
             forall i ::
               0 <= i < |items| && (Dense(previous.value, next) || Changed(Element(previous, i), items[i])) ==>
               && (Dense(previous.value, next) ==> DenseHistory(rules, before, i).Ok?)
               && Readable(Deeper(rules), Element(previous, i), items[i], Element(before, i))
         case (Obj(_, _), Obj(_, vals)) =>
           forall k :: k in vals && Changed(Member(previous, k), vals[k]) ==>
             Readable(Deeper(rules), Member(previous, k), vals[k], Member(before, k))
         case _ => FitsRoom(rules.room, next)
  }

  /** What reading has to give: the value and the reader behind it, or an error. */
  ghost predicate Outcome(ok: bool, next: Value, res: Result<(Value, Reader)>, r: Reader) {
    if ok then res.Ok? && Same(next, res.value.0) && WellFormed(res.value.0) && res.value.1 == r
    else res.Err?
  }

  /** The reader holds deep copies of the writer's two previous values. */
  ghost predicate Synced(previous: Option<Value>, before: Option<Value>, previous': Option<Value>,
                         before': Option<Value>) {
    && SameOption(previous, previous')
    && SameOption(before, before')
    && WellFormedOption(previous)
    && WellFormedOption(previous')
  }

  lemma SyncedItem(previous: Option<Value>, before: Option<Value>, previous': Option<Value>, before': Option<Value>,
                   i: nat)
    requires Synced(previous, before, previous', before')
    ensures Synced(Element(previous, i), Element(before, i), Element(previous', i), Element(before', i))
  {
  }

  lemma SyncedMember(previous: Option<Value>, before: Option<Value>, previous': Option<Value>, before': Option<Value>,
                     key: string)
    requires Synced(previous, before, previous', before')
    ensures Synced(Member(previous, key), Member(before, key), Member(previous', key), Member(before', key))
  {
  }

  // ----- leaves -----

  lemma SameCase(previous: Value, next: Value, previous': Value, rules: Rules, before': Option<Value>,
                 table: seq<string>, more: seq<Op>)
    requires Same(previous, next) && Same(previous, previous') && WellFormed(previous') && !Exhausted(rules.room)
    ensures
      var ops := [Byte(DELTA_SAME)];
      Outcome(true, next, ReadDelta(rules, At(table, ops + more), Some(previous'), before'),
              At(Table(table, ops), more))
  {
    SameSymmetric(previous, next);
    SameTransitive(next, previous, previous');
    assert [Byte(DELTA_SAME)] + [] == [Byte(DELTA_SAME)] && [] + more == more;
    TagFirst(table, DELTA_SAME, [], more);
  }

  lemma ReplaceCase(next: Value, rules: Rules, previous': Option<Value>, before': Option<Value>, table: seq<string>,
                    more: seq<Op>)
    requires WellFormed(next) && Safe(table, [Byte(DELTA_REPLACE)] + ValueOps(next) + more) && !Exhausted(rules.room)
    ensures
      var ops := [Byte(DELTA_REPLACE)] + ValueOps(next);
      Outcome(FitsRoom(rules.room, next), next, ReadDelta(rules, At(table, ops + more), previous', before'),
              At(Table(table, ops), more))
  {
    hide *;
    var body := ValueOps(next);
    TagFirst(table, DELTA_REPLACE, body, more);
    ReadWrittenValue(rules.room, next, table, more);
    SameReflexive(next);
    ReplaceStep(rules, At(table, [Byte(DELTA_REPLACE)] + body + more), previous', before', At(table, body + more));
    BackOutcome(FitsRoom(rules.room, next), next,
                ReadDelta(rules, At(table, [Byte(DELTA_REPLACE)] + body + more), previous', before'),
                At(Table(table, body), more));
  }

  lemma BackOutcome(ok: bool, next: Value, res: Result<(Value, Reader)>, r: Reader)
    requires WellFormed(next) && Same(next, next) && Back(ok, next, res, r)
    ensures Outcome(ok, next, res, r)
  {
  }

  lemma ReplaceStep(rules: Rules, r: Reader, previous: Option<Value>, before: Option<Value>, r1: Reader)
    requires ReadByte(r) == Ok((DELTA_REPLACE, r1)) && !Exhausted(rules.room)
    ensures ReadDelta(rules, r, previous, before) == ReadValue(rules.room, r1)
  {
  }

  lemma OutcomeHolds(next: Value, value: Value, res: Result<(Value, Reader)>, r: Reader)
    requires res == Ok((value, r)) && Same(next, value) && WellFormed(value)
    ensures Outcome(true, next, res, r)
  {
  }

  // ----- numbers -----

  lemma NumberCase(rules: Rules, previous: F64, next: F64, before: Option<Value>, before': Option<Value>,
                   table: seq<string>, more: seq<Op>)
    requires previous != next && NumberOf(before) == NumberOf(before') && Finite(next) && !Exhausted(rules.room)
    requires Safe(table, NumberDeltaOps(previous, next, NumberOf(before)) + more)
    ensures
      var ops := NumberDeltaOps(previous, next, NumberOf(before));
      Outcome(!NumberRefused(rules, previous, next, before), Num(next),
              ReadDelta(rules, At(table, ops + more), Some(Num(previous)), before'), At(Table(table, ops), more))
  {
    if IntegerDelta(previous, next) {
      IntegerCase(rules, previous, next, before, before', table, more);
    } else if ExactF32(previous) && ExactF32(next) {
      FloatCase(rules, previous, next, before, before', table, more);
    } else {
      XorCase(rules, previous, next, before, before', table, more);
    }
  }

  lemma IntegerCase(rules: Rules, previous: F64, next: F64, before: Option<Value>, before': Option<Value>,
                    table: seq<string>, more: seq<Op>)
    requires IntegerDelta(previous, next) && Finite(next) && !Exhausted(rules.room)
    requires Safe(table, NumberDeltaOps(previous, next, NumberOf(before)) + more)
    ensures
      var ops := NumberDeltaOps(previous, next, NumberOf(before));
      Outcome(true, Num(next), ReadDelta(rules, At(table, ops + more), Some(Num(previous)), before'),
              At(Table(table, ops), more))
  {
    var n := ZigZag(ToInt(Minus(next, previous)));
    var ops := NumberDeltaOps(previous, next, NumberOf(before));
    var body := [Varuint(n)] + [];
    assert ops == [Byte(DELTA_INTEGER_DIFFERENCE)] + body;
    assert [] + more == more;
    assert Same(Num(next), Num(next)) && WellFormed(Num(next));
    hide *;
    TagFirst(table, DELTA_INTEGER_DIFFERENCE, body, more);
    CountFirst(table, n, [], more);
    IntegerDifferenceUndone(previous, next, At(table, body + more), At(table, more));
    IntegerStep(rules, At(table, ops + more), Some(Num(previous)), before', At(table, body + more));
    EmptyTable(table);
    OutcomeHolds(Num(next), Num(next), ReadDelta(rules, At(table, ops + more), Some(Num(previous)), before'),
                 At(Table(table, ops), more));
  }

  lemma IntegerStep(rules: Rules, r: Reader, previous: Option<Value>, before: Option<Value>, r1: Reader)
    requires ReadByte(r) == Ok((DELTA_INTEGER_DIFFERENCE, r1)) && !Exhausted(rules.room)
    ensures ReadDelta(rules, r, previous, before) == ReadIntegerDifference(r1, previous)
  {
  }

  lemma FloatCase(rules: Rules, previous: F64, next: F64, before: Option<Value>, before': Option<Value>,
                  table: seq<string>, more: seq<Op>)
    requires !IntegerDelta(previous, next) && ExactF32(previous) && ExactF32(next) && !Exhausted(rules.room)
    requires NumberOf(before) == NumberOf(before')
    requires Safe(table, NumberDeltaOps(previous, next, NumberOf(before)) + more)
    ensures
      var ops := NumberDeltaOps(previous, next, NumberOf(before));
      Outcome(!NumberRefused(rules, previous, next, before), Num(next),
        ReadDelta(rules, At(table, ops + more), Some(Num(previous)), before'), At(Table(table, ops), more))
  {
    var mode := ScalarMode(NumberOf(before), previous, next);
    var n := Residual(mode, ScalarHistory(NumberOf(before), previous), previous, next);
    var ops := NumberDeltaOps(previous, next, NumberOf(before));
    var body := [Varuint(n)] + [];
    assert ops == [Byte(ScalarTag(mode))] + body;
    assert [] + more == more;
    assert Same(Num(next), Num(next)) && WellFormed(Num(next));
    RefusedNumber(rules, previous, next, before, before');
    hide *;
    TagFirst(table, ScalarTag(mode), body, more);
    CountFirst(table, n, [], more);
    FloatStep(rules, At(table, ops + more), mode, Some(Num(previous)), before', At(table, body + more));
    EmptyTable(table);
    if NumberRefused(rules, previous, next, before) {
      OutcomeFails(Num(next), ReadDelta(rules, At(table, ops + more), Some(Num(previous)), before'),
                   At(Table(table, ops), more));
    } else {
      FloatPatchUndone(previous, next, before', At(table, body + more), At(table, more));
      OutcomeHolds(Num(next), Num(next), ReadDelta(rules, At(table, ops + more), Some(Num(previous)), before'),
                   At(Table(table, ops), more));
    }
  }

  lemma RefusedNumber(rules: Rules, previous: F64, next: F64, before: Option<Value>, before': Option<Value>)
    requires !IntegerDelta(previous, next) && ExactF32(previous) && ExactF32(next)
    requires NumberOf(before) == NumberOf(before')
    ensures NumberRefused(rules, previous, next, before) <==>
      && ScalarMode(NumberOf(before), previous, next) == MODE_VALUE_PREDICTION
      && PredictionRaises(rules, Some(Num(previous)), before')
  {
    hide ExactF32, IntegerDelta, ScalarMode, Narrowable;
  }

  lemma FloatStep(rules: Rules, r: Reader, mode: Mode, previous: Option<Value>, before: Option<Value>, r1: Reader)
    requires ReadByte(r) == Ok((ScalarTag(mode), r1)) && !Exhausted(rules.room)
    ensures ReadDelta(rules, r, previous, before) ==
      if mode == MODE_VALUE_PREDICTION && PredictionRaises(rules, previous, before) then Err(OutOfRange)
      else ReadFloatPatch(r1, mode, previous, before)
  {
    hide ReadFloatArray, ReadByte, ReadValue, ReadDense, ReadItemDeltas, ReadObjectDelta, ReadFloatPatch, ReadNumberXor,
      ReadIntegerDifference, ReadVaruint, PredictionRaises;
  }

  lemma XorCase(rules: Rules, previous: F64, next: F64, before: Option<Value>, before': Option<Value>,
                table: seq<string>, more: seq<Op>)
    requires previous != next && Finite(next) && !Exhausted(rules.room)
    requires !IntegerDelta(previous, next) && !(ExactF32(previous) && ExactF32(next))
    requires Safe(table, NumberDeltaOps(previous, next, NumberOf(before)) + more)
    ensures
      var ops := NumberDeltaOps(previous, next, NumberOf(before));
      Outcome(true, Num(next), ReadDelta(rules, At(table, ops + more), Some(Num(previous)), before'),
              At(Table(table, ops), more))
  {
    var ops := NumberDeltaOps(previous, next, NumberOf(before));
    var body := NumberXorOps(previous, next);
    assert ops == [Byte(DELTA_NUMBER_XOR)] + body;
    assert Same(Num(next), Num(next)) && WellFormed(Num(next));
    hide *;
    TagFirst(table, DELTA_NUMBER_XOR, body, more);
    NumberXorUndone(previous, next, table, more);
    XorStep(rules, At(table, ops + more), Some(Num(previous)), before', At(table, body + more));
    OutcomeHolds(Num(next), Num(next), ReadDelta(rules, At(table, ops + more), Some(Num(previous)), before'),
                 At(Table(table, ops), more));
  }

  lemma XorStep(rules: Rules, r: Reader, previous: Option<Value>, before: Option<Value>, r1: Reader)
    requires ReadByte(r) == Ok((DELTA_NUMBER_XOR, r1)) && !Exhausted(rules.room)
    ensures ReadDelta(rules, r, previous, before) == ReadNumberXor(r1, previous)
  {
  }

  // ----- float32 arrays -----

  lemma KindIsDense(c: Candidate)
    ensures DenseFloatTag(KindOf(c))
  {
  }

  lemma FloatArrayStep(rules: Rules, r: Reader, tag: byte, previous: Option<Value>, before: Option<Value>, r1: Reader)
    requires DenseFloatTag(tag) && ReadByte(r) == Ok((tag, r1)) && !Exhausted(rules.room)
    ensures ReadDelta(rules, r, previous, before) == ReadFloatArray(rules, r1, tag, previous, before)
  {
    hide ReadFloatArray, ReadByte, ReadValue, ReadDense, ReadItemDeltas, ReadObjectDelta, ReadFloatPatch, ReadNumberXor,
      ReadIntegerDifference, ReadVaruint;
  }

  lemma PackedStep(rules: Rules, r: Reader, c: Candidate, previous: Value, before: Option<Value>, r1: Reader,
                   r2: Reader, residuals: seq<nat>, r3: Reader)
    requires c.packed && c.width <= 32 && ExactArray(previous) && |residuals| == |previous.items|
    requires !HistoryRefused(rules, before, |previous.items|)
    requires !PredictionsRaise(rules, c.mode, HistoryBits(before, previous), BitsOf(previous))
    requires c.mode >= 2 ==> FloatHistory(before, |previous.items|)
    requires ReadByte(r) == Ok((c.mode, r1)) && ReadByte(r1) == Ok((c.width, r2))
    requires ReadPacked(r2, |previous.items|, c.width) == Ok((residuals, r3))
    ensures
      var items := PatchItems(residuals, c.mode, HistoryBits(before, previous), BitsOf(previous), 0);
      items.Ok? ==> ReadFloatArray(rules, r, KindOf(c), Some(previous), before) == Ok((Arr(items.value), r3))
  {
  }

  lemma VarintStep(rules: Rules, r: Reader, c: Candidate, previous: Value, before: Option<Value>)
    requires !c.packed && ExactArray(previous)
    requires !HistoryRefused(rules, before, |previous.items|)
    requires !PredictionsRaise(rules, c.mode, HistoryBits(before, previous), BitsOf(previous))
    requires c.mode >= 2 ==> FloatHistory(before, |previous.items|)
    ensures
      var res := ReadFloatItems(r, c.mode, HistoryBits(before, previous), BitsOf(previous), 0);
      res.Ok? ==> ReadFloatArray(rules, r, KindOf(c), Some(previous), before) == Ok((Arr(res.value.0), res.value.1))
  {
    assert ModeOfTag(DenseTag(c.mode)) == c.mode;
  }

  lemma RefusedStep(rules: Rules, r: Reader, tag: byte, previous: Value, before: Option<Value>)
    requires ExactArray(previous) && HistoryRefused(rules, before, |previous.items|)
    ensures ReadFloatArray(rules, r, tag, Some(previous), before).Err?
  {
  }

  /** The reader gives up on a prediction it cannot narrow, in either form of the payload. */
  lemma RaisingStep(rules: Rules, r: Reader, c: Candidate, previous: Value, before: Option<Value>, r1: Reader)
    requires ExactArray(previous) && PredictionsRaise(rules, c.mode, HistoryBits(before, previous), BitsOf(previous))
    requires c.packed ==> ReadByte(r) == Ok((c.mode, r1))
    ensures ReadFloatArray(rules, r, KindOf(c), Some(previous), before).Err?
  {
    assert !c.packed ==> ModeOfTag(DenseTag(c.mode)) == c.mode;
    hide ReadByte, ReadPacked, ReadFloatItems, PatchItems, HistoryRefused;
  }

  lemma PackedPayloadUndone(rules: Rules, previous: Value, next: Value, before: Option<Value>, table: seq<string>,
                            more: seq<Op>)
    requires FloatArrays(previous, next) && !FloatsRefused(rules, previous, next, before)
    requires FloatChoice(previous, next, before).packed
    ensures
      var c := FloatChoice(previous, next, before);
      var body := FloatPayload(previous, next, before);
      && ReadFloatArray(rules, At(table, body + more), KindOf(c), Some(previous), before) == Ok((next, At(table, more)))
      && Table(table, body) == table
  {
    var c := FloatChoice(previous, next, before);
    FloatChoiceFacts(previous, next, before);
    var residuals := FloatResiduals(c.mode, previous, next, before);
    var bs := PackedBytes(residuals, c.width);
    var last := [Raw(bs)];
    var body := FloatPayload(previous, next, before);
    assert body == [Byte(c.mode)] + ([Byte(c.width)] + last);
    WidestFits(residuals);
    NumbersOfBits(next);
    assert BitsOf(next)[0..] == BitsOf(next);
    assert |residuals| == |previous.items|;
    hide *;
    TagFirst(table, c.mode, [Byte(c.width)] + last, more);
    TagFirst(table, c.width, last, more);
    CandidatePackedFits(previous, next, before);
    TakePacked(table, residuals, c.width, more);
    PatchItemsUndone(c.mode, HistoryBits(before, previous), BitsOf(previous), BitsOf(next), 0);
    FloatResidualsShape(c.mode, previous, next, before);
    NotRefused(rules, previous, next, before);
    PackedStep(rules, At(table, body + more), c, previous, before, At(table, [Byte(c.width)] + last + more),
      At(table, last + more), residuals, At(table, more));
    RawTable(table, bs);
  }

  lemma RawTable(table: seq<string>, bs: seq<byte>)
    ensures Table(table, [Raw(bs)]) == table
  {
    One(table, Raw(bs));
  }

  lemma FloatResidualsShape(mode: Mode, previous: Value, next: Value, before: Option<Value>)
    requires FloatArrays(previous, next)
    ensures FloatResiduals(mode, previous, next, before)
      == ResidualsOf(mode, HistoryBits(before, previous), BitsOf(previous), BitsOf(next))
  {
  }

  lemma CandidatePackedFits(previous: Value, next: Value, before: Option<Value>)
    requires FloatArrays(previous, next)
    ensures
      var c := FloatChoice(previous, next, before);
      Fits(FloatResiduals(c.mode, previous, next, before), c.width)
  {
    var c := FloatChoice(previous, next, before);
    FloatChoiceFacts(previous, next, before);
    WidestFits(FloatResiduals(c.mode, previous, next, before));
  }

  lemma VarintPayloadUndone(rules: Rules, previous: Value, next: Value, before: Option<Value>, table: seq<string>,
                            more: seq<Op>)
    requires FloatArrays(previous, next) && !FloatsRefused(rules, previous, next, before)
    requires !FloatChoice(previous, next, before).packed
    requires Safe(table, VaruintOps(FloatResiduals(FloatChoice(previous, next, before).mode, previous, next,
                                                   before)) + more)
    ensures
      var c := FloatChoice(previous, next, before);
      var body := VaruintOps(FloatResiduals(c.mode, previous, next, before));
      && ReadFloatArray(rules, At(table, body + more), KindOf(c), Some(previous), before) == Ok((next, At(table, more)))
      && Table(table, body) == table
  {
    var c := FloatChoice(previous, next, before);
    FloatChoiceFacts(previous, next, before);
    var residuals := FloatResiduals(c.mode, previous, next, before);
    assert residuals[0..] == residuals && BitsOf(next)[0..] == BitsOf(next);
    NumbersOfBits(next);
    hide *;
    FloatResidualsShape(c.mode, previous, next, before);
    ReadFloatItemsUndone(c.mode, HistoryBits(before, previous), BitsOf(previous), BitsOf(next), 0, table, more);
    NotRefused(rules, previous, next, before);
    VarintStep(rules, At(table, VaruintOps(residuals) + more), c, previous, before);
    VaruintOpsLength(table, residuals);
  }

  lemma NotRefused(rules: Rules, previous: Value, next: Value, before: Option<Value>)
    requires FloatArrays(previous, next)
    ensures |previous.items| == |next.items|
    ensures FloatsRefused(rules, previous, next, before) <==>
      || HistoryRefused(rules, before, |previous.items|)
      || PredictionsRaise(rules, FloatChoice(previous, next, before).mode, HistoryBits(before, previous),
                          BitsOf(previous))
  {
    hide FloatChoice, HistoryRefused, PredictionsRaise;
  }

  function PackedRest(c: Candidate, residuals: seq<nat>): seq<Op> {
    [Byte(c.width % 256)] + [Raw(PackedBytes(residuals, c.width))]
  }

  lemma PackedShape(previous: Value, next: Value, before: Option<Value>)
    requires FloatArrays(previous, next)
    ensures
      var c := FloatChoice(previous, next, before);
      c.packed ==>
        FloatPayload(previous, next, before)
          == [Byte(c.mode)] + PackedRest(c, FloatResiduals(c.mode, previous, next, before))
  {
    hide *;
    FloatChoiceFacts(previous, next, before);
    PayloadIs(previous, next, before);
    var c := FloatChoice(previous, next, before);
    if c.packed {
      PackedPayload(c, FloatResiduals(c.mode, previous, next, before));
    }
  }

  lemma PayloadIs(previous: Value, next: Value, before: Option<Value>)
    requires FloatArrays(previous, next)
    ensures
      var c := FloatChoice(previous, next, before);
      && Fits(FloatResiduals(c.mode, previous, next, before), 32) && c.width < 256
      && FloatPayload(previous, next, before) == PayloadOps(c, FloatResiduals(c.mode, previous, next, before))
  {
    FloatChoiceFacts(previous, next, before);
    hide FloatChoice, FloatResiduals, PayloadOps, CandidateFor, Fits;
  }

  lemma PackedPayload(c: Candidate, residuals: seq<nat>)
    requires c.packed && c.width < 256
    ensures PayloadOps(c, residuals) == [Byte(c.mode)] + PackedRest(c, residuals)
  {
    hide PackedBytes;
  }

  /** A refused array is an error whatever its payload. */
  lemma RefusedCase(rules: Rules, previous: Value, next: Value, before: Option<Value>, table: seq<string>,
                    more: seq<Op>)
    requires FloatArrays(previous, next) && FloatsRefused(rules, previous, next, before)
    ensures
      var c := FloatChoice(previous, next, before);
      ReadFloatArray(rules, At(table, FloatPayload(previous, next, before) + more), KindOf(c), Some(previous),
                     before).Err?
  {
    hide *;
    FloatArraysLength(previous, next);
    var c := FloatChoice(previous, next, before);
    var body := FloatPayload(previous, next, before);
    var rest := PackedRest(c, FloatResiduals(c.mode, previous, next, before));
    PackedShape(previous, next, before);
    NotRefused(rules, previous, next, before);
    TagFirst(table, c.mode, rest, more);
    if HistoryRefused(rules, before, |previous.items|) {
      RefusedStep(rules, At(table, body + more), KindOf(c), previous, before);
    } else {
      RaisingStep(rules, At(table, body + more), c, previous, before, At(table, rest + more));
    }
  }

  lemma FloatArrayCase(rules: Rules, previous: Value, next: Value, before: Option<Value>, table: seq<string>,
                       more: seq<Op>)
    requires FloatArrays(previous, next) && WellFormed(next) && !Exhausted(rules.room)
    requires Safe(table, FloatArrayOps(previous, next, before) + more)
    ensures
      var ops := FloatArrayOps(previous, next, before);
      Outcome(!FloatsRefused(rules, previous, next, before), next,
        ReadDelta(rules, At(table, ops + more), Some(previous), before), At(Table(table, ops), more))
  {
    var c := FloatChoice(previous, next, before);
    FloatChoiceFacts(previous, next, before);
    var ops := FloatArrayOps(previous, next, before);
    var body := FloatPayload(previous, next, before);
    assert ops == [Byte(KindOf(c))] + body;
    assert !c.packed ==> body == VaruintOps(FloatResiduals(c.mode, previous, next, before));
    var refused := FloatsRefused(rules, previous, next, before);
    hide *;
    TagFirst(table, KindOf(c), body, more);
    var res := ReadDelta(rules, At(table, ops + more), Some(previous), before);
    KindIsDense(c);
    FloatArrayStep(rules, At(table, ops + more), KindOf(c), Some(previous), before, At(table, body + more));
    if refused {
      RefusedCase(rules, previous, next, before, table, more);
      OutcomeFails(next, res, At(Table(table, ops), more));
    } else {
      if c.packed {
        PackedPayloadUndone(rules, previous, next, before, table, more);
      } else {
        VarintPayloadUndone(rules, previous, next, before, table, more);
      }
      SameReflexive(next);
      OutcomeHolds(next, next, res, At(Table(table, ops), more));
    }
  }

  lemma FloatArraysLength(previous: Value, next: Value)
    requires FloatArrays(previous, next)
    ensures ExactArray(previous) && ExactArray(next) && |previous.items| == |next.items| > 0
  {
  }

  lemma OutcomeFails(next: Value, res: Result<(Value, Reader)>, r: Reader)
    requires res.Err?
    ensures Outcome(false, next, res, r)
  {
  }

  lemma SameFloatHistory(before: Option<Value>, before': Option<Value>, count: nat)
    requires SameOption(before, before')
    ensures FloatHistory(before, count) == FloatHistory(before', count)
    ensures FloatHistory(before, count) ==> before == before'
    ensures before.Some? && before.value.Arr? <==> before'.Some? && before'.value.Arr?
  {
    if FloatHistory(before, count) {
      SameArrays(before.value, before'.value);
    } else if FloatHistory(before', count) {
      SameSymmetric(before.value, before'.value);
      SameArrays(before'.value, before.value);
    }
  }

  /** The writer's choice does not depend on which deep copy of the history it sees. */
  lemma SameFloatOps(rules: Rules, previous: Value, next: Value, before: Option<Value>, before': Option<Value>)
    requires FloatArrays(previous, next) && SameOption(before, before')
    ensures FloatArrayOps(previous, next, before) == FloatArrayOps(previous, next, before')
    ensures FloatsRefused(rules, previous, next, before) == FloatsRefused(rules, previous, next, before')
  {
    SameFloatHistory(before, before', |next.items|);
    assert HistoryBits(before, previous) == HistoryBits(before', previous);
  }

  // ----- dense arrays -----

  /** The items from i on can all be read. */
  predicate DenseReadable(rules: Rules, previous: Value, next: Value, before: Option<Value>, i: nat)
    requires next.Arr?
  {
    forall j :: i <= j < |next.items| ==>
      && DenseHistory(rules, before, j).Ok?
      && Readable(rules, Element(Some(previous), j), next.items[j], Element(before, j))
  }

  ghost predicate ItemsMatch(next: Value, i: nat, items: seq<Value>)
    requires next.Arr? && i <= |next.items|
  {
    && |items| == |next.items| - i
    && forall j :: 0 <= j < |items| ==> Same(next.items[i + j], items[j]) && WellFormed(items[j])
  }

  ghost predicate DenseOutcome(ok: bool, next: Value, i: nat, res: Result<(seq<Value>, Reader)>, r: Reader)
    requires next.Arr? && i <= |next.items|
  {
    if ok then res.Ok? && ItemsMatch(next, i, res.value.0) && res.value.1 == r else res.Err?
  }

  lemma DenseStep(rules: Rules, r: Reader, previous: Value, before: Option<Value>, i: nat, item: Value, r1: Reader)
    requires previous.Arr? && i < |previous.items|
    requires DenseHistory(rules, before, i).Ok?
    requires ReadDelta(rules, r, Some(previous.items[i]), Element(before, i)) == Ok((item, r1))
    ensures
      var rest := ReadDense(rules, r1, previous, before, i + 1);
      && (rest.Ok? ==> ReadDense(rules, r, previous, before, i) == Ok(([item] + rest.value.0, rest.value.1)))
      && (rest.Err? ==> ReadDense(rules, r, previous, before, i).Err?)
  {
  }

  lemma DenseFails(rules: Rules, r: Reader, previous: Value, before: Option<Value>, i: nat)
    requires previous.Arr? && i < |previous.items|
    requires DenseHistory(rules, before, i).Err?
      || ReadDelta(rules, r, Some(previous.items[i]), Element(before, i)).Err?
    ensures ReadDense(rules, r, previous, before, i).Err?
  {
  }

  lemma DenseOpsCons(previous: Value, next: Value, before: Option<Value>, i: nat)
    requires WellFormed(next) && next.Arr? && i < |next.items|
    ensures WellFormed(next.items[i])
    ensures DenseOps(previous, next, before, i)
         == DeltaOps(Element(Some(previous), i), next.items[i], Element(before, i))
           + DenseOps(previous, next, before, i + 1)
  {
  }

  lemma DenseReadableCons(rules: Rules, previous: Value, next: Value, before: Option<Value>, i: nat)
    requires next.Arr? && i < |next.items|
    ensures DenseReadable(rules, previous, next, before, i) <==>
      && DenseHistory(rules, before, i).Ok?
      && Readable(rules, Element(Some(previous), i), next.items[i], Element(before, i))
      && DenseReadable(rules, previous, next, before, i + 1)
  {
  }

  lemma SameDenseHistory(rules: Rules, previous: Option<Value>, before: Option<Value>, previous': Option<Value>,
                         before': Option<Value>, i: nat)
    requires Synced(previous, before, previous', before')
    ensures DenseHistory(rules, before, i).Ok? == DenseHistory(rules, before', i).Ok?
  {
  }

  lemma OutcomeParts(ok: bool, next: Value, res: Result<(Value, Reader)>, r: Reader)
    requires Outcome(ok, next, res, r)
    ensures if ok then res.Ok? && res == Ok((res.value.0, r)) && Same(next, res.value.0) && WellFormed(res.value.0)
      else res.Err?
  {
  }

  lemma DenseOutcomeCons(next: Value, i: nat, item: Value, rest: Result<(seq<Value>, Reader)>,
                         res: Result<(seq<Value>, Reader)>, r: Reader)
    requires next.Arr? && i < |next.items|
    requires Same(next.items[i], item) && WellFormed(item)
    requires DenseOutcome(true, next, i + 1, rest, r)
    requires rest.Ok? ==> res == Ok(([item] + rest.value.0, rest.value.1))
    ensures DenseOutcome(true, next, i, res, r)
  {
    forall j | 0 <= j < |res.value.0|
      ensures Same(next.items[i + j], res.value.0[j]) && WellFormed(res.value.0[j])
    {
      if j > 0 {
        assert res.value.0[j] == rest.value.0[j - 1];
        assert next.items[i + j] == next.items[i + 1 + (j - 1)];
      }
    }
  }

  lemma DenseOutcomeFails(next: Value, i: nat, res: Result<(seq<Value>, Reader)>, r: Reader)
    requires next.Arr? && i <= |next.items| && res.Err?
    ensures DenseOutcome(false, next, i, res, r)
  {
  }

  lemma DenseOutcomeFailed(next: Value, i: nat, res: Result<(seq<Value>, Reader)>, r: Reader)
    requires next.Arr? && i <= |next.items| && DenseOutcome(false, next, i, res, r)
    ensures res.Err?
  {
  }

  lemma DenseDone(rules: Rules, previous: Value, next: Value, before: Option<Value>, previous': Value,
                  before': Option<Value>, table: seq<string>, more: seq<Op>)
    requires WellFormed(next) && next.Arr? && previous'.Arr? && |previous'.items| == |next.items|
    ensures
      var n := |next.items|;
      var ops := DenseOps(previous, next, before, n);
      && DenseReadable(rules, previous, next, before, n)
      && DenseOutcome(true, next, n, ReadDense(rules, At(table, ops + more), previous', before', n),
                      At(Table(table, ops), more))
  {
    assert [] + more == more;
  }

  lemma {:induction false} ReadWrittenDense(rules: Rules, previous: Value, next: Value, before: Option<Value>,
                                            previous': Value, before': Option<Value>, i: nat, table: seq<string>,
                                            more: seq<Op>)
    requires WellFormed(next) && next.Arr? && i <= |next.items|
    requires previous.Arr? && previous'.Arr? && |previous'.items| == |next.items|
    requires Synced(Some(previous), before, Some(previous'), before')
    requires Safe(table, DenseOps(previous, next, before, i) + more)
    ensures
      var ops := DenseOps(previous, next, before, i);
      DenseOutcome(DenseReadable(rules, previous, next, before, i), next, i,
        ReadDense(rules, At(table, ops + more), previous', before', i), At(Table(table, ops), more))
    decreases next, 0, |next.items| - i
  {
    hide *;
    if i == |next.items| {
      DenseDone(rules, previous, next, before, previous', before', table, more);
    } else {
      DenseOpsCons(previous, next, before, i);
      DenseReadableCons(rules, previous, next, before, i);
      SameDenseHistory(rules, Some(previous), before, Some(previous'), before', i);
      SyncedItem(Some(previous), before, Some(previous'), before', i);
      ElementOfArray(previous', i);
      var head := DeltaOps(Element(Some(previous), i), next.items[i], Element(before, i));
      var tail := DenseOps(previous, next, before, i + 1);
      Sequence(table, head, tail, more);
      ReadWrittenDelta(rules, Element(Some(previous), i), next.items[i], Element(before, i),
                       Element(Some(previous'), i), Element(before', i), table, tail + more);
      ReadWrittenDense(rules, previous, next, before, previous', before', i + 1, Table(table, head), more);
      var r := At(table, head + tail + more);
      var r1 := At(Table(table, head), tail + more);
      var ok := Readable(rules, Element(Some(previous), i), next.items[i], Element(before, i));
      var res := ReadDelta(rules, r, Some(previous'.items[i]), Element(before', i));
      OutcomeParts(ok, next.items[i], res, r1);
      if !DenseHistory(rules, before, i).Ok? || !ok {
        DenseFails(rules, r, previous', before', i);
        DenseOutcomeFails(next, i, ReadDense(rules, r, previous', before', i), At(Table(table, head + tail), more));
      } else {
        DenseStep(rules, r, previous', before', i, res.value.0, r1);
        var rest := ReadDense(rules, r1, previous', before', i + 1);
        if DenseReadable(rules, previous, next, before, i + 1) {
          DenseOutcomeCons(next, i, res.value.0, rest, ReadDense(rules, r, previous', before', i),
                           At(Table(table, head + tail), more));
        } else {
          DenseOutcomeFailed(next, i + 1, rest, At(Table(table, head + tail), more));
          DenseOutcomeFails(next, i, ReadDense(rules, r, previous', before', i), At(Table(table, head + tail), more));
        }
      }
    }
  }

  lemma ElementOfArray(v: Value, i: nat)
    requires v.Arr? && i < |v.items|
    ensures Element(Some(v), i) == Some(v.items[i])
  {
  }

  // ----- sparse arrays -----

  /** The changed items from i on can all be read. */
  predicate SparseReadable(rules: Rules, previous: Value, next: Value, before: Option<Value>, i: nat)
    requires next.Arr?
  {
    forall j :: i <= j < |next.items| && Changed(Element(Some(previous), j), next.items[j]) ==>
      Readable(rules, Element(Some(previous), j), next.items[j], Element(before, j))
  }

  /** The slots before i hold the next items, the others still what the base put there. */
  ghost predicate SlotsMatch(next: Value, i: nat, previous': Value, slots: seq<Option<Value>>)
    requires next.Arr? && i <= |next.items| && previous'.Arr?
  {
    && |slots| == |next.items|
    && (forall j :: 0 <= j < i ==> slots[j].Some? && Same(next.items[j], slots[j].value) && WellFormed(slots[j].value))
    && (forall j :: i <= j < |slots| ==> slots[j] == Slots(previous'.items, |next.items|)[j])
  }

  ghost predicate SparseOutcome(ok: bool, next: Value, previous': Value, res: Result<(seq<Option<Value>>, Reader)>,
                                r: Reader)
    requires next.Arr? && previous'.Arr?
  {
    if ok then res.Ok? && SlotsMatch(next, |next.items|, previous', res.value.0) && res.value.1 == r else res.Err?
  }

  lemma SparseDone(rules: Rules, previous: Value, next: Value, before: Option<Value>, previous': Value,
                   before': Option<Value>, slots: seq<Option<Value>>, table: seq<string>, more: seq<Op>)
    requires WellFormed(next) && next.Arr? && previous'.Arr? && SlotsMatch(next, |next.items|, previous', slots)
    ensures
      var n := |next.items|;
      var ops := SparseOps(previous, next, before, n);
      && ChangedItems(previous, next, n) == 0
      && SparseReadable(rules, previous, next, before, n)
      && SparseOutcome(true, next, previous',
                       ReadItemDeltas(rules, At(table, ops + more), 0, previous', before', slots),
        At(Table(table, ops), more))
  {
    assert [] + more == more;
  }

  lemma SparseUnchanged(rules: Rules, previous: Value, next: Value, before: Option<Value>, previous': Value, i: nat,
                        slots: seq<Option<Value>>)
    requires WellFormed(next) && next.Arr? && i < |next.items|
    requires previous.Arr? && previous'.Arr? && Same(previous, previous') && WellFormed(previous')
    requires !Changed(Element(Some(previous), i), next.items[i])
    requires SlotsMatch(next, i, previous', slots)
    ensures SparseOps(previous, next, before, i) == SparseOps(previous, next, before, i + 1)
    ensures ChangedItems(previous, next, i) == ChangedItems(previous, next, i + 1)
    ensures SlotsMatch(next, i + 1, previous', slots)
    ensures SparseReadable(rules, previous, next, before, i) == SparseReadable(rules, previous, next, before, i + 1)
  {
    var p := previous.items[i];
    assert Same(p, previous'.items[i]) && WellFormed(previous'.items[i]);
    SameSymmetric(p, next.items[i]);
    SameTransitive(next.items[i], p, previous'.items[i]);
    assert [] + SparseOps(previous, next, before, i + 1) == SparseOps(previous, next, before, i + 1);
  }

  lemma SparseOpsCons(previous: Value, next: Value, before: Option<Value>, i: nat)
    requires WellFormed(next) && next.Arr? && i < |next.items|
    requires Changed(Element(Some(previous), i), next.items[i])
    ensures WellFormed(next.items[i])
    ensures SparseOps(previous, next, before, i)
         == [Varuint(i)] + (DeltaOps(Element(Some(previous), i), next.items[i], Element(before, i))
                            + SparseOps(previous, next, before, i + 1))
    ensures ChangedItems(previous, next, i) == 1 + ChangedItems(previous, next, i + 1)
  {
  }

  lemma SparseReadableCons(rules: Rules, previous: Value, next: Value, before: Option<Value>, i: nat)
    requires next.Arr? && i < |next.items|
    ensures SparseReadable(rules, previous, next, before, i) <==>
      && (Changed(Element(Some(previous), i), next.items[i]) ==>
          Readable(rules, Element(Some(previous), i), next.items[i], Element(before, i)))
      && SparseReadable(rules, previous, next, before, i + 1)
  {
  }

  lemma SparseStep(rules: Rules, r: Reader, count: nat, previous: Value, before: Option<Value>,
                   slots: seq<Option<Value>>, i: nat, r1: Reader)
    requires count > 0 && i < |slots| && ReadVaruint(r) == Ok((i, r1))
    ensures
      var res := ReadDelta(rules, r1, Element(Some(previous), i), Element(before, i));
      ReadItemDeltas(rules, r, count, previous, before, slots) ==
        if res.Err? then Err(res.failure)
        else ReadItemDeltas(rules, res.value.1, count - 1, previous, before, slots[i := Some(res.value.0)])
  {
  }

  lemma SlotsMatchLength(next: Value, i: nat, previous': Value, slots: seq<Option<Value>>)
    requires next.Arr? && i <= |next.items| && previous'.Arr? && SlotsMatch(next, i, previous', slots)
    ensures |slots| == |next.items|
  {
  }

  lemma SlotsMatchNext(next: Value, i: nat, previous': Value, slots: seq<Option<Value>>, item: Value)
    requires next.Arr? && i < |next.items| && previous'.Arr? && SlotsMatch(next, i, previous', slots)
    requires Same(next.items[i], item) && WellFormed(item)
    ensures SlotsMatch(next, i + 1, previous', slots[i := Some(item)])
  {
  }

  lemma SparseOutcomeFails(next: Value, previous': Value, res: Result<(seq<Option<Value>>, Reader)>, r: Reader)
    requires next.Arr? && previous'.Arr? && res.Err?
    ensures SparseOutcome(false, next, previous', res, r)
  {
  }

  lemma SyncedParts(previous: Value, before: Option<Value>, previous': Value, before': Option<Value>)
    requires Synced(Some(previous), before, Some(previous'), before')
    ensures Same(previous, previous') && WellFormed(previous) && WellFormed(previous') && SameOption(before, before')
  {
  }

  lemma {:induction false} ReadWrittenSparse(rules: Rules, previous: Value, next: Value, before: Option<Value>,
      previous': Value, before': Option<Value>, i: nat, slots: seq<Option<Value>>, table: seq<string>, more: seq<Op>)
    requires WellFormed(next) && next.Arr? && i <= |next.items|
    requires previous.Arr? && previous'.Arr?
    requires Synced(Some(previous), before, Some(previous'), before')
    requires SlotsMatch(next, i, previous', slots)
    requires Safe(table, SparseOps(previous, next, before, i) + more)
    ensures
      var ops := SparseOps(previous, next, before, i);
      SparseOutcome(SparseReadable(rules, previous, next, before, i), next, previous',
        ReadItemDeltas(rules, At(table, ops + more), ChangedItems(previous, next, i), previous', before', slots),
          At(Table(table, ops), more))
    decreases next, 0, |next.items| - i
  {
    hide *;
    SyncedParts(previous, before, previous', before');
    if i == |next.items| {
      SparseDone(rules, previous, next, before, previous', before', slots, table, more);
    } else if !Changed(Element(Some(previous), i), next.items[i]) {
      SparseUnchanged(rules, previous, next, before, previous', i, slots);
      ReadWrittenSparse(rules, previous, next, before, previous', before', i + 1, slots, table, more);
    } else {
      SparseOpsCons(previous, next, before, i);
      SparseReadableCons(rules, previous, next, before, i);
      SyncedItem(Some(previous), before, Some(previous'), before', i);
      SlotsMatchLength(next, i, previous', slots);
      var head := DeltaOps(Element(Some(previous), i), next.items[i], Element(before, i));
      var tail := SparseOps(previous, next, before, i + 1);
      CountFirst(table, i, head + tail, more);
      Sequence(table, head, tail, more);
      var r := At(table, [Varuint(i)] + (head + tail) + more);
      var r1 := At(table, head + tail + more);
      var r2 := At(Table(table, head), tail + more);
      var ok := Readable(rules, Element(Some(previous), i), next.items[i], Element(before, i));
      ReadWrittenDelta(rules, Element(Some(previous), i), next.items[i], Element(before, i),
                       Element(Some(previous'), i), Element(before', i), table, tail + more);
      var res := ReadDelta(rules, r1, Element(Some(previous'), i), Element(before', i));
      OutcomeParts(ok, next.items[i], res, r2);
      SparseStep(rules, r, ChangedItems(previous, next, i), previous', before', slots, i, r1);
      if ok {
        SlotsMatchNext(next, i, previous', slots, res.value.0);
        ReadWrittenSparse(rules, previous, next, before, previous', before', i + 1, slots[i := Some(res.value.0)],
                          Table(table, head), more);
      } else {
        SparseOutcomeFails(next, previous',
                           ReadItemDeltas(rules, r, ChangedItems(previous, next, i), previous', before', slots),
                           At(Table(table, head + tail), more));
      }
    }
  }

  // ----- objects: removals -----

  function RemoveAll(v: Value, keys: seq<string>): (w: Value)
    requires v.Obj?
    ensures w.Obj?
    decreases keys
  {
    if keys == [] then v else RemoveAll(Remove(v, keys[0]), keys[1..])
  }

  lemma {:induction false} WithoutFacts(keys: seq<string>, key: string)
    requires NoDuplicates(keys)
    ensures NoDuplicates(Without(keys, key))
    ensures forall k :: k in Without(keys, key) <==> k in keys && k != key
  {
    if keys != [] {
      WithoutFacts(keys[1..], key);
      var rest := Without(keys[1..], key);
      assert keys[0] !in keys[1..];
      assert keys == [keys[0]] + keys[1..];
    }
  }

  lemma RemoveWellFormed(v: Value, key: string)
    requires v.Obj? && WellFormed(v)
    ensures WellFormed(Remove(v, key))
  {
    WithoutFacts(v.keys, key);
  }

  lemma {:induction false} RemoveAllFacts(v: Value, keys: seq<string>)
    requires v.Obj? && WellFormed(v)
    ensures WellFormed(RemoveAll(v, keys))
    ensures forall k :: k in RemoveAll(v, keys).vals <==> k in v.vals && k !in keys
    ensures forall k :: k in RemoveAll(v, keys).vals ==> RemoveAll(v, keys).vals[k] == v.vals[k]
    decreases keys
  {
    if keys != [] {
      RemoveWellFormed(v, keys[0]);
      RemoveAllFacts(Remove(v, keys[0]), keys[1..]);
      assert forall k :: k in keys <==> k == keys[0] || k in keys[1..];
    }
  }

  lemma RemovalStep(r: Reader, count: nat, acc: Value, key: string, r1: Reader)
    requires acc.Obj? && count > 0 && ReadString(r) == Ok((key, r1))
    ensures ReadRemovals(r, count, acc) == ReadRemovals(r1, count - 1, Remove(acc, key))
  {
  }

  lemma RemovalsDone(acc: Value, table: seq<string>, more: seq<Op>)
    requires acc.Obj?
    ensures ReadRemovals(At(table, TextOps([]) + more), 0, acc)
      == Ok((RemoveAll(acc, []), At(Table(table, TextOps([])), more)))
  {
    assert TextOps([]) + more == more;
  }

  lemma TextOpsCons(keys: seq<string>, acc: Value)
    requires keys != [] && acc.Obj?
    ensures TextOps(keys) == [Text(keys[0])] + TextOps(keys[1..])
    ensures RemoveAll(acc, keys) == RemoveAll(Remove(acc, keys[0]), keys[1..])
  {
  }

  lemma {:induction false} ReadWrittenRemovals(keys: seq<string>, acc: Value, table: seq<string>, more: seq<Op>)
    requires acc.Obj? && Safe(table, TextOps(keys) + more)
    ensures ReadRemovals(At(table, TextOps(keys) + more), |keys|, acc)
         == Ok((RemoveAll(acc, keys), At(Table(table, TextOps(keys)), more)))
    decreases keys
  {
    hide *;
    if keys == [] {
      RemovalsDone(acc, table, more);
    } else {
      TextOpsCons(keys, acc);
      TextFirst(table, keys[0], TextOps(keys[1..]), more);
      var t := TableOp(table, Text(keys[0]));
      RemovalStep(At(table, TextOps(keys) + more), |keys|, acc, keys[0], At(t, TextOps(keys[1..]) + more));
      ReadWrittenRemovals(keys[1..], Remove(acc, keys[0]), t, more);
    }
  }

  lemma {:induction false} DeletedFacts(keys: seq<string>, next: map<string, Value>)
    ensures forall k :: k in Deleted(keys, next) <==> k in keys && k !in next
  {
    if keys != [] {
      DeletedFacts(keys[1..], next);
      assert forall k :: k in keys <==> k == keys[0] || k in keys[1..];
    }
  }

  // ----- objects: changes -----

  /** The map read so far: the members done as in `next`, the others still as in the base. */
  ghost predicate MapsMatch(previous: map<string, Value>, next: map<string, Value>, done: seq<string>,
                            acc: map<string, Value>) {
    && (forall k :: k in acc <==> k in next && (k in previous || k in done))
    && (forall k :: k in acc && k in done ==> Same(next[k], acc[k]))
    && (forall k :: k in acc && k !in done ==> Same(previous[k], acc[k]))
  }

  ghost predicate MembersMatch(previous: Value, next: Value, i: nat, acc: Value)
    requires previous.Obj? && next.Obj? && i <= |next.keys|
  {
    acc.Obj? && WellFormed(acc) && MapsMatch(previous.vals, next.vals, next.keys[..i], acc.vals)
  }

  lemma MapsInserted(previous: map<string, Value>, next: map<string, Value>, done: seq<string>,
                     acc: map<string, Value>, key: string, item: Value)
    requires MapsMatch(previous, next, done, acc) && key in next && Same(next[key], item)
    ensures MapsMatch(previous, next, done + [key], acc[key := item])
  {
    assert forall k :: k in done + [key] <==> k in done || k == key;
  }

  lemma MapsKept(previous: map<string, Value>, next: map<string, Value>, done: seq<string>, acc: map<string, Value>,
                 key: string)
    requires MapsMatch(previous, next, done, acc) && key in next && key in previous && key !in done
    requires Same(previous[key], next[key])
    ensures MapsMatch(previous, next, done + [key], acc)
  {
    assert forall k :: k in done + [key] <==> k in done || k == key;
    SameSymmetric(previous[key], next[key]);
    SameTransitive(next[key], previous[key], acc[key]);
  }

  lemma MembersStart(previous: Value, next: Value, previous': Value)
    requires previous.Obj? && next.Obj? && previous'.Obj?
    requires Same(previous, previous') && WellFormed(previous') && WellFormed(next)
    requires forall k :: k in previous.keys <==> k in previous.vals
    ensures MembersMatch(previous, next, 0, RemoveAll(previous', Deleted(previous.keys, next.vals)))
  {
    var deleted := Deleted(previous.keys, next.vals);
    RemoveAllFacts(previous', deleted);
    DeletedFacts(previous.keys, next.vals);
    var acc := RemoveAll(previous', deleted);
    assert next.keys[..0] == [];
    forall k ensures k in acc.vals <==> k in next.vals && k in previous.vals {
      assert k in previous'.vals <==> k in previous.vals;
    }
    forall k | k in acc.vals ensures Same(previous.vals[k], acc.vals[k]) {
      assert k in previous.vals;
    }
  }

  lemma MembersEnd(previous: Value, next: Value, acc: Value)
    requires previous.Obj? && next.Obj? && WellFormed(next)
    requires MembersMatch(previous, next, |next.keys|, acc)
    ensures Same(next, acc) && WellFormed(acc)
  {
    assert next.keys[..|next.keys|] == next.keys;
    forall k ensures k in acc.vals <==> k in next.vals {
      assert k in next.keys <==> k in next.vals;
    }
    forall k | k in next.vals ensures Same(next.vals[k], acc.vals[k]) {
      assert k in next.keys && k in acc.vals;
    }
  }

  lemma MembersKept(previous: Value, next: Value, i: nat, acc: Value)
    requires previous.Obj? && next.Obj? && WellFormed(next) && i < |next.keys|
    requires MembersMatch(previous, next, i, acc)
    requires !Changed(Member(Some(previous), next.keys[i]), next.vals[next.keys[i]])
    ensures MembersMatch(previous, next, i + 1, acc)
  {
    var key := next.keys[i];
    assert next.keys[..i + 1] == next.keys[..i] + [key];
    assert key in next.keys && key !in next.keys[..i];
    MapsKept(previous.vals, next.vals, next.keys[..i], acc.vals, key);
  }

  lemma InsertWellFormed(v: Value, key: string, item: Value)
    requires v.Obj? && WellFormed(v) && WellFormed(item)
    ensures WellFormed(Insert(v, key, item))
    ensures Insert(v, key, item).vals == v.vals[key := item]
  {
    var w := Insert(v, key, item);
    assert NoDuplicates(w.keys);
  }

  lemma MembersInserted(previous: Value, next: Value, i: nat, acc: Value, key: string, item: Value)
    requires previous.Obj? && next.Obj? && i < |next.keys| && key == next.keys[i] && key in next.vals
    requires MembersMatch(previous, next, i, acc)
    requires Same(next.vals[key], item) && WellFormed(item)
    ensures MembersMatch(previous, next, i + 1, Insert(acc, key, item))
  {
    assert next.keys[..i + 1] == next.keys[..i] + [key];
    hide *;
    MembersMatchParts(previous, next, i, acc);
    InsertWellFormed(acc, key, item);
    MapsInserted(previous.vals, next.vals, next.keys[..i], acc.vals, key, item);
    MembersMatchIntro(previous, next, i + 1, Insert(acc, key, item));
  }

  lemma MembersMatchParts(previous: Value, next: Value, i: nat, acc: Value)
    requires previous.Obj? && next.Obj? && i <= |next.keys| && MembersMatch(previous, next, i, acc)
    ensures acc.Obj? && WellFormed(acc) && MapsMatch(previous.vals, next.vals, next.keys[..i], acc.vals)
  {
  }

  lemma MembersMatchIntro(previous: Value, next: Value, i: nat, acc: Value)
    requires previous.Obj? && next.Obj? && i <= |next.keys|
    requires acc.Obj? && WellFormed(acc) && MapsMatch(previous.vals, next.vals, next.keys[..i], acc.vals)
    ensures MembersMatch(previous, next, i, acc)
  {
  }

  /** The members from i on can all be read. */
  predicate MembersReadable(rules: Rules, previous: Value, next: Value, before: Option<Value>, i: nat)
    requires next.Obj? && Ordered(next.keys, next.vals)
  {
    forall j :: i <= j < |next.keys| && Changed(Member(Some(previous), next.keys[j]), next.vals[next.keys[j]]) ==>
      Readable(rules, Member(Some(previous), next.keys[j]), next.vals[next.keys[j]], Member(before, next.keys[j]))
  }

  ghost predicate MembersOutcome(ok: bool, previous: Value, next: Value, res: Result<(Value, Reader)>, r: Reader)
    requires previous.Obj? && next.Obj?
  {
    if ok then res.Ok? && MembersMatch(previous, next, |next.keys|, res.value.0) && res.value.1 == r else res.Err?
  }

  lemma MembersReadableCons(rules: Rules, previous: Value, next: Value, before: Option<Value>, i: nat)
    requires next.Obj? && WellFormed(next) && i < |next.keys|
    ensures next.keys[i] in next.vals && WellFormed(next.vals[next.keys[i]])
    ensures Ordered(next.keys, next.vals)
    ensures MembersReadable(rules, previous, next, before, i) <==>
      && (Changed(Member(Some(previous), next.keys[i]), next.vals[next.keys[i]]) ==>
        Readable(rules, Member(Some(previous), next.keys[i]), next.vals[next.keys[i]], Member(before, next.keys[i])))
      && MembersReadable(rules, previous, next, before, i + 1)
  {
  }

  lemma MemberDeltasDone(rules: Rules, previous: Value, next: Value, before: Option<Value>, previous': Value,
                         before': Option<Value>, acc: Value, table: seq<string>, more: seq<Op>)
    requires next.Obj? && WellFormed(next) && previous.Obj? && MembersMatch(previous, next, |next.keys|, acc)
    ensures
      var n := |next.keys|;
      var ops := MemberDeltaOps(previous, next, before, n);
      && Ordered(next.keys, next.vals)
      && ChangedMembers(previous, next, n) == 0
      && MembersReadable(rules, previous, next, before, n)
      && MembersOutcome(true, previous, next,
                        ReadMemberDeltas(rules, At(table, ops + more), 0, previous', before', acc),
        At(Table(table, ops), more))
  {
    assert [] + more == more;
  }

  lemma MemberUnchanged(previous: Value, next: Value, before: Option<Value>, i: nat)
    requires next.Obj? && WellFormed(next) && i < |next.keys|
    requires !Changed(Member(Some(previous), next.keys[i]), next.vals[next.keys[i]])
    ensures MemberDeltaOps(previous, next, before, i) == MemberDeltaOps(previous, next, before, i + 1)
    ensures ChangedMembers(previous, next, i) == ChangedMembers(previous, next, i + 1)
  {
    assert [] + MemberDeltaOps(previous, next, before, i + 1) == MemberDeltaOps(previous, next, before, i + 1);
  }

  lemma MemberDeltaOpsCons(previous: Value, next: Value, before: Option<Value>, i: nat)
    requires next.Obj? && WellFormed(next) && i < |next.keys|
    requires Changed(Member(Some(previous), next.keys[i]), next.vals[next.keys[i]])
    ensures MemberDeltaOps(previous, next, before, i)
         == [Text(next.keys[i])]
           + (DeltaOps(Member(Some(previous), next.keys[i]), next.vals[next.keys[i]], Member(before, next.keys[i]))
            + MemberDeltaOps(previous, next, before, i + 1))
    ensures ChangedMembers(previous, next, i) == 1 + ChangedMembers(previous, next, i + 1)
  {
  }

  lemma MemberStep(rules: Rules, r: Reader, count: nat, previous: Value, before: Option<Value>, acc: Value,
                   key: string, r1: Reader)
    requires acc.Obj? && count > 0 && ReadString(r) == Ok((key, r1))
    ensures
      var res := ReadDelta(rules, r1, Member(Some(previous), key), Member(before, key));
      ReadMemberDeltas(rules, r, count, previous, before, acc) ==
        if res.Err? then Err(res.failure)
        else ReadMemberDeltas(rules, res.value.1, count - 1, previous, before, Insert(acc, key, res.value.0))
  {
  }

  lemma MembersOutcomeFails(previous: Value, next: Value, res: Result<(Value, Reader)>, r: Reader)
    requires previous.Obj? && next.Obj? && res.Err?
    ensures MembersOutcome(false, previous, next, res, r)
  {
  }

  lemma {:induction false} ReadWrittenMemberDeltas(rules: Rules, previous: Value, next: Value, before: Option<Value>,
      previous': Value, before': Option<Value>, i: nat, acc: Value, table: seq<string>, more: seq<Op>)
    requires WellFormed(next) && next.Obj? && i <= |next.keys| && Ordered(next.keys, next.vals)
    requires previous.Obj? && acc.Obj?
    requires Synced(Some(previous), before, Some(previous'), before')
    requires MembersMatch(previous, next, i, acc)
    requires Safe(table, MemberDeltaOps(previous, next, before, i) + more)
    ensures
      var ops := MemberDeltaOps(previous, next, before, i);
      MembersOutcome(MembersReadable(rules, previous, next, before, i), previous, next,
        ReadMemberDeltas(rules, At(table, ops + more), ChangedMembers(previous, next, i), previous', before', acc),
          At(Table(table, ops), more))
    decreases next, 0, |next.keys| - i
  {
    hide *;
    if i == |next.keys| {
      MemberDeltasDone(rules, previous, next, before, previous', before', acc, table, more);
    } else {
      MembersReadableCons(rules, previous, next, before, i);
      var key := next.keys[i];
      if !Changed(Member(Some(previous), key), next.vals[key]) {
        MemberUnchanged(previous, next, before, i);
        MembersKept(previous, next, i, acc);
        ReadWrittenMemberDeltas(rules, previous, next, before, previous', before', i + 1, acc, table, more);
      } else {
        MemberDeltaOpsCons(previous, next, before, i);
        SyncedMember(Some(previous), before, Some(previous'), before', key);
        var head := DeltaOps(Member(Some(previous), key), next.vals[key], Member(before, key));
        var tail := MemberDeltaOps(previous, next, before, i + 1);
        TextFirst(table, key, head + tail, more);
        var t := TableOp(table, Text(key));
        Sequence(t, head, tail, more);
        var r := At(table, [Text(key)] + (head + tail) + more);
        var r1 := At(t, head + tail + more);
        var r2 := At(Table(t, head), tail + more);
        var ok := Readable(rules, Member(Some(previous), key), next.vals[key], Member(before, key));
        ReadWrittenDelta(rules, Member(Some(previous), key), next.vals[key], Member(before, key),
                         Member(Some(previous'), key), Member(before', key), t, tail + more);
        var res := ReadDelta(rules, r1, Member(Some(previous'), key), Member(before', key));
        OutcomeParts(ok, next.vals[key], res, r2);
        MemberStep(rules, r, ChangedMembers(previous, next, i), previous', before', acc, key, r1);
        if ok {
          MembersInserted(previous, next, i, acc, key, res.value.0);
          ReadWrittenMemberDeltas(rules, previous, next, before, previous', before', i + 1,
                                  Insert(acc, key, res.value.0), Table(t, head), more);
        } else {
          MembersOutcomeFails(previous, next,
                              ReadMemberDeltas(rules, r, ChangedMembers(previous, next, i), previous', before', acc),
                              At(Table(t, head + tail), more));
        }
      }
    }
  }

  // ----- containers -----

  lemma DenseTagStep(rules: Rules, r: Reader, previous: Value, before: Option<Value>, r1: Reader)
    requires previous.Arr? && ReadByte(r) == Ok((DELTA_DENSE_ARRAY, r1)) && !Exhausted(rules.room)
    ensures
      var res := ReadDense(Deeper(rules), r1, previous, before, 0);
      ReadDelta(rules, r, Some(previous), before) == if res.Err? then Err(res.failure)
        else Ok((Arr(res.value.0), res.value.1))
  {
  }

  lemma DenseCaseShape(rules: Rules, previous: Value, next: Value, before: Option<Value>)
    requires !Exhausted(rules.room)
    requires WellFormed(next) && previous.Arr? && next.Arr? && Changed(Some(previous), next)
    requires !FloatArrays(previous, next) && Dense(previous, next)
    ensures DeltaOps(Some(previous), next, before) == [Byte(DELTA_DENSE_ARRAY)] + DenseOps(previous, next, before, 0)
    ensures Readable(rules, Some(previous), next, before) == DenseReadable(Deeper(rules), previous, next, before, 0)
  {
    DenseReadableShape(rules, previous, next, before);
    hide Readable, DenseReadable, Changed, FloatArrays, Dense;
  }

  lemma DenseReadableShape(rules: Rules, previous: Value, next: Value, before: Option<Value>)
    requires !Exhausted(rules.room)
    requires WellFormed(next) && previous.Arr? && next.Arr? && Changed(Some(previous), next)
    requires !FloatArrays(previous, next) && Dense(previous, next)
    ensures Readable(rules, Some(previous), next, before) == DenseReadable(Deeper(rules), previous, next, before, 0)
  {
    hide WellFormed, Changed, FloatArrays, Dense, Element, FloatsRefused, NumberRefused;
    forall i ensures DenseHistory(Deeper(rules), before, i) == DenseHistory(rules, before, i) {
    }
  }

  lemma DenseResult(ok: bool, next: Value, items: Result<(seq<Value>, Reader)>, res: Result<(Value, Reader)>, r: Reader)
    requires next.Arr? && DenseOutcome(ok, next, 0, items, r)
    requires res == if items.Err? then Err(items.failure) else Ok((Arr(items.value.0), items.value.1))
    ensures Outcome(ok, next, res, r)
  {
    if ok {
      forall j | 0 <= j < |next.items| ensures Same(next.items[j], items.value.0[j]) {
        assert next.items[0 + j] == next.items[j];
      }
    }
  }

  lemma SameLength(a: Value, b: Value)
    requires Same(a, b)
    ensures a.Arr? == b.Arr? && (a.Arr? ==> |a.items| == |b.items|)
    ensures a.Obj? == b.Obj?
    ensures a.Num? ==> a == b
  {
  }

  lemma DenseLength(previous: Value, next: Value)
    requires previous.Arr? && next.Arr? && Dense(previous, next)
    ensures |previous.items| == |next.items|
  {
  }

  lemma DenseCase(rules: Rules, previous: Value, next: Value, before: Option<Value>, previous': Value,
                  before': Option<Value>, table: seq<string>, more: seq<Op>)
    requires !Exhausted(rules.room)
    requires WellFormed(next) && previous.Arr? && next.Arr? && Changed(Some(previous), next)
    requires !FloatArrays(previous, next) && Dense(previous, next)
    requires Synced(Some(previous), before, Some(previous'), before')
    requires Safe(table, DeltaOps(Some(previous), next, before) + more)
    ensures
      var ops := DeltaOps(Some(previous), next, before);
      Outcome(Readable(rules, Some(previous), next, before), next,
        ReadDelta(rules, At(table, ops + more), Some(previous'), before'), At(Table(table, ops), more))
    decreases next, 0, |next.items| + 1
  {
    hide *;
    SyncedParts(previous, before, previous', before');
    SameLength(previous, previous');
    DenseLength(previous, next);
    DenseCaseShape(rules, previous, next, before);
    var body := DenseOps(previous, next, before, 0);
    TagFirst(table, DELTA_DENSE_ARRAY, body, more);
    ReadWrittenDense(Deeper(rules), previous, next, before, previous', before', 0, table, more);
    var r := At(table, [Byte(DELTA_DENSE_ARRAY)] + body + more);
    DenseTagStep(rules, r, previous', before', At(table, body + more));
    DenseResult(DenseReadable(Deeper(rules), previous, next, before, 0), next,
                ReadDense(Deeper(rules), At(table, body + more), previous', before', 0),
      ReadDelta(rules, r, Some(previous'), before'), At(Table(table, body), more));
  }

  function Collect(slots: seq<Option<Value>>, r: Reader): Result<(Value, Reader)> {
    if exists i :: 0 <= i < |slots| && slots[i].None? then Err(UndefinedItem)
    else Ok((Arr(Filled(slots)), r))
  }

  lemma SparseTagStep(rules: Rules, r: Reader, previous: Value, before: Option<Value>, r1: Reader, length: nat,
                      r2: Reader, changes: nat, r3: Reader)
    requires previous.Arr? && ReadByte(r) == Ok((DELTA_ARRAY, r1)) && !Exhausted(rules.room)
    requires ReadVaruint(r1) == Ok((length, r2)) && ReadVaruint(r2) == Ok((changes, r3))
    ensures
      var res := ReadItemDeltas(Deeper(rules), r3, changes, previous, before, Slots(previous.items, length));
      ReadDelta(rules, r, Some(previous), before) == if res.Err? then Err(res.failure)
        else Collect(res.value.0, res.value.1)
  {
    hide ReadByte, ReadVaruint, ReadItemDeltas, Slots, ReadDense, ReadObjectDelta, ReadFloatArray, ReadFloatPatch,
      ReadIntegerDifference,
      ReadNumberXor, ReadValue, DenseFloatTag;
  }

  lemma SparseResult(ok: bool, next: Value, previous': Value, slots: Result<(seq<Option<Value>>, Reader)>,
                     res: Result<(Value, Reader)>, r: Reader)
    requires next.Arr? && previous'.Arr? && SparseOutcome(ok, next, previous', slots, r)
    requires res == if slots.Err? then Err(slots.failure) else Collect(slots.value.0, slots.value.1)
    ensures Outcome(ok, next, res, r)
  {
  }

  lemma SparseCaseShape(rules: Rules, previous: Value, next: Value, before: Option<Value>)
    requires !Exhausted(rules.room)
    requires WellFormed(next) && previous.Arr? && next.Arr? && Changed(Some(previous), next)
    requires !FloatArrays(previous, next) && !Dense(previous, next)
    ensures DeltaOps(Some(previous), next, before)
         == [Byte(DELTA_ARRAY)] + ([Varuint(|next.items|)]
                                   + ([Varuint(ChangedItems(previous, next, 0))]
                                      + SparseOps(previous, next, before, 0)))
    ensures Readable(rules, Some(previous), next, before) == SparseReadable(Deeper(rules), previous, next, before, 0)
  {
    SparseReadableShape(rules, previous, next, before);
    hide Readable, SparseReadable, Changed, FloatArrays, Dense;
  }

  lemma SparseReadableShape(rules: Rules, previous: Value, next: Value, before: Option<Value>)
    requires !Exhausted(rules.room)
    requires WellFormed(next) && previous.Arr? && next.Arr? && Changed(Some(previous), next)
    requires !FloatArrays(previous, next) && !Dense(previous, next)
    ensures Readable(rules, Some(previous), next, before) == SparseReadable(Deeper(rules), previous, next, before, 0)
  {
    hide WellFormed, Changed, FloatArrays, Dense, Element, FloatsRefused, NumberRefused;
  }

  lemma SlotsStart(next: Value, previous': Value)
    requires next.Arr? && previous'.Arr?
    ensures SlotsMatch(next, 0, previous', Slots(previous'.items, |next.items|))
  {
  }

  lemma SparseCase(rules: Rules, previous: Value, next: Value, before: Option<Value>, previous': Value,
                   before': Option<Value>, table: seq<string>, more: seq<Op>)
    requires !Exhausted(rules.room)
    requires WellFormed(next) && previous.Arr? && next.Arr? && Changed(Some(previous), next)
    requires !FloatArrays(previous, next) && !Dense(previous, next)
    requires Synced(Some(previous), before, Some(previous'), before')
    requires Safe(table, DeltaOps(Some(previous), next, before) + more)
    ensures
      var ops := DeltaOps(Some(previous), next, before);
      Outcome(Readable(rules, Some(previous), next, before), next,
        ReadDelta(rules, At(table, ops + more), Some(previous'), before'), At(Table(table, ops), more))
    decreases next, 0, |next.items| + 1
  {
    hide *;
    SyncedParts(previous, before, previous', before');
    SameLength(previous, previous');
    SparseCaseShape(rules, previous, next, before);
    var items := SparseOps(previous, next, before, 0);
    var changes := ChangedItems(previous, next, 0);
    var counted := [Varuint(changes)] + items;
    var body := [Varuint(|next.items|)] + counted;
    TagFirst(table, DELTA_ARRAY, body, more);
    CountFirst(table, |next.items|, counted, more);
    CountFirst(table, changes, items, more);
    SlotsStart(next, previous');
    var slots := Slots(previous'.items, |next.items|);
    ReadWrittenSparse(Deeper(rules), previous, next, before, previous', before', 0, slots, table, more);
    var r := At(table, [Byte(DELTA_ARRAY)] + body + more);
    SparseTagStep(rules, r, previous', before', At(table, body + more), |next.items|, At(table, counted + more),
                  changes, At(table, items + more));
    SparseResult(SparseReadable(Deeper(rules), previous, next, before, 0), next, previous',
      ReadItemDeltas(Deeper(rules), At(table, items + more), changes, previous', before', slots),
      ReadDelta(rules, r, Some(previous'), before'), At(Table(table, items), more));
  }

  lemma ObjectTagStep(rules: Rules, r: Reader, previous: Value, before: Option<Value>, r1: Reader)
    requires previous.Obj? && ReadByte(r) == Ok((DELTA_OBJECT, r1)) && !Exhausted(rules.room)
    ensures ReadDelta(rules, r, Some(previous), before) == ReadObjectDelta(Deeper(rules), r1, previous, before)
  {
    hide ReadByte, ReadVaruint, ReadItemDeltas, Slots, ReadDense, ReadObjectDelta, ReadFloatArray, ReadFloatPatch,
      ReadIntegerDifference,
      ReadNumberXor, ReadValue, DenseFloatTag;
  }

  lemma ObjectPatchStep(rules: Rules, r1: Reader, previous: Value, before: Option<Value>, deletions: nat, r2: Reader,
                        kept: Value, r3: Reader, changes: nat, r4: Reader)
    requires previous.Obj? && kept.Obj?
    requires ReadVaruint(r1) == Ok((deletions, r2)) && ReadRemovals(r2, deletions, previous) == Ok((kept, r3))
    requires ReadVaruint(r3) == Ok((changes, r4))
    ensures ReadObjectDelta(rules, r1, previous, before) == ReadMemberDeltas(rules, r4, changes, previous, before, kept)
  {
  }

  lemma ObjectResult(ok: bool, previous: Value, next: Value, res: Result<(Value, Reader)>, r: Reader)
    requires previous.Obj? && next.Obj? && WellFormed(next) && MembersOutcome(ok, previous, next, res, r)
    ensures Outcome(ok, next, res, r)
  {
    if ok {
      MembersEnd(previous, next, res.value.0);
    }
  }

  lemma ObjectCaseShape(rules: Rules, previous: Value, next: Value, before: Option<Value>)
    requires !Exhausted(rules.room)
    requires WellFormed(next) && previous.Obj? && next.Obj? && Changed(Some(previous), next)
    ensures Ordered(next.keys, next.vals)
    ensures
      var deleted := Deleted(previous.keys, next.vals);
      DeltaOps(Some(previous), next, before)
        == [Byte(DELTA_OBJECT)] + ([Varuint(|deleted|)] + (TextOps(deleted)
           + ([Varuint(ChangedMembers(previous, next, 0))] + MemberDeltaOps(previous, next, before, 0))))
    ensures Readable(rules, Some(previous), next, before) == MembersReadable(Deeper(rules), previous, next, before, 0)
  {
    var deleted := Deleted(previous.keys, next.vals);
    var tail := [Varuint(ChangedMembers(previous, next, 0))] + MemberDeltaOps(previous, next, before, 0);
    assert [Byte(DELTA_OBJECT), Varuint(|deleted|)] + TextOps(deleted) + tail
        == [Byte(DELTA_OBJECT)] + ([Varuint(|deleted|)] + (TextOps(deleted) + tail));
    ReadableByIndex(rules, previous, next, before);
  }

  lemma ReadableByIndex(rules: Rules, previous: Value, next: Value, before: Option<Value>)
    requires !Exhausted(rules.room)
    requires WellFormed(next) && previous.Obj? && next.Obj? && Changed(Some(previous), next)
    ensures Readable(rules, Some(previous), next, before) == MembersReadable(Deeper(rules), previous, next, before, 0)
  {
    ReadableByKey(rules, previous, next, before);
    hide Readable, Changed, Deeper, WellFormed;
    var inner := Deeper(rules);
    if MembersReadable(inner, previous, next, before, 0) {
      forall k | k in next.vals && Changed(Member(Some(previous), k), next.vals[k])
        ensures Readable(inner, Member(Some(previous), k), next.vals[k], Member(before, k))
      {
        assert k in next.keys;
        var j :| 0 <= j < |next.keys| && next.keys[j] == k;
        assert Changed(Member(Some(previous), next.keys[j]), next.vals[next.keys[j]]);
      }
    }
  }

  lemma ReadableByKey(rules: Rules, previous: Value, next: Value, before: Option<Value>)
    requires !Exhausted(rules.room)
    requires WellFormed(next) && previous.Obj? && next.Obj? && Changed(Some(previous), next)
    ensures Ordered(next.keys, next.vals)
    ensures Readable(rules, Some(previous), next, before) <==>
      forall k :: k in next.vals && Changed(Member(Some(previous), k), next.vals[k]) ==>
        Readable(Deeper(rules), Member(Some(previous), k), next.vals[k], Member(before, k))
  {
    hide Changed;
  }

  lemma OrderedPrevious(previous: Value)
    requires previous.Obj? && WellFormed(previous)
    ensures forall k :: k in previous.keys <==> k in previous.vals
  {
  }

  lemma ObjectCase(rules: Rules, previous: Value, next: Value, before: Option<Value>, previous': Value,
                   before': Option<Value>, table: seq<string>, more: seq<Op>)
    requires !Exhausted(rules.room)
    requires WellFormed(next) && previous.Obj? && next.Obj? && Changed(Some(previous), next)
    requires Synced(Some(previous), before, Some(previous'), before')
    requires Safe(table, DeltaOps(Some(previous), next, before) + more)
    ensures
      var ops := DeltaOps(Some(previous), next, before);
      Outcome(Readable(rules, Some(previous), next, before), next,
        ReadDelta(rules, At(table, ops + more), Some(previous'), before'), At(Table(table, ops), more))
    decreases next, 0, |next.keys| + 1
  {
    hide *;
    SyncedParts(previous, before, previous', before');
    SameLength(previous, previous');
    OrderedPrevious(previous);
    ObjectCaseShape(rules, previous, next, before);
    var deleted := Deleted(previous.keys, next.vals);
    var members := MemberDeltaOps(previous, next, before, 0);
    var changes := ChangedMembers(previous, next, 0);
    var counted := [Varuint(changes)] + members;
    var removals := TextOps(deleted) + counted;
    var body := [Varuint(|deleted|)] + removals;
    TagFirst(table, DELTA_OBJECT, body, more);
    CountFirst(table, |deleted|, removals, more);
    Sequence(table, TextOps(deleted), counted, more);
    ReadWrittenRemovals(deleted, previous', table, counted + more);
    var t := Table(table, TextOps(deleted));
    CountFirst(t, changes, members, more);
    MembersStart(previous, next, previous');
    var kept := RemoveAll(previous', deleted);
    ReadWrittenMemberDeltas(Deeper(rules), previous, next, before, previous', before', 0, kept, t, more);
    var r := At(table, [Byte(DELTA_OBJECT)] + body + more);
    ObjectTagStep(rules, r, previous', before', At(table, body + more));
    ObjectPatchStep(Deeper(rules), At(table, body + more), previous', before', |deleted|, At(table, removals + more),
      kept, At(t, counted + more), changes, At(t, members + more));
    ObjectResult(MembersReadable(Deeper(rules), previous, next, before, 0), previous, next,
      ReadDelta(rules, r, Some(previous'), before'), At(Table(t, members), more));
  }

  // ----- the theorem -----

  lemma SameShape(rules: Rules, previous: Option<Value>, next: Value, before: Option<Value>)
    requires WellFormed(next) && !Changed(previous, next) && !Exhausted(rules.room)
    ensures DeltaOps(previous, next, before) == [Byte(DELTA_SAME)]
    ensures Readable(rules, previous, next, before) && previous.Some? && Same(previous.value, next)
  {
  }

  lemma NumberShape(rules: Rules, previous: Value, next: Value, before: Option<Value>)
    requires Changed(Some(previous), next) && previous.Num? && next.Num? && WellFormed(next) && !Exhausted(rules.room)
    ensures DeltaOps(Some(previous), next, before) == NumberDeltaOps(previous.bits, next.bits, NumberOf(before))
    ensures Readable(rules, Some(previous), next, before) == !NumberRefused(rules, previous.bits, next.bits, before)
    ensures previous.bits != next.bits && Finite(next.bits)
  {
  }

  lemma FloatShape(rules: Rules, previous: Value, next: Value, before: Option<Value>)
    requires Changed(Some(previous), next) && FloatArrays(previous, next) && WellFormed(next) && !Exhausted(rules.room)
    ensures DeltaOps(Some(previous), next, before) == FloatArrayOps(previous, next, before)
    ensures Readable(rules, Some(previous), next, before) == !FloatsRefused(rules, previous, next, before)
  {
    assert previous.Arr? && next.Arr?;
    hide WellFormed, Same, Changed, FloatArrays, FloatArrayOps, FloatsRefused, Dense;
  }

  lemma ReplaceShape(rules: Rules, previous: Option<Value>, next: Value, before: Option<Value>)
    requires Changed(previous, next) && WellFormed(next) && !Exhausted(rules.room)
    requires previous.Some? ==>
      !(previous.value.Num? && next.Num?) && !(previous.value.Arr? && next.Arr?) && !(previous.value.Obj? && next.Obj?)
    ensures DeltaOps(previous, next, before) == [Byte(DELTA_REPLACE)] + ValueOps(next)
    ensures Readable(rules, previous, next, before) == FitsRoom(rules.room, next)
  {
  }

  lemma SyncedOption(previous: Option<Value>, before: Option<Value>, previous': Option<Value>, before': Option<Value>)
    requires Synced(previous, before, previous', before')
    ensures previous.Some? <==> previous'.Some?
    ensures NumberOf(before) == NumberOf(before')
    ensures previous.Some? ==> Same(previous.value, previous'.value) && WellFormed(previous'.value)
    ensures SameOption(before, before')
  {
  }

  lemma NoRoom(rules: Rules, previous: Option<Value>, next: Value, before: Option<Value>, r: Reader,
               previous': Option<Value>,
               before': Option<Value>)
    requires Exhausted(rules.room)
    ensures !Readable(rules, previous, next, before) && ReadDelta(rules, r, previous', before').Err?
  {
    hide ReadRoomyDelta;
  }

  /** For every step between two values, with the reader holding deep copies of the two values
      before it: the reader succeeds exactly when the history meets its rules, and then returns
      a deep copy of the next value and stops exactly behind the bytes of this step. */
  lemma {:induction false} ReadWrittenDelta(rules: Rules, previous: Option<Value>, next: Value, before: Option<Value>,
                                            previous': Option<Value>, before': Option<Value>, table: seq<string>,
                                            more: seq<Op>)
    requires WellFormed(next) && Synced(previous, before, previous', before')
    requires Safe(table, DeltaOps(previous, next, before) + more)
    ensures
      var ops := DeltaOps(previous, next, before);
      Outcome(Readable(rules, previous, next, before), next,
        ReadDelta(rules, At(table, ops + more), previous', before'), At(Table(table, ops), more))
    decreases next, 1, 0
  {
    hide *;
    SyncedOption(previous, before, previous', before');
    if Exhausted(rules.room) {
      NoRoom(rules, previous, next, before, At(table, DeltaOps(previous, next, before) + more), previous', before');
      OutcomeFails(next, ReadDelta(rules, At(table, DeltaOps(previous, next, before) + more), previous', before'),
                   At(Table(table, DeltaOps(previous, next, before)), more));
    } else if !Changed(previous, next) {
      SameShape(rules, previous, next, before);
      SameCase(previous.value, next, previous'.value, rules, before', table, more);
    } else if previous.Some? && previous.value.Num? && next.Num? {
      NumberShape(rules, previous.value, next, before);
      SameLength(previous.value, previous'.value);
      NumberCase(rules, previous.value.bits, next.bits, before, before', table, more);
    } else if previous.Some? && previous.value.Arr? && next.Arr? {
      if FloatArrays(previous.value, next) {
        FloatShape(rules, previous.value, next, before);
        SameFloatOps(rules, previous.value, next, before, before');
        FloatBase(previous.value, next, previous'.value);
        FloatArrayCase(rules, previous.value, next, before', table, more);
      } else if Dense(previous.value, next) {
        DenseCase(rules, previous.value, next, before, previous'.value, before', table, more);
      } else {
        SparseCase(rules, previous.value, next, before, previous'.value, before', table, more);
      }
    } else if previous.Some? && previous.value.Obj? && next.Obj? {
      ObjectCase(rules, previous.value, next, before, previous'.value, before', table, more);
    } else {
      ReplaceShape(rules, previous, next, before);
      ReplaceCase(next, rules, previous', before', table, more);
    }
  }

  lemma FloatBase(previous: Value, next: Value, previous': Value)
    requires FloatArrays(previous, next) && Same(previous, previous')
    ensures previous == previous'
  {
    SameArrays(previous, previous');
  }
}
