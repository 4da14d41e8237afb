/** The readers look only at what they consume: whatever follows makes no difference. So of the byte
    strings that decode to a chunk none continues another, and nothing may be added to one or cut off. */
module PrefixFree {
  import opened Base
  import opened Floats
  import opened Values
  import opened Wire
  import opened Packing
  import opened Residuals
  import opened Delta
  import opened Decode
  import C = ChunkRoundTrip

  /** The reader with further bytes behind its own. */
  function Extend(r: Reader, more: seq<byte>): Reader {
    r.(bytes := r.bytes + more)
  }

  /** What was read, the reader behind it with further bytes. */
  ghost predicate Extends<T(!new)>(read: Result<(T, Reader)>, further: Result<(T, Reader)>, more: seq<byte>) {
    read.Ok? ==> further == Ok((read.value.0, Extend(read.value.1, more)))
  }

  lemma ExtendsParts<T(!new)>(read: Result<(T, Reader)>, further: Result<(T, Reader)>, more: seq<byte>)
    requires Extends(read, further, more)
    ensures read.Ok? ==> further == Ok((read.value.0, Extend(read.value.1, more)))
  {
  }

  lemma FailureExtends<T(!new)>(read: Result<(T, Reader)>, further: Result<(T, Reader)>, more: seq<byte>)
    requires read.Err?
    ensures Extends(read, further, more)
  {
  }

  lemma OkExtends<T(!new)>(value: T, r: Reader, more: seq<byte>)
    ensures Extends(Ok((value, r)), Ok((value, Extend(r, more))), more)
  {
  }

  // ----- bytes, counts, texts -----

  lemma ByteExtends(r: Reader, more: seq<byte>)
    ensures Extends(ReadByte(r), ReadByte(Extend(r, more)), more)
  {
    if r.bytes != [] {
      assert (r.bytes + more)[1..] == r.bytes[1..] + more;
    }
  }

  lemma BytesExtends(r: Reader, length: nat, more: seq<byte>)
    ensures Extends(ReadBytes(r, length), ReadBytes(Extend(r, more), length), more)
  {
    if length <= |r.bytes| {
      assert (r.bytes + more)[..length] == r.bytes[..length];
      assert (r.bytes + more)[length..] == r.bytes[length..] + more;
    }
  }

  lemma {:induction false} GroupsExtend(r: Reader, left: nat, value: nat, factor: nat, more: seq<byte>)
    ensures Extends(ReadGroups(r, left, value, factor), ReadGroups(Extend(r, more), left, value, factor), more)
    decreases left
  {
    if left > 0 {
      ByteExtends(r, more);
      if ReadByte(r).Ok? {
        var (b, r1) := ReadByte(r).value;
        hide ReadByte, Extend;
        if b >= 128 {
          GroupsExtend(r1, left - 1, value + b % 128 * factor, factor * 128, more);
        }
      }
    }
  }

  lemma VaruintExtends(r: Reader, more: seq<byte>)
    ensures Extends(ReadVaruint(r), ReadVaruint(Extend(r, more)), more)
  {
    GroupsExtend(r, 8, 0, 1, more);
    hide ReadGroups;
  }

  lemma NewStringExtends(r: Reader, length: nat, more: seq<byte>)
    ensures Extends(NewString(r, length), NewString(Extend(r, more), length), more)
  {
    BytesExtends(r, length, more);
    hide ReadBytes;
  }

  lemma StringExtends(r: Reader, more: seq<byte>)
    ensures Extends(ReadString(r), ReadString(Extend(r, more)), more)
  {
    VaruintExtends(r, more);
    if ReadVaruint(r).Ok? {
      var (token, r1) := ReadVaruint(r).value;
      NewStringExtends(r1, token / 2, more);
    }
    hide ReadVaruint, NewString;
  }

  // ----- whole values -----

  lemma IntegerExtends(r: Reader, more: seq<byte>)
    ensures Extends(ReadInteger(r), ReadInteger(Extend(r, more)), more)
  {
    ByteExtends(r, more);
    if ReadByte(r).Ok? {
      VaruintExtends(ReadByte(r).value.1, more);
    }
    hide ReadByte, ReadVaruint, FromInt;
  }

  lemma {:induction false} ValueExtends(room: Option<nat>, r: Reader, more: seq<byte>)
    ensures Extends(ReadValue(room, r), ReadValue(room, Extend(r, more)), more)
    decreases |r.bytes|, 0, 0
  {
    ByteExtends(r, more);
    if ReadByte(r).Ok? {
      var (tag, r1) := ReadByte(r).value;
      hide ReadByte, ReadBytes, ReadVaruint, ReadString, ReadItems, ReadMembers, ReadInteger, Widen, Extend,
        FromInt, Word32,
        Word64;
      if tag == VALUE_INTEGER {
        IntegerExtends(r1, more);
      } else if tag == VALUE_FLOAT32 {
        BytesExtends(r1, 4, more);
      } else if tag == VALUE_FLOAT64 {
        BytesExtends(r1, 8, more);
      } else if tag == VALUE_STRING {
        StringExtends(r1, more);
      } else if tag == VALUE_ARRAY || tag == VALUE_OBJECT {
        VaruintExtends(r1, more);
        if ReadVaruint(r1).Ok? {
          var (count, r2) := ReadVaruint(r1).value;
          ItemsExtend(Less(room), r2, count, more);
          MembersExtend(Less(room), r2, count, Obj([], map[]), more);
        }
      }
    }
  }

  lemma ItemsStep(room: Option<nat>, r: Reader, count: nat)
    requires count > 0
    ensures
      var item := ReadValue(room, r);
      ReadItems(room, r, count) ==
        if item.Err? then Err(item.failure)
        else
          var rest := ReadItems(room, item.value.1, count - 1);
          if rest.Err? then Err(rest.failure) else Ok(([item.value.0] + rest.value.0, rest.value.1))
  {
    hide ReadValue;
  }

  lemma {:induction false} ItemsExtend(room: Option<nat>, r: Reader, count: nat, more: seq<byte>)
    ensures Extends(ReadItems(room, r, count), ReadItems(room, Extend(r, more), count), more)
    decreases |r.bytes|, 1, count
  {
    hide *;
    if count > 0 {
      var read, item := ReadItems(room, r, count), ReadValue(room, r);
      ItemsStep(room, r, count);
      ItemsStep(room, Extend(r, more), count);
      ValueExtends(room, r, more);
      ExtendsParts(item, ReadValue(room, Extend(r, more)), more);
      if read.Ok? {
        var r1 := item.value.1;
        ItemsExtend(room, r1, count - 1, more);
        ExtendsParts(ReadItems(room, r1, count - 1), ReadItems(room, Extend(r1, more), count - 1), more);
        OkExtends(read.value.0, read.value.1, more);
      } else {
        FailureExtends(read, ReadItems(room, Extend(r, more), count), more);
      }
    } else {
      NoItems(room, r, more);
    }
  }

  lemma NoItems(room: Option<nat>, r: Reader, more: seq<byte>)
    ensures Extends(ReadItems(room, r, 0), ReadItems(room, Extend(r, more), 0), more)
  {
  }

  lemma MembersStep(room: Option<nat>, r: Reader, count: nat, acc: Value)
    requires acc.Obj? && count > 0
    ensures
      var key := ReadString(r);
      ReadMembers(room, r, count, acc) ==
        if key.Err? then Err(key.failure)
        else
          var item := ReadValue(room, key.value.1);
          if item.Err? then Err(item.failure)
          else ReadMembers(room, item.value.1, count - 1, Insert(acc, key.value.0, item.value.0))
  {
    hide ReadString, ReadValue, Insert;
  }

  lemma {:induction false} MembersExtend(room: Option<nat>, r: Reader, count: nat, acc: Value, more: seq<byte>)
    requires acc.Obj?
    ensures Extends(ReadMembers(room, r, count, acc), ReadMembers(room, Extend(r, more), count, acc), more)
    decreases |r.bytes|, 1, count
  {
    hide *;
    if count > 0 {
      var read, further := ReadMembers(room, r, count, acc), ReadMembers(room, Extend(r, more), count, acc);
      MembersStep(room, r, count, acc);
      MembersStep(room, Extend(r, more), count, acc);
      var key := ReadString(r);
      StringExtends(r, more);
      ExtendsParts(key, ReadString(Extend(r, more)), more);
      if key.Ok? && ReadValue(room, key.value.1).Ok? {
        var item := ReadValue(room, key.value.1);
        ValueExtends(room, key.value.1, more);
        ExtendsParts(item, ReadValue(room, Extend(key.value.1, more)), more);
        MembersExtend(room, item.value.1, count - 1, Insert(acc, key.value.0, item.value.0), more);
      } else {
        FailureExtends(read, further, more);
      }
    } else {
      NoMembers(room, r, acc, more);
    }
  }

  lemma NoMembers(room: Option<nat>, r: Reader, acc: Value, more: seq<byte>)
    requires acc.Obj?
    ensures Extends(ReadMembers(room, r, 0, acc), ReadMembers(room, Extend(r, more), 0, acc), more)
  {
  }

  // ----- number patches -----

  lemma XorExtends(r: Reader, previous: Option<Value>, more: seq<byte>)
    ensures Extends(ReadNumberXor(r, previous), ReadNumberXor(Extend(r, more), previous), more)
  {
    ByteExtends(r, more);
    if ReadByte(r).Ok? {
      var (descriptor, r1) := ReadByte(r).value;
      BytesExtends(r1, descriptor % 16 + 1, more);
    }
    hide ReadByte, ReadBytes, Xor, Shift, WordOf, Extend;
  }

  lemma DifferenceExtends(r: Reader, previous: Option<Value>, more: seq<byte>)
    ensures Extends(ReadIntegerDifference(r, previous), ReadIntegerDifference(Extend(r, more), previous), more)
  {
    VaruintExtends(r, more);
    hide ReadVaruint, ToInt, FromInt, Integral, WholePart, UnZigZag, Extend;
  }

  lemma PatchExtends(r: Reader, mode: Mode, previous: Option<Value>, before: Option<Value>, more: seq<byte>)
    ensures Extends(ReadFloatPatch(r, mode, previous, before),
                    ReadFloatPatch(Extend(r, more), mode, previous, before), more)
  {
    VaruintExtends(r, more);
    hide ReadVaruint, Widen, Patch, Prediction, Extend, Exact;
  }

  // ----- float32 array patches -----

  lemma FloatItemsStep(r: Reader, mode: Mode, history: seq<F64>, previous: seq<F64>, i: nat)
    requires |history| == |previous| && i < |previous|
    ensures
      var n := ReadVaruint(r);
      ReadFloatItems(r, mode, history, previous, i) ==
        if n.Err? then Err(n.failure)
        else
          var bits := Patch(mode, Prediction(mode, history[i], previous[i]), n.value.0);
          if bits.Err? then Err(bits.failure)
          else
            var rest := ReadFloatItems(n.value.1, mode, history, previous, i + 1);
            if rest.Err? then Err(rest.failure) else Ok(([Num(Widen(bits.value))] + rest.value.0, rest.value.1))
  {
    hide ReadVaruint, Widen, Patch, Prediction;
  }

  lemma {:induction false} FloatItemsExtend(r: Reader, mode: Mode, history: seq<F64>, previous: seq<F64>, i: nat,
                                            more: seq<byte>)
    requires |history| == |previous| && i <= |previous|
    ensures Extends(ReadFloatItems(r, mode, history, previous, i),
                    ReadFloatItems(Extend(r, more), mode, history, previous, i), more)
    decreases |previous| - i
  {
    hide *;
    if i < |previous| {
      var read := ReadFloatItems(r, mode, history, previous, i);
      FloatItemsStep(r, mode, history, previous, i);
      FloatItemsStep(Extend(r, more), mode, history, previous, i);
      VaruintExtends(r, more);
      ExtendsParts(ReadVaruint(r), ReadVaruint(Extend(r, more)), more);
      if read.Ok? {
        var r1 := ReadVaruint(r).value.1;
        FloatItemsExtend(r1, mode, history, previous, i + 1, more);
        ExtendsParts(ReadFloatItems(r1, mode, history, previous, i + 1),
                     ReadFloatItems(Extend(r1, more), mode, history, previous, i + 1), more);
        OkExtends(read.value.0, read.value.1, more);
      } else {
        FailureExtends(read, ReadFloatItems(Extend(r, more), mode, history, previous, i), more);
      }
    } else {
      NoFloatItems(r, mode, history, previous, more);
    }
  }

  lemma NoFloatItems(r: Reader, mode: Mode, history: seq<F64>, previous: seq<F64>, more: seq<byte>)
    requires |history| == |previous|
    ensures Extends(ReadFloatItems(r, mode, history, previous, |previous|),
                    ReadFloatItems(Extend(r, more), mode, history, previous, |previous|), more)
  {
  }

  lemma PackedExtends(r: Reader, count: nat, width: nat, more: seq<byte>)
    ensures Extends(ReadPacked(r, count, width), ReadPacked(Extend(r, more), count, width), more)
  {
    BytesExtends(r, PackedLength(count, width), more);
    hide ReadBytes, Packing.Unpack, FromLittleEndian, Extend;
  }

  lemma PackedArrayExtends(rules: Rules, r: Reader, previous: Option<Value>, before: Option<Value>, more: seq<byte>)
    requires previous.Some? && ExactArray(previous.value)
    ensures Extends(ReadFloatArray(rules, r, DENSE_FLOAT32_BITPACKED, previous, before),
                    ReadFloatArray(rules, Extend(r, more), DENSE_FLOAT32_BITPACKED, previous, before), more)
  {
    assert previous.value.Arr?;
    hide ReadByte, ReadPacked, ReadFloatItems, HistoryBits, BitsOf, PatchItems, ExactArray, Extend, HistoryRefused,
      PredictionsRaise, FloatHistory;
    ByteExtends(r, more);
    if ReadByte(r).Ok? {
      var r1 := ReadByte(r).value.1;
      ByteExtends(r1, more);
      if ReadByte(r1).Ok? {
        PackedExtends(ReadByte(r1).value.1, |previous.value.items|, ReadByte(r1).value.0, more);
      }
    }
  }

  lemma PlainArrayExtends(rules: Rules, r: Reader, tag: byte, previous: Option<Value>, before: Option<Value>,
                          more: seq<byte>)
    requires previous.Some? && ExactArray(previous.value) && tag != DENSE_FLOAT32_BITPACKED
    ensures Extends(ReadFloatArray(rules, r, tag, previous, before),
                    ReadFloatArray(rules, Extend(r, more), tag, previous, before), more)
  {
    hide ReadByte, ReadPacked, ReadFloatItems, HistoryBits, BitsOf, PatchItems, ExactArray, Extend, HistoryRefused,
      PredictionsRaise, FloatHistory, ModeOfTag;
    var base := previous.value;
    FloatItemsExtend(r, ModeOfTag(tag), HistoryBits(before, base), BitsOf(base), 0, more);
  }

  lemma FloatArrayExtends(rules: Rules, r: Reader, tag: byte, previous: Option<Value>, before: Option<Value>,
                          more: seq<byte>)
    ensures Extends(ReadFloatArray(rules, r, tag, previous, before),
                    ReadFloatArray(rules, Extend(r, more), tag, previous, before), more)
  {
    if previous.None? || !ExactArray(previous.value) {
      hide ExactArray;
    } else {
      hide *;
      if tag == DENSE_FLOAT32_BITPACKED {
        PackedArrayExtends(rules, r, previous, before, more);
      } else {
        PlainArrayExtends(rules, r, tag, previous, before, more);
      }
    }
  }

  // ----- patches -----

  lemma RemovalsStep(r: Reader, count: nat, acc: Value)
    requires acc.Obj? && count > 0
    ensures
      var key := ReadString(r);
      ReadRemovals(r, count, acc) ==
        if key.Err? then Err(key.failure) else ReadRemovals(key.value.1, count - 1, Remove(acc, key.value.0))
  {
    hide ReadString, Remove;
  }

  lemma {:induction false} RemovalsExtend(r: Reader, count: nat, acc: Value, more: seq<byte>)
    requires acc.Obj?
    ensures Extends(ReadRemovals(r, count, acc), ReadRemovals(Extend(r, more), count, acc), more)
    decreases count
  {
    hide *;
    if count == 0 {
      NoRemovals(r, acc, more);
    } else {
      RemovalsStep(r, count, acc);
      RemovalsStep(Extend(r, more), count, acc);
      var key := ReadString(r);
      StringExtends(r, more);
      ExtendsParts(key, ReadString(Extend(r, more)), more);
      if key.Ok? {
        RemovalsExtend(key.value.1, count - 1, Remove(acc, key.value.0), more);
      } else {
        FailureExtends(ReadRemovals(r, count, acc), ReadRemovals(Extend(r, more), count, acc), more);
      }
    }
  }

  lemma NoRemovals(r: Reader, acc: Value, more: seq<byte>)
    requires acc.Obj?
    ensures Extends(ReadRemovals(r, 0, acc), ReadRemovals(Extend(r, more), 0, acc), more)
  {
  }

  lemma {:induction false} DeltaExtends(rules: Rules, r: Reader, previous: Option<Value>, before: Option<Value>,
                                        more: seq<byte>)
    ensures Extends(ReadDelta(rules, r, previous, before), ReadDelta(rules, Extend(r, more), previous, before), more)
    decreases |r.bytes|, 0, 0
  {
    hide *;
    if ReadDelta(rules, r, previous, before).Err? {
      FailureExtends(ReadDelta(rules, r, previous, before), ReadDelta(rules, Extend(r, more), previous, before), more);
    } else {
      DeltaHead(rules, r, previous, before);
      var (tag, r1) := ReadByte(r).value;
      ByteExtends(r, more);
      ExtendsParts(ReadByte(r), ReadByte(Extend(r, more)), more);
      DeltaHead(rules, Extend(r, more), previous, before);
      PatchesExtend(rules, tag, r1, previous, before, more);
    }
  }

  /** What is read behind the tag. */
  function ReadTagged(rules: Rules, tag: byte, r: Reader, previous: Option<Value>,
                      before: Option<Value>): Result<(Value, Reader)> {
    if tag == DELTA_SAME then
      if previous.None? then Err(BadBase) else Ok((previous.value, r))
    else if tag == DELTA_REPLACE then ReadValue(rules.room, r)
    else if tag == DELTA_NUMBER_XOR then ReadNumberXor(r, previous)
    else if tag == DELTA_FLOAT32_XOR then ReadFloatPatch(r, MODE_XOR, previous, before)
    else if tag == DELTA_FLOAT32_DIFFERENCE then ReadFloatPatch(r, MODE_DIFFERENCE, previous, before)
    else if tag == DELTA_FLOAT32_BIT_PREDICTION then ReadFloatPatch(r, MODE_BIT_PREDICTION, previous, before)
    else if tag == DELTA_FLOAT32_VALUE_PREDICTION then
      if PredictionRaises(rules, previous, before) then Err(OutOfRange)
      else ReadFloatPatch(r, MODE_VALUE_PREDICTION, previous, before)
    else if tag == DELTA_INTEGER_DIFFERENCE then ReadIntegerDifference(r, previous)
    else if tag == DELTA_OBJECT then
      if previous.None? || !previous.value.Obj? then Err(BadBase)
      else ReadObjectDelta(Deeper(rules), r, previous.value, before)
    else if tag == DELTA_ARRAY then
      if previous.None? || !previous.value.Arr? then Err(BadBase) else ReadArray(rules, r, previous.value, before)
    else if tag == DELTA_DENSE_ARRAY then
      if previous.None? || !previous.value.Arr? then Err(BadBase)
      else
        var (items, r1) :- ReadDense(Deeper(rules), r, previous.value, before, 0);
        Ok((Arr(items), r1))
    else if DenseFloatTag(tag) then ReadFloatArray(rules, r, tag, previous, before)
    else Err(UnknownTag)
  }

  function ReadArray(rules: Rules, r: Reader, previous: Value, before: Option<Value>): Result<(Value, Reader)>
    requires previous.Arr?
  {
    var (length, r1) :- ReadVaruint(r);
    var (changes, r2) :- ReadVaruint(r1);
    Finished(ReadItemDeltas(Deeper(rules), r2, changes, previous, before, Slots(previous.items, length)))
  }

  lemma DeltaHead(rules: Rules, r: Reader, previous: Option<Value>, before: Option<Value>)
    ensures ReadDelta(rules, r, previous, before) ==
      if Exhausted(rules.room) then Err(TooDeep)
      else if ReadByte(r).Err? then Err(ReadByte(r).failure)
      else ReadTagged(rules, ReadByte(r).value.0, ReadByte(r).value.1, previous, before)
  {
    hide ReadByte, ReadValue, ReadNumberXor, ReadFloatPatch, ReadIntegerDifference, ReadObjectDelta, ReadItemDeltas,
      ReadDense, ReadFloatArray, ReadVaruint, PredictionRaises, Slots, Deeper, DenseFloatTag;
  }

  lemma {:induction false} PatchesExtend(rules: Rules, tag: byte, r: Reader, previous: Option<Value>,
                                         before: Option<Value>, more: seq<byte>)
    ensures Extends(ReadTagged(rules, tag, r, previous, before),
                    ReadTagged(rules, tag, Extend(r, more), previous, before),
                    more)
    decreases |r.bytes|, 4, 0
  {
    hide ReadValue, ReadNumberXor, ReadFloatPatch, ReadIntegerDifference, ReadObjectDelta, ReadArray, ReadDense,
      ReadFloatArray, PredictionRaises, Deeper, DenseFloatTag;
    if tag == DELTA_OBJECT {
      if previous.Some? && previous.value.Obj? {
        ObjectExtends(Deeper(rules), r, previous.value, before, more);
      }
    } else if tag == DELTA_ARRAY {
      if previous.Some? && previous.value.Arr? {
        ArrayExtends(rules, r, previous.value, before, more);
      }
    } else if tag == DELTA_DENSE_ARRAY {
      if previous.Some? && previous.value.Arr? {
        DenseExtends(Deeper(rules), r, previous.value, before, 0, more);
      }
    } else {
      hide Extend;
      LeavesExtend(rules, tag, r, previous, before, more);
    }
  }

  lemma LeavesExtend(rules: Rules, tag: byte, r: Reader, previous: Option<Value>, before: Option<Value>,
                     more: seq<byte>)
    requires tag != DELTA_OBJECT && tag != DELTA_ARRAY && tag != DELTA_DENSE_ARRAY
    ensures Extends(ReadTagged(rules, tag, r, previous, before),
                    ReadTagged(rules, tag, Extend(r, more), previous, before),
                    more)
  {
    hide ReadValue, ReadNumberXor, ReadFloatPatch, ReadIntegerDifference, ReadObjectDelta, ReadArray, ReadDense,
      ReadFloatArray, PredictionRaises, Deeper, DenseFloatTag, Extend;
    ValueExtends(rules.room, r, more);
    XorExtends(r, previous, more);
    DifferenceExtends(r, previous, more);
    FloatArrayExtends(rules, r, tag, previous, before, more);
    PatchExtends(r, MODE_XOR, previous, before, more);
    PatchExtends(r, MODE_DIFFERENCE, previous, before, more);
    PatchExtends(r, MODE_BIT_PREDICTION, previous, before, more);
    PatchExtends(r, MODE_VALUE_PREDICTION, previous, before, more);
  }

  lemma ArrayStep(rules: Rules, r: Reader, previous: Value, before: Option<Value>)
    requires previous.Arr?
    ensures
      var length := ReadVaruint(r);
      ReadArray(rules, r, previous, before) ==
        if length.Err? then Err(length.failure)
        else
          var changes := ReadVaruint(length.value.1);
          if changes.Err? then Err(changes.failure)
          else Finished(ReadItemDeltas(Deeper(rules), changes.value.1, changes.value.0, previous, before,
                                       Slots(previous.items, length.value.0)))
  {
    hide ReadVaruint, ReadItemDeltas, Slots, Deeper;
  }

  /** The list of the slots, once all are filled. */
  function Finished(slots: Result<(seq<Option<Value>>, Reader)>): (res: Result<(Value, Reader)>)
    ensures res.Ok? ==> slots.Ok? && res.value.1 == slots.value.1
  {
    if slots.Err? then Err(slots.failure)
    else if exists i :: 0 <= i < |slots.value.0| && slots.value.0[i].None? then Err(UndefinedItem)
    else Ok((Arr(Filled(slots.value.0)), slots.value.1))
  }

  lemma FinishedExtends(slots: Result<(seq<Option<Value>>, Reader)>, further: Result<(seq<Option<Value>>, Reader)>,
                        more: seq<byte>)
    requires Extends(slots, further, more)
    ensures Extends(Finished(slots), Finished(further), more)
  {
    hide Extend;
  }

  lemma {:induction false} ArrayExtends(rules: Rules, r: Reader, previous: Value, before: Option<Value>,
                                        more: seq<byte>)
    requires previous.Arr?
    ensures Extends(ReadArray(rules, r, previous, before), ReadArray(rules, Extend(r, more), previous, before), more)
    decreases |r.bytes|, 3, 0
  {
    hide *;
    var read, length := ReadArray(rules, r, previous, before), ReadVaruint(r);
    ArrayStep(rules, r, previous, before);
    ArrayStep(rules, Extend(r, more), previous, before);
    VaruintExtends(r, more);
    ExtendsParts(length, ReadVaruint(Extend(r, more)), more);
    if read.Ok? {
      var changes := ReadVaruint(length.value.1);
      VaruintExtends(length.value.1, more);
      ExtendsParts(changes, ReadVaruint(Extend(length.value.1, more)), more);
      var slots, r2 := Slots(previous.items, length.value.0), changes.value.1;
      ItemDeltasExtend(Deeper(rules), r2, changes.value.0, previous, before, slots, more);
      FinishedExtends(ReadItemDeltas(Deeper(rules), r2, changes.value.0, previous, before, slots),
                      ReadItemDeltas(Deeper(rules), Extend(r2, more), changes.value.0, previous, before, slots), more);
    } else {
      FailureExtends(read, ReadArray(rules, Extend(r, more), previous, before), more);
    }
  }

  lemma {:induction false} ObjectExtends(rules: Rules, r: Reader, previous: Value, before: Option<Value>,
                                         more: seq<byte>)
    requires previous.Obj?
    ensures Extends(ReadObjectDelta(rules, r, previous, before),
                    ReadObjectDelta(rules, Extend(r, more), previous, before), more)
    decreases |r.bytes|, 2, 0
  {
    VaruintExtends(r, more);
    if ReadVaruint(r).Ok? {
      var (deletions, r1) := ReadVaruint(r).value;
      RemovalsExtend(r1, deletions, previous, more);
      if ReadRemovals(r1, deletions, previous).Ok? {
        var (kept, r2) := ReadRemovals(r1, deletions, previous).value;
        VaruintExtends(r2, more);
        if ReadVaruint(r2).Ok? {
          var (changes, r3) := ReadVaruint(r2).value;
          MemberDeltasExtend(rules, r3, changes, previous, before, kept, more);
        }
      }
    }
    hide ReadVaruint, ReadRemovals, ReadMemberDeltas, Extend;
  }

  lemma MemberDeltasStep(rules: Rules, r: Reader, count: nat, previous: Value, before: Option<Value>, acc: Value)
    requires acc.Obj? && count > 0
    ensures
      var key := ReadString(r);
      ReadMemberDeltas(rules, r, count, previous, before, acc) ==
        if key.Err? then Err(key.failure)
        else
          var name := key.value.0;
          var item := ReadDelta(rules, key.value.1, Member(Some(previous), name), Member(before, name));
          if item.Err? then Err(item.failure)
          else ReadMemberDeltas(rules, item.value.1, count - 1, previous, before, Insert(acc, name, item.value.0))
  {
    hide ReadString, ReadDelta, Insert, Member;
  }

  lemma {:induction false} MemberDeltasExtend(rules: Rules, r: Reader, count: nat, previous: Value,
                                              before: Option<Value>,
                                              acc: Value, more: seq<byte>)
    requires acc.Obj?
    ensures Extends(ReadMemberDeltas(rules, r, count, previous, before, acc),
                    ReadMemberDeltas(rules, Extend(r, more), count, previous, before, acc), more)
    decreases |r.bytes|, 1, count
  {
    hide *;
    if count > 0 {
      MemberDeltasStep(rules, r, count, previous, before, acc);
      MemberDeltasStep(rules, Extend(r, more), count, previous, before, acc);
      var key := ReadString(r);
      StringExtends(r, more);
      ExtendsParts(key, ReadString(Extend(r, more)), more);
      if ReadMemberDeltas(rules, r, count, previous, before, acc).Ok? {
        var name, r1 := key.value.0, key.value.1;
        var item := ReadDelta(rules, r1, Member(Some(previous), name), Member(before, name));
        DeltaExtends(rules, r1, Member(Some(previous), name), Member(before, name), more);
        ExtendsParts(item, ReadDelta(rules, Extend(r1, more), Member(Some(previous), name), Member(before, name)),
                     more);
        MemberDeltasExtend(rules, item.value.1, count - 1, previous, before, Insert(acc, name, item.value.0), more);
      } else {
        FailureExtends(ReadMemberDeltas(rules, r, count, previous, before, acc),
                       ReadMemberDeltas(rules, Extend(r, more), count, previous, before, acc), more);
      }
    } else {
      NoMemberDeltas(rules, r, previous, before, acc, more);
    }
  }

  lemma NoMemberDeltas(rules: Rules, r: Reader, previous: Value, before: Option<Value>, acc: Value, more: seq<byte>)
    requires acc.Obj?
    ensures Extends(ReadMemberDeltas(rules, r, 0, previous, before, acc),
                    ReadMemberDeltas(rules, Extend(r, more), 0, previous, before, acc), more)
  {
  }

  lemma ItemDeltasStep(rules: Rules, r: Reader, count: nat, previous: Value, before: Option<Value>,
                       slots: seq<Option<Value>>)
    requires count > 0
    ensures
      var at := ReadVaruint(r);
      ReadItemDeltas(rules, r, count, previous, before, slots) ==
        if at.Err? then Err(at.failure)
        else if at.value.0 >= |slots| then Err(BadDelta)
        else
          var index := at.value.0;
          var item := ReadDelta(rules, at.value.1, Element(Some(previous), index), Element(before, index));
          if item.Err? then Err(item.failure)
          else ReadItemDeltas(rules, item.value.1, count - 1, previous, before, slots[index := Some(item.value.0)])
  {
    hide ReadVaruint, ReadDelta, Element;
  }

  lemma {:induction false} ItemDeltasExtend(rules: Rules, r: Reader, count: nat, previous: Value, before: Option<Value>,
                                            slots: seq<Option<Value>>, more: seq<byte>)
    ensures Extends(ReadItemDeltas(rules, r, count, previous, before, slots),
                    ReadItemDeltas(rules, Extend(r, more), count, previous, before, slots), more)
    decreases |r.bytes|, 1, count
  {
    hide *;
    if count > 0 {
      ItemDeltasStep(rules, r, count, previous, before, slots);
      ItemDeltasStep(rules, Extend(r, more), count, previous, before, slots);
      var at := ReadVaruint(r);
      VaruintExtends(r, more);
      ExtendsParts(at, ReadVaruint(Extend(r, more)), more);
      if ReadItemDeltas(rules, r, count, previous, before, slots).Ok? {
        var index, r1 := at.value.0, at.value.1;
        var item := ReadDelta(rules, r1, Element(Some(previous), index), Element(before, index));
        DeltaExtends(rules, r1, Element(Some(previous), index), Element(before, index), more);
        ExtendsParts(item, ReadDelta(rules, Extend(r1, more), Element(Some(previous), index), Element(before, index)),
                     more);
        ItemDeltasExtend(rules, item.value.1, count - 1, previous, before, slots[index := Some(item.value.0)], more);
      } else {
        FailureExtends(ReadItemDeltas(rules, r, count, previous, before, slots),
                       ReadItemDeltas(rules, Extend(r, more), count, previous, before, slots), more);
      }
    } else {
      NoItemDeltas(rules, r, previous, before, slots, more);
    }
  }

  lemma NoItemDeltas(rules: Rules, r: Reader, previous: Value, before: Option<Value>, slots: seq<Option<Value>>,
                     more: seq<byte>)
    ensures Extends(ReadItemDeltas(rules, r, 0, previous, before, slots),
                    ReadItemDeltas(rules, Extend(r, more), 0, previous, before, slots), more)
  {
  }

  lemma DenseStep(rules: Rules, r: Reader, previous: Value, before: Option<Value>, i: nat)
    requires previous.Arr? && i < |previous.items|
    ensures
      var history := DenseHistory(rules, before, i);
      ReadDense(rules, r, previous, before, i) ==
        if history.Err? then Err(history.failure)
        else
          var item := ReadDelta(rules, r, Some(previous.items[i]), history.value);
          if item.Err? then Err(item.failure)
          else
            var rest := ReadDense(rules, item.value.1, previous, before, i + 1);
            if rest.Err? then Err(rest.failure) else Ok(([item.value.0] + rest.value.0, rest.value.1))
  {
    hide ReadDelta, DenseHistory;
  }

  lemma {:induction false} DenseExtends(rules: Rules, r: Reader, previous: Value, before: Option<Value>, i: nat,
                                        more: seq<byte>)
    requires previous.Arr? && i <= |previous.items|
    ensures Extends(ReadDense(rules, r, previous, before, i),
                    ReadDense(rules, Extend(r, more), previous, before, i), more)
    decreases |r.bytes|, 1, |previous.items| - i
  {
    hide *;
    if i < |previous.items| {
      var read, history := ReadDense(rules, r, previous, before, i), DenseHistory(rules, before, i);
      DenseStep(rules, r, previous, before, i);
      DenseStep(rules, Extend(r, more), previous, before, i);
      if read.Ok? {
        var item := ReadDelta(rules, r, Some(previous.items[i]), history.value);
        DeltaExtends(rules, r, Some(previous.items[i]), history.value, more);
        ExtendsParts(item, ReadDelta(rules, Extend(r, more), Some(previous.items[i]), history.value), more);
        var r1 := item.value.1;
        DenseExtends(rules, r1, previous, before, i + 1, more);
        ExtendsParts(ReadDense(rules, r1, previous, before, i + 1),
                     ReadDense(rules, Extend(r1, more), previous, before, i + 1), more);
        OkExtends(read.value.0, read.value.1, more);
      } else {
        FailureExtends(read, ReadDense(rules, Extend(r, more), previous, before, i), more);
      }
    } else {
      NoDense(rules, r, previous, before, more);
    }
  }

  lemma NoDense(rules: Rules, r: Reader, previous: Value, before: Option<Value>, more: seq<byte>)
    requires previous.Arr?
    ensures Extends(ReadDense(rules, r, previous, before, |previous.items|),
                    ReadDense(rules, Extend(r, more), previous, before, |previous.items|), more)
  {
  }

  // ----- chunks -----

  lemma {:induction false} TicksExtend(rules: Rules, r: Reader, count: nat, ticks: seq<Value>, more: seq<byte>)
    requires ticks != []
    ensures Extends(ReadTicks(rules, r, count, ticks), ReadTicks(rules, Extend(r, more), count, ticks), more)
    decreases count
  {
    hide *;
    if count > 0 {
      var previous, before := C.Previous(ticks, |ticks|, 1), C.Previous(ticks, |ticks|, 2);
      C.ReadTicksStep(rules, r, count, ticks);
      C.ReadTicksStep(rules, Extend(r, more), count, ticks);
      var step := ReadDelta(rules, r, previous, before);
      DeltaExtends(rules, r, previous, before, more);
      ExtendsParts(step, ReadDelta(rules, Extend(r, more), previous, before), more);
      if step.Ok? {
        TicksExtend(rules, step.value.1, count - 1, ticks + [step.value.0], more);
      } else {
        FailureExtends(ReadTicks(rules, r, count, ticks), ReadTicks(rules, Extend(r, more), count, ticks), more);
      }
    } else {
      NoTicks(rules, r, ticks, more);
    }
  }

  lemma NoTicks(rules: Rules, r: Reader, ticks: seq<Value>, more: seq<byte>)
    requires ticks != []
    ensures Extends(ReadTicks(rules, r, 0, ticks), ReadTicks(rules, Extend(r, more), 0, ticks), more)
  {
  }

  /** Everything of a chunk but the test that nothing follows. */
  function ReadChunk(rules: Rules, r: Reader): Result<((nat, seq<Value>), Reader)> {
    var (magic, r1) :- ReadBytes(r, 4);
    if magic != CHUNK_MAGIC then Err(BadMagic)
    else
      var (version, r2) :- ReadByte(r1);
      if version != CHUNK_VERSION then Err(BadVersion)
      else
        var (first, r3) :- ReadVaruint(r2);
        var (count, r4) :- ReadVaruint(r3);
        if count < 1 then Err(BadCount)
        else
          var (tick, r5) :- ReadValue(rules.room, r4);
          var (ticks, r6) :- ReadTicks(rules, r5, count - 1, [tick]);
          Ok(((first, ticks), r6))
  }

  lemma DecodeIsRead(rules: Rules, bytes: seq<byte>)
    ensures
      var read := ReadChunk(rules, Reader(bytes, []));
      DecodeChunk(rules, bytes)
        == if read.Err? then Err(read.failure)
           else if read.value.1.bytes != [] then Err(TrailingInput)
           else Ok(read.value.0)
  {
    hide ReadBytes, ReadByte, ReadVaruint, ReadValue, ReadTicks;
  }

  /** What is read behind the version. */
  function ReadBody(rules: Rules, r: Reader): Result<((nat, seq<Value>), Reader)> {
    var (first, r1) :- ReadVaruint(r);
    var (count, r2) :- ReadVaruint(r1);
    if count < 1 then Err(BadCount)
    else
      var (tick, r3) :- ReadValue(rules.room, r2);
      var (ticks, r4) :- ReadTicks(rules, r3, count - 1, [tick]);
      Ok(((first, ticks), r4))
  }

  lemma BodyStep(rules: Rules, r: Reader)
    ensures
      var first := ReadVaruint(r);
      ReadBody(rules, r) ==
        if first.Err? then Err(first.failure)
        else
          var count := ReadVaruint(first.value.1);
          if count.Err? then Err(count.failure)
          else if count.value.0 < 1 then Err(BadCount)
          else
            var tick := ReadValue(rules.room, count.value.1);
            if tick.Err? then Err(tick.failure)
            else
              var ticks := ReadTicks(rules, tick.value.1, count.value.0 - 1, [tick.value.0]);
              if ticks.Err? then Err(ticks.failure)
              else Ok(((first.value.0, ticks.value.0), ticks.value.1))
  {
    hide ReadVaruint, ReadValue, ReadTicks;
  }

  lemma BodyExtends(rules: Rules, r: Reader, more: seq<byte>)
    ensures Extends(ReadBody(rules, r), ReadBody(rules, Extend(r, more)), more)
  {
    hide *;
    var read, first := ReadBody(rules, r), ReadVaruint(r);
    BodyStep(rules, r);
    BodyStep(rules, Extend(r, more));
    if read.Ok? {
      VaruintExtends(r, more);
      ExtendsParts(first, ReadVaruint(Extend(r, more)), more);
      var count := ReadVaruint(first.value.1);
      VaruintExtends(first.value.1, more);
      ExtendsParts(count, ReadVaruint(Extend(first.value.1, more)), more);
      var tick := ReadValue(rules.room, count.value.1);
      ValueExtends(rules.room, count.value.1, more);
      ExtendsParts(tick, ReadValue(rules.room, Extend(count.value.1, more)), more);
      var n, start := count.value.0 - 1, [tick.value.0];
      TicksExtend(rules, tick.value.1, n, start, more);
      ExtendsParts(ReadTicks(rules, tick.value.1, n, start), ReadTicks(rules, Extend(tick.value.1, more), n, start),
                   more);
      OkExtends(read.value.0, read.value.1, more);
    } else {
      FailureExtends(read, ReadBody(rules, Extend(r, more)), more);
    }
  }

  lemma HeadStep(rules: Rules, r: Reader)
    ensures
      var magic := ReadBytes(r, 4);
      ReadChunk(rules, r) ==
        if magic.Err? then Err(magic.failure)
        else if magic.value.0 != CHUNK_MAGIC then Err(BadMagic)
        else
          var version := ReadByte(magic.value.1);
          if version.Err? then Err(version.failure)
          else if version.value.0 != CHUNK_VERSION then Err(BadVersion)
          else ReadBody(rules, version.value.1)
  {
    hide ReadBytes, ReadByte, ReadVaruint, ReadValue, ReadTicks;
  }

  lemma ChunkExtends(rules: Rules, r: Reader, more: seq<byte>)
    ensures Extends(ReadChunk(rules, r), ReadChunk(rules, Extend(r, more)), more)
  {
    hide *;
    var read, magic := ReadChunk(rules, r), ReadBytes(r, 4);
    HeadStep(rules, r);
    HeadStep(rules, Extend(r, more));
    if read.Ok? {
      BytesExtends(r, 4, more);
      ExtendsParts(magic, ReadBytes(Extend(r, more), 4), more);
      var version := ReadByte(magic.value.1);
      ByteExtends(magic.value.1, more);
      ExtendsParts(version, ReadByte(Extend(magic.value.1, more)), more);
      BodyExtends(rules, version.value.1, more);
    } else {
      FailureExtends(read, ReadChunk(rules, Extend(r, more)), more);
    }
  }

  /** No byte string that decodes to a chunk is the start of another: with bytes added, or with bytes cut
      off, it is refused. */
  lemma NothingFollows(rules: Rules, bytes: seq<byte>, more: seq<byte>)
    requires more != []
    ensures DecodeChunk(rules, bytes).Err? || DecodeChunk(rules, bytes + more).Err?
  {
    ChunkExtends(rules, Reader(bytes, []), more);
    DecodeIsRead(rules, bytes);
    DecodeIsRead(rules, bytes + more);
    hide ReadChunk, DecodeChunk;
    var read := ReadChunk(rules, Reader(bytes, []));
    if read.Ok? && read.value.1.bytes == [] {
      assert Extend(read.value.1, more).bytes == more;
    }
  }

  /** What decodes starts with the letters HSRD and the version. */
  lemma StartsWithMagic(rules: Rules, bytes: seq<byte>)
    requires DecodeChunk(rules, bytes).Ok?
    ensures |bytes| > 5 && bytes[..5] == [0x48, 0x53, 0x52, 0x44, 1]
  {
    hide ReadVaruint, ReadValue, ReadTicks;
    assert bytes[..5] == bytes[..4] + [bytes[4]];
  }

  /** There are nine kinds of value and sixteen of patch; the sign of an integer is 0 or 1. */
  lemma UnknownKinds(rules: Rules, r: Reader, previous: Option<Value>, before: Option<Value>)
    requires r.bytes != []
    ensures r.bytes[0] > 8 ==> ReadValue(rules.room, r).Err?
    ensures r.bytes[0] > 15 ==> ReadDelta(rules, r, previous, before).Err?
    ensures r.bytes[0] == 3 && |r.bytes| > 1 && r.bytes[1] > 1 ==> ReadValue(rules.room, r).Err?
  {
    hide ReadVaruint, ReadItems, ReadMembers, ReadNumberXor, ReadFloatPatch, ReadIntegerDifference, ReadObjectDelta,
      ReadItemDeltas, ReadDense, ReadFloatArray;
  }
}
