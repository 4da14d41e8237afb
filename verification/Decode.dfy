/** The reader: values and patches taken back from the bytes. */
module Decode {
  import opened Base
  import opened Floats
  import opened Values
  import opened Wire
  import opened Packing
  import opened Residuals
  import opened Delta

  /** Where the two readers of the repository differ. The Python reader indexes the history of
      a dense array without checking its length, and raises on a predicted value beyond the
      binary32 range; the native reader rejects every dense float32 delta whose history is an
      array of another shape, even when the mode ignores history, and has room for 32 levels. */
  datatype Rules = Rules(unguardedDense: bool, strictFloatHistory: bool, partialNarrowing: bool, room: Option<nat>)

  const LEVELS_MAX: nat := 32

  const PYTHON := Rules(true, false, true, None)
  const NATIVE := Rules(false, true, false, Some(LEVELS_MAX))
  const GUARDED := Rules(false, false, false, None)

  predicate Exhausted(room: Option<nat>) {
    room == Some(0)
  }

  /** The room left for the children of a node. */
  function Less(room: Option<nat>): Option<nat> {
    if room.Some? && room.value > 0 then Some(room.value - 1) else room
  }

  function Deeper(rules: Rules): Rules {
    rules.(room := Less(rules.room))
  }

  /** The value has no more levels than there is room for. */
  predicate FitsRoom(room: Option<nat>, v: Value)
    decreases v
  {
    && !Exhausted(room)
    && match v
       case Arr(items) => forall i :: 0 <= i < |items| ==> FitsRoom(Less(room), items[i])
       case Obj(_, vals) => forall k :: k in vals ==> FitsRoom(Less(room), vals[k])
       case _ => true
  }

  // ----- whole values -----

  function WordOf(bs: seq<byte>): (n: nat)
    ensures n < Pow2(8 * |bs|)
  {
    LittleEndianInverts(bs);
    FromLittleEndian(bs)
  }

  function Word32(bs: seq<byte>): U32
    requires |bs| == 4
  {
    Pow2Values();
    WordOf(bs)
  }

  function Word64(bs: seq<byte>): F64
    requires |bs| == 8
  {
    Pow2Values();
    WordOf(bs)
  }

  function ReadInteger(r: Reader): (res: Result<(Value, Reader)>)
    ensures res.Ok? ==> |res.value.1.bytes| < |r.bytes|
  {
    var (sign, r1) :- ReadByte(r);
    if sign > 1 then Err(BadSign)
    else
      var (magnitude, r2) :- ReadVaruint(r1);
      Ok((Num(FromInt(if sign == 1 then 0 - magnitude else magnitude)), r2))
  }

  /** A dict assignment: a new key goes last, an old one keeps its place. */
  function Insert(v: Value, key: string, item: Value): (w: Value)
    requires v.Obj?
    ensures w.Obj?
  {
    Obj(if key in v.vals then v.keys else v.keys + [key], v.vals[key := item])
  }

  function Without(keys: seq<string>, key: string): seq<string> {
    if keys == [] then []
    else (if keys[0] == key then [] else [keys[0]]) + Without(keys[1..], key)
  }

  /** A dict removal; an absent key is ignored. */
  function Remove(v: Value, key: string): (w: Value)
    requires v.Obj?
    ensures w.Obj?
  {
    Obj(Without(v.keys, key), v.vals - {key})
  }

  function ReadValue(room: Option<nat>, r: Reader): (res: Result<(Value, Reader)>)
    ensures res.Ok? ==> |res.value.1.bytes| < |r.bytes|
    decreases |r.bytes|, 0, 0
  {
    if Exhausted(room) then Err(TooDeep) else ReadRoomyValue(room, r)
  }

  function ReadRoomyValue(room: Option<nat>, r: Reader): (res: Result<(Value, Reader)>)
    ensures res.Ok? ==> |res.value.1.bytes| < |r.bytes|
    decreases |r.bytes|, -1, 0
  {
    var (tag, r1) :- ReadByte(r);
    if tag == VALUE_NULL then Ok((Null, r1))
    else if tag == VALUE_FALSE then Ok((Bool(false), r1))
    else if tag == VALUE_TRUE then Ok((Bool(true), r1))
    else if tag == VALUE_INTEGER then ReadInteger(r1)
    else if tag == VALUE_FLOAT32 then
      var (bs, r2) :- ReadBytes(r1, 4);
      Ok((Num(Widen(Word32(bs))), r2))
    else if tag == VALUE_FLOAT64 then
      var (bs, r2) :- ReadBytes(r1, 8);
      Ok((Num(Word64(bs)), r2))
    else if tag == VALUE_STRING then
      var (s, r2) :- ReadString(r1);
      Ok((Str(s), r2))
    else if tag == VALUE_ARRAY then
      var (count, r2) :- ReadVaruint(r1);
      var (items, r3) :- ReadItems(Less(room), r2, count);
      Ok((Arr(items), r3))
    else if tag == VALUE_OBJECT then
      var (count, r2) :- ReadVaruint(r1);
      ReadMembers(Less(room), r2, count, Obj([], map[]))
    else Err(UnknownTag)
  }

  function ReadItems(room: Option<nat>, r: Reader, count: nat): (res: Result<(seq<Value>, Reader)>)
    ensures res.Ok? ==> |res.value.0| == count && |res.value.1.bytes| <= |r.bytes|
    decreases |r.bytes|, 1, count
  {
    if count == 0 then Ok(([], r))
    else
      var (item, r1) :- ReadValue(room, r);
      var (items, r2) :- ReadItems(room, r1, count - 1);
      Ok(([item] + items, r2))
  }

  function ReadMembers(room: Option<nat>, r: Reader, count: nat, acc: Value): (res: Result<(Value, Reader)>)
    requires acc.Obj?
    ensures res.Ok? ==> |res.value.1.bytes| <= |r.bytes|
    decreases |r.bytes|, 1, count
  {
    if count == 0 then Ok((acc, r))
    else
      var (key, r1) :- ReadString(r);
      var (item, r2) :- ReadValue(room, r1);
      ReadMembers(room, r2, count - 1, Insert(acc, key, item))
  }

  // ----- number patches -----

  function ReadNumberXor(r: Reader, previous: Option<Value>): (res: Result<(Value, Reader)>)
    ensures res.Ok? ==> |res.value.1.bytes| < |r.bytes|
  {
    if NumberOf(previous).None? then Err(BadBase)
    else
      var (descriptor, r1) :- ReadByte(r);
      var trailing := descriptor / 16;
      var length := descriptor % 16 + 1;
      if trailing + length > 8 then Err(BadDelta)
      else
        var (bs, r2) :- ReadBytes(r1, length);
        ShiftedWordBound(bs, trailing);
        var word := Shift(WordOf(bs), 8 * trailing);
        Xor64(NumberOf(previous).value, word);
        Ok((Num(Xor(NumberOf(previous).value, word)), r2))
  }

  lemma ShiftedWordBound(bs: seq<byte>, trailing: nat)
    requires trailing + |bs| <= 8
    ensures Shift(WordOf(bs), 8 * trailing) < 0x1_0000_0000_0000_0000
  {
    var n := WordOf(bs);
    ShiftMonotone(n + 1, Pow2(8 * |bs|), 8 * trailing);
    ShiftAdd(n, 1, 8 * trailing);
    ShiftPow2(0, 8 * trailing);
    ShiftPow2(8 * |bs|, 8 * trailing);
    Pow2Monotone(8 * |bs| + 8 * trailing, 64);
    Pow2Values();
  }

  function ReadIntegerDifference(r: Reader, previous: Option<Value>): (res: Result<(Value, Reader)>)
    ensures res.Ok? ==> |res.value.1.bytes| < |r.bytes|
  {
    match NumberOf(previous)
    case None => Err(BadBase)
    case Some(base) =>
      if !Finite(base) || !Integral(base) || WholePart(base) > SAFE_INTEGER_MAX then Err(BadBase)
      else
        var (n, r1) :- ReadVaruint(r);
        var sum := ToInt(base) + UnZigZag(n);
        if Abs(sum) > SAFE_INTEGER_MAX then Err(UnsafeInteger) else Ok((Num(FromInt(sum)), r1))
  }

  function ReadFloatPatch(r: Reader, mode: Mode, previous: Option<Value>,
                          before: Option<Value>): (res: Result<(Value, Reader)>)
    ensures res.Ok? ==> |res.value.1.bytes| < |r.bytes|
  {
    if previous.None? || !Exact(previous.value) then Err(BadBase)
    else if mode >= 2 && (before.None? || !Exact(before.value)) then Err(BadBase)
    else
      var history := if mode >= 2 then before.value.bits else previous.value.bits;
      var (n, r1) :- ReadVaruint(r);
      var bits :- Patch(mode, Prediction(mode, history, previous.value.bits), n);
      Ok((Num(Widen(bits)), r1))
  }

  /** A value prediction of the two numbers that the reader cannot narrow. */
  predicate PredictionRaises(rules: Rules, previous: Option<Value>, before: Option<Value>) {
    && rules.partialNarrowing
    && NumberOf(previous).Some? && ExactF32(NumberOf(previous).value)
    && NumberOf(before).Some? && ExactF32(NumberOf(before).value)
    && !Narrowable(Extrapolated(NumberOf(before).value, NumberOf(previous).value))
  }

  // ----- float32 array patches -----

  predicate PredictionsRaise(rules: Rules, mode: nat, before: seq<F64>, previous: seq<F64>)
    requires |before| == |previous|
  {
    && rules.partialNarrowing && mode == MODE_VALUE_PREDICTION
    && exists i :: 0 <= i < |previous| && !Narrowable(Extrapolated(before[i], previous[i]))
  }

  /** One varint per item of the base. */
  function ReadFloatItems(r: Reader, mode: Mode, history: seq<F64>, previous: seq<F64>,
                          i: nat): (res: Result<(seq<Value>, Reader)>)
    requires |history| == |previous| && i <= |previous|
    ensures res.Ok? ==> |res.value.0| == |previous| - i && |res.value.1.bytes| <= |r.bytes|
    decreases |previous| - i
  {
    if i == |previous| then Ok(([], r))
    else
      var (n, r1) :- ReadVaruint(r);
      var bits :- Patch(mode, Prediction(mode, history[i], previous[i]), n);
      var (items, r2) :- ReadFloatItems(r1, mode, history, previous, i + 1);
      Ok(([Num(Widen(bits))] + items, r2))
  }

  /** Patches from residuals already unpacked. */
  function PatchItems(residuals: seq<nat>, mode: Mode, history: seq<F64>, previous: seq<F64>,
                      i: nat): (res: Result<seq<Value>>)
    requires |history| == |previous| == |residuals| && i <= |previous|
    ensures res.Ok? ==> |res.value| == |previous| - i
    decreases |previous| - i
  {
    if i == |previous| then Ok([])
    else
      var bits :- Patch(mode, Prediction(mode, history[i], previous[i]), residuals[i]);
      var items :- PatchItems(residuals, mode, history, previous, i + 1);
      Ok([Num(Widen(bits))] + items)
  }

  predicate HistoryRefused(rules: Rules, before: Option<Value>, count: nat) {
    rules.strictFloatHistory && before.Some? && before.value.Arr? && !FloatHistory(before, count)
  }

  function ModeOfTag(tag: byte): Mode {
    if tag == DENSE_FLOAT32_XOR then MODE_XOR
    else if tag == DENSE_FLOAT32_DIFFERENCE then MODE_DIFFERENCE
    else if tag == DENSE_FLOAT32_BIT_PREDICTION then MODE_BIT_PREDICTION
    else MODE_VALUE_PREDICTION
  }

  predicate DenseFloatTag(tag: byte) {
    tag == DENSE_FLOAT32_DIFFERENCE || DENSE_FLOAT32_XOR <= tag <= DENSE_FLOAT32_VALUE_PREDICTION
      || tag == DENSE_FLOAT32_BITPACKED
  }

  function ReadFloatArray(rules: Rules, r: Reader, tag: byte, previous: Option<Value>,
                          before: Option<Value>): (res: Result<(Value, Reader)>)
    ensures res.Ok? ==> |res.value.1.bytes| <= |r.bytes|
  {
    if previous.None? || !ExactArray(previous.value) then Err(BadBase)
    else
      var base := previous.value;
      var count := |base.items|;
      if HistoryRefused(rules, before, count) then Err(BadHistory)
      else if tag == DENSE_FLOAT32_BITPACKED then
        var (mode, r1) :- ReadByte(r);
        var (width, r2) :- ReadByte(r1);
        if mode > 3 || width > 32 then Err(BadDelta)
        else if mode >= 2 && !FloatHistory(before, count) then Err(BadBase)
        else if PredictionsRaise(rules, mode, HistoryBits(before, base), BitsOf(base)) then Err(OutOfRange)
        else
          var (residuals, r3) :- ReadPacked(r2, count, width);
          var items :- PatchItems(residuals, mode, HistoryBits(before, base), BitsOf(base), 0);
          Ok((Arr(items), r3))
      else
        var mode := ModeOfTag(tag);
        if mode >= 2 && !FloatHistory(before, count) then Err(BadBase)
        else if PredictionsRaise(rules, mode, HistoryBits(before, base), BitsOf(base)) then Err(OutOfRange)
        else
          var (items, r1) :- ReadFloatItems(r, mode, HistoryBits(before, base), BitsOf(base), 0);
          Ok((Arr(items), r1))
  }

  // ----- patches -----

  function ReadRemovals(r: Reader, count: nat, acc: Value): (res: Result<(Value, Reader)>)
    requires acc.Obj?
    ensures res.Ok? ==> res.value.0.Obj? && |res.value.1.bytes| <= |r.bytes|
    decreases count
  {
    if count == 0 then Ok((acc, r))
    else
      var (key, r1) :- ReadString(r);
      ReadRemovals(r1, count - 1, Remove(acc, key))
  }

  /** The history of item i of a dense array; the unguarded reader raises past its end. */
  function DenseHistory(rules: Rules, before: Option<Value>, i: nat): Result<Option<Value>> {
    if rules.unguardedDense && before.Some? && before.value.Arr? && i >= |before.value.items| then Err(BadHistory)
    else Ok(Element(before, i))
  }

  function ReadDelta(rules: Rules, r: Reader, previous: Option<Value>,
                     before: Option<Value>): (res: Result<(Value, Reader)>)
    ensures res.Ok? ==> |res.value.1.bytes| < |r.bytes|
    decreases |r.bytes|, 0, 0
  {
    if Exhausted(rules.room) then Err(TooDeep) else ReadRoomyDelta(rules, r, previous, before)
  }

  function ReadRoomyDelta(rules: Rules, r: Reader, previous: Option<Value>,
                          before: Option<Value>): (res: Result<(Value, Reader)>)
    ensures res.Ok? ==> |res.value.1.bytes| < |r.bytes|
    decreases |r.bytes|, -1, 0
  {
    var (tag, r1) :- ReadByte(r);
    if tag == DELTA_SAME then
      if previous.None? then Err(BadBase) else Ok((previous.value, r1))
    else if tag == DELTA_REPLACE then ReadValue(rules.room, r1)
    else if tag == DELTA_NUMBER_XOR then ReadNumberXor(r1, previous)
    else if tag == DELTA_FLOAT32_XOR then ReadFloatPatch(r1, MODE_XOR, previous, before)
    else if tag == DELTA_FLOAT32_DIFFERENCE then ReadFloatPatch(r1, MODE_DIFFERENCE, previous, before)
    else if tag == DELTA_FLOAT32_BIT_PREDICTION then ReadFloatPatch(r1, MODE_BIT_PREDICTION, previous, before)
    else if tag == DELTA_FLOAT32_VALUE_PREDICTION then
      if PredictionRaises(rules, previous, before) then Err(OutOfRange)
      else ReadFloatPatch(r1, MODE_VALUE_PREDICTION, previous, before)
    else if tag == DELTA_INTEGER_DIFFERENCE then ReadIntegerDifference(r1, previous)
    else if tag == DELTA_OBJECT then
      if previous.None? || !previous.value.Obj? then Err(BadBase)
      else ReadObjectDelta(Deeper(rules), r1, previous.value, before)
    else if tag == DELTA_ARRAY then
      if previous.None? || !previous.value.Arr? then Err(BadBase)
      else
        var (length, r2) :- ReadVaruint(r1);
        var (changes, r3) :- ReadVaruint(r2);
        var (slots, r4) :- ReadItemDeltas(Deeper(rules), r3, changes, previous.value, before,
                                          Slots(previous.value.items, length));
        if exists i :: 0 <= i < |slots| && slots[i].None? then Err(UndefinedItem)
        else Ok((Arr(Filled(slots)), r4))
    else if tag == DELTA_DENSE_ARRAY then
      if previous.None? || !previous.value.Arr? then Err(BadBase)
      else
        var (items, r2) :- ReadDense(Deeper(rules), r1, previous.value, before, 0);
        Ok((Arr(items), r2))
    else if DenseFloatTag(tag) then ReadFloatArray(rules, r1, tag, previous, before)
    else Err(UnknownTag)
  }

  function ReadObjectDelta(rules: Rules, r: Reader, previous: Value,
                           before: Option<Value>): (res: Result<(Value, Reader)>)
    requires previous.Obj?
    ensures res.Ok? ==> |res.value.1.bytes| <= |r.bytes|
    decreases |r.bytes|, 2, 0
  {
    var (deletions, r1) :- ReadVaruint(r);
    var (kept, r2) :- ReadRemovals(r1, deletions, previous);
    var (changes, r3) :- ReadVaruint(r2);
    ReadMemberDeltas(rules, r3, changes, previous, before, kept)
  }

  /** The kept prefix of the base, padded with undefined slots. */
  function Slots(items: seq<Value>, length: nat): (slots: seq<Option<Value>>)
    ensures |slots| == length
  {
    seq(length, i requires 0 <= i < length => if i < |items| then Some(items[i]) else None)
  }

  function Filled(slots: seq<Option<Value>>): (items: seq<Value>)
    requires forall i :: 0 <= i < |slots| ==> slots[i].Some?
    ensures |items| == |slots| && forall i :: 0 <= i < |items| ==> items[i] == slots[i].value
  {
    seq(|slots|, i requires 0 <= i < |slots| => slots[i].value)
  }

  function ReadMemberDeltas(rules: Rules, r: Reader, count: nat, previous: Value, before: Option<Value>,
                            acc: Value): (res: Result<(Value, Reader)>)
    requires acc.Obj?
    ensures res.Ok? ==> |res.value.1.bytes| <= |r.bytes|
    decreases |r.bytes|, 1, count
  {
    if count == 0 then Ok((acc, r))
    else
      var (key, r1) :- ReadString(r);
      var (item, r2) :- ReadDelta(rules, r1, Member(Some(previous), key), Member(before, key));
      ReadMemberDeltas(rules, r2, count - 1, previous, before, Insert(acc, key, item))
  }

  function ReadItemDeltas(rules: Rules, r: Reader, count: nat, previous: Value, before: Option<Value>,
                          slots: seq<Option<Value>>): (res: Result<(seq<Option<Value>>, Reader)>)
    ensures res.Ok? ==> |res.value.0| == |slots| && |res.value.1.bytes| <= |r.bytes|
    decreases |r.bytes|, 1, count
  {
    if count == 0 then Ok((slots, r))
    else
      var (index, r1) :- ReadVaruint(r);
      if index >= |slots| then Err(BadDelta)
      else
        var (item, r2) :- ReadDelta(rules, r1, Element(Some(previous), index), Element(before, index));
        ReadItemDeltas(rules, r2, count - 1, previous, before, slots[index := Some(item)])
  }

  function ReadDense(rules: Rules, r: Reader, previous: Value, before: Option<Value>,
                     i: nat): (res: Result<(seq<Value>, Reader)>)
    requires previous.Arr? && i <= |previous.items|
    ensures res.Ok? ==> |res.value.0| == |previous.items| - i && |res.value.1.bytes| <= |r.bytes|
    decreases |r.bytes|, 1, |previous.items| - i
  {
    if i == |previous.items| then Ok(([], r))
    else
      var history :- DenseHistory(rules, before, i);
      var (item, r1) :- ReadDelta(rules, r, Some(previous.items[i]), history);
      var (items, r2) :- ReadDense(rules, r1, previous, before, i + 1);
      Ok(([item] + items, r2))
  }

  // ----- chunks -----

  /** The ticks after the first, each patched from the two before it. */
  function ReadTicks(rules: Rules, r: Reader, count: nat, ticks: seq<Value>): (res: Result<(seq<Value>, Reader)>)
    requires ticks != []
    decreases count
  {
    if count == 0 then Ok((ticks, r))
    else
      var n := |ticks|;
      var (tick, r1) :- ReadDelta(rules, r, Some(ticks[n - 1]), if n > 1 then Some(ticks[n - 2]) else None);
      ReadTicks(rules, r1, count - 1, ticks + [tick])
  }

  function DecodeChunk(rules: Rules, bytes: seq<byte>): Result<(nat, seq<Value>)> {
    var (magic, r1) :- ReadBytes(Reader(bytes, []), 4);
    if magic != CHUNK_MAGIC then Err(BadMagic)
    else
      var (version, r2) :- ReadByte(r1);
      if version != CHUNK_VERSION then Err(BadVersion)
      else
        var (first, r3) :- ReadVaruint(r2);
        var (count, r4) :- ReadVaruint(r3);
        if count < 1 then Err(BadCount)
        else
          var (tick, r5) :- ReadValue(rules.room, r4);
          var (ticks, r6) :- ReadTicks(rules, r5, count - 1, [tick]);
          if r6.bytes != [] then Err(TrailingInput) else Ok((first, ticks))
  }
}
