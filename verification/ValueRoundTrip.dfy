/** Whole values and single numbers survive the trip through the bytes. */
module ValueRoundTrip {
  import opened Base
  import opened Floats
  import opened Values
  import opened Wire
  import opened Packing
  import opened Delta
  import opened Decode

  // ----- call sequences that start with a tag -----

  lemma TagFirst(table: seq<string>, tag: byte, body: seq<Op>, more: seq<Op>)
    ensures [Byte(tag)] + body + more == [Byte(tag)] + (body + more)
    ensures Table(table, [Byte(tag)] + body) == Table(table, body)
    ensures Safe(table, [Byte(tag)] + body + more) <==> Safe(table, body + more)
    ensures ReadByte(At(table, [Byte(tag)] + body + more)) == Ok((tag, At(table, body + more)))
  {
    assert [Byte(tag)] + body + more == [Byte(tag)] + (body + more);
    Front(table, Byte(tag), body + more);
    Front(table, Byte(tag), body);
    TakeByte(table, tag, body + more);
  }

  lemma CountFirst(table: seq<string>, n: nat, body: seq<Op>, more: seq<Op>)
    requires Safe(table, [Varuint(n)] + body + more)
    ensures Safe(table, body + more)
    ensures Table(table, [Varuint(n)] + body) == Table(table, body)
    ensures ReadVaruint(At(table, [Varuint(n)] + body + more)) == Ok((n, At(table, body + more)))
  {
    assert [Varuint(n)] + body + more == [Varuint(n)] + (body + more);
    Front(table, Varuint(n), body + more);
    Front(table, Varuint(n), body);
    TakeVaruint(table, n, body + more);
  }

  lemma TextFirst(table: seq<string>, s: string, body: seq<Op>, more: seq<Op>)
    requires Safe(table, [Text(s)] + body + more)
    ensures Safe(TableOp(table, Text(s)), body + more)
    ensures Table(table, [Text(s)] + body) == Table(TableOp(table, Text(s)), body)
    ensures ReadString(At(table, [Text(s)] + body + more)) == Ok((s, At(TableOp(table, Text(s)), body + more)))
  {
    assert [Text(s)] + body + more == [Text(s)] + (body + more);
    Front(table, Text(s), body + more);
    Front(table, Text(s), body);
    TakeString(table, s, body + more);
  }

  lemma RawFirst(table: seq<string>, bs: seq<byte>, body: seq<Op>, more: seq<Op>)
    ensures Safe(table, [Raw(bs)] + body + more) <==> Safe(table, body + more)
    ensures Table(table, [Raw(bs)] + body) == Table(table, body)
    ensures ReadBytes(At(table, [Raw(bs)] + body + more), |bs|) == Ok((bs, At(table, body + more)))
  {
    assert [Raw(bs)] + body + more == [Raw(bs)] + (body + more);
    Front(table, Raw(bs), body + more);
    Front(table, Raw(bs), body);
    TakeRaw(table, bs, body + more);
  }

  /** Two call sequences one after the other. */
  lemma Sequence(table: seq<string>, head: seq<Op>, tail: seq<Op>, more: seq<Op>)
    ensures head + tail + more == head + (tail + more)
    ensures Safe(table, head + tail + more) <==> Safe(table, head) && Safe(Table(table, head), tail + more)
    ensures Safe(table, head + (tail + more)) <==> Safe(table, head) && Safe(Table(table, head), tail + more)
    ensures Table(table, head + tail) == Table(Table(table, head), tail)
  {
    assert head + tail + more == head + (tail + more);
    AppendSafe(table, head, tail + more);
    AppendTable(table, head, tail);
  }

  // ----- numbers -----

  lemma IntegerRoundTrip(room: Option<nat>, bits: F64, table: seq<string>, more: seq<Op>)
    requires SafeInteger(bits) && Safe(table, NumberOps(bits) + more)
    ensures ReadRoomyValue(room, At(table, NumberOps(bits) + more)) == Ok((Num(bits), At(table, more)))
    ensures Table(table, NumberOps(bits)) == table
  {
    var sign: byte := if ToInt(bits) < 0 then 1 else 0;
    var n := Abs(ToInt(bits));
    assert NumberOps(bits) == [Byte(VALUE_INTEGER)] + ([Byte(sign)] + ([Varuint(n)] + []));
    TagFirst(table, VALUE_INTEGER, [Byte(sign)] + ([Varuint(n)] + []), more);
    TagFirst(table, sign, [Varuint(n)] + [], more);
    CountFirst(table, n, [], more);
    assert [] + more == more;
    FromIntToInt(bits);
  }

  lemma Float32RoundTrip(room: Option<nat>, bits: F64, table: seq<string>, more: seq<Op>)
    requires !SafeInteger(bits) && ExactF32(bits) && !NegativeZero(bits)
    ensures ReadRoomyValue(room, At(table, NumberOps(bits) + more)) == Ok((Num(bits), At(table, more)))
    ensures Table(table, NumberOps(bits)) == table
  {
    var bs := LittleEndian(Narrow(bits), 4);
    assert NumberOps(bits) == [Byte(VALUE_FLOAT32)] + ([Raw(bs)] + []);
    TagFirst(table, VALUE_FLOAT32, [Raw(bs)] + [], more);
    RawFirst(table, bs, [], more);
    assert [] + more == more;
    Pow2Values();
    FromLittleEndianInverts(Narrow(bits), 4);
  }

  lemma Float64RoundTrip(room: Option<nat>, bits: F64, table: seq<string>, more: seq<Op>)
    requires !SafeInteger(bits) && !(ExactF32(bits) && !NegativeZero(bits))
    ensures ReadRoomyValue(room, At(table, NumberOps(bits) + more)) == Ok((Num(bits), At(table, more)))
    ensures Table(table, NumberOps(bits)) == table
  {
    var bs := LittleEndian(bits, 8);
    var body := [Raw(bs)] + [];
    assert NumberOps(bits) == [Byte(VALUE_FLOAT64)] + body;
    TagFirst(table, VALUE_FLOAT64, body, more);
    RawFirst(table, bs, [], more);
    assert [] + more == more;
    Word64Inverts(bits);
    ReadFloat64Step(room, At(table, NumberOps(bits) + more), At(table, body + more), bs, At(table, more));
  }

  lemma Word64Inverts(bits: F64)
    ensures Word64(LittleEndian(bits, 8)) == bits
  {
    Pow2Values();
    FromLittleEndianInverts(bits, 8);
  }

  lemma ReadFloat64Step(room: Option<nat>, r: Reader, r1: Reader, bs: seq<byte>, r2: Reader)
    requires ReadByte(r) == Ok((VALUE_FLOAT64, r1)) && |bs| == 8 && ReadBytes(r1, 8) == Ok((bs, r2))
    ensures ReadRoomyValue(room, r) == Ok((Num(Word64(bs)), r2))
  {
  }

  lemma NumberRoundTrip(room: Option<nat>, bits: F64, table: seq<string>, more: seq<Op>)
    requires Safe(table, NumberOps(bits) + more)
    ensures ReadRoomyValue(room, At(table, NumberOps(bits) + more)) == Ok((Num(bits), At(table, more)))
    ensures Table(table, NumberOps(bits)) == table
  {
    if SafeInteger(bits) {
      IntegerRoundTrip(room, bits, table, more);
    } else if ExactF32(bits) && !NegativeZero(bits) {
      Float32RoundTrip(room, bits, table, more);
    } else {
      Float64RoundTrip(room, bits, table, more);
    }
  }

  // ----- whole values -----

  /** What reading a written value has to give: the value and the reader behind it, or an error. */
  ghost predicate Back<T>(ok: bool, v: T, res: Result<(T, Reader)>, r: Reader) {
    if ok then res == Ok((v, r)) else res.Err?
  }

  lemma Roomy(room: Option<nat>, v: Value, r: Reader)
    ensures Exhausted(room) ==> !FitsRoom(room, v) && ReadValue(room, r).Err?
    ensures !Exhausted(room) ==> ReadValue(room, r) == ReadRoomyValue(room, r)
    ensures !Exhausted(room) && !v.Arr? && !v.Obj? ==> FitsRoom(room, v)
  {
    hide ReadRoomyValue;
  }

  /** Reading a written value gives that value, member order included, and leaves the reader
      exactly behind it; it fails exactly when the value has more levels than there is room for. */
  lemma {:induction false} ReadWrittenValue(room: Option<nat>, v: Value, table: seq<string>, more: seq<Op>)
    requires WellFormed(v) && Safe(table, ValueOps(v) + more)
    ensures Back(FitsRoom(room, v), v, ReadValue(room, At(table, ValueOps(v) + more)),
                 At(Table(table, ValueOps(v)), more))
    decreases v, 1, 0
  {
    Roomy(room, v, At(table, ValueOps(v) + more));
    hide FitsRoom, ReadValue, ReadRoomyValue;
    if !Exhausted(room) {
      match v
      case Num(bits) => NumberRoundTrip(room, bits, table, more);
      case Arr(items) => ReadWrittenArray(room, v, table, more);
      case Obj(keys, vals) => ReadWrittenObject(room, v, table, more);
      case Str(text) => ReadWrittenString(room, text, table, more);
      case _ => ReadWrittenAtom(room, v, table, more);
    }
  }

  lemma ReadWrittenAtom(room: Option<nat>, v: Value, table: seq<string>, more: seq<Op>)
    requires v.Null? || v.Bool?
    ensures ReadRoomyValue(room, At(table, ValueOps(v) + more)) == Ok((v, At(Table(table, ValueOps(v)), more)))
  {
    var tag := ValueOps(v)[0].b;
    assert ValueOps(v) == [Byte(tag)] + [];
    TagFirst(table, tag, [], more);
    assert [] + more == more;
  }

  lemma ReadWrittenString(room: Option<nat>, text: string, table: seq<string>, more: seq<Op>)
    requires Safe(table, ValueOps(Str(text)) + more)
    ensures ReadRoomyValue(room, At(table, ValueOps(Str(text)) + more))
      == Ok((Str(text), At(Table(table, ValueOps(Str(text))), more)))
  {
    var body := [Text(text)] + [];
    assert ValueOps(Str(text)) == [Byte(VALUE_STRING)] + body;
    TagFirst(table, VALUE_STRING, body, more);
    TextFirst(table, text, [], more);
    assert [] + more == more;
    ReadStringStep(room, At(table, ValueOps(Str(text)) + more), At(table, body + more), text,
                   At(TableOp(table, Text(text)), more));
  }

  lemma ReadStringStep(room: Option<nat>, r: Reader, r1: Reader, text: string, r2: Reader)
    requires ReadByte(r) == Ok((VALUE_STRING, r1)) && ReadString(r1) == Ok((text, r2))
    ensures ReadRoomyValue(room, r) == Ok((Str(text), r2))
  {
  }

  /** The items from i on fit. */
  ghost predicate ItemsFit(room: Option<nat>, v: Value, i: nat)
    requires v.Arr?
  {
    forall j :: i <= j < |v.items| ==> FitsRoom(room, v.items[j])
  }

  ghost predicate MembersFit(room: Option<nat>, v: Value, i: nat)
    requires v.Obj?
  {
    forall j :: i <= j < |v.keys| && v.keys[j] in v.vals ==> FitsRoom(room, v.vals[v.keys[j]])
  }

  lemma ArrayFits(room: Option<nat>, v: Value)
    requires v.Arr? && !Exhausted(room)
    ensures FitsRoom(room, v) <==> ItemsFit(Less(room), v, 0)
  {
  }

  lemma ObjectFits(room: Option<nat>, v: Value)
    requires v.Obj? && WellFormed(v) && !Exhausted(room)
    ensures FitsRoom(room, v) <==> MembersFit(Less(room), v, 0)
  {
    hide FitsRoom;
    assert FitsRoom(room, v) <==> forall k :: k in v.vals ==> FitsRoom(Less(room), v.vals[k]) by {
      ObjectFitsKeys(room, v);
    }
    if MembersFit(Less(room), v, 0) {
      forall k | k in v.vals ensures FitsRoom(Less(room), v.vals[k]) {
        assert k in v.keys;
        var j :| 0 <= j < |v.keys| && v.keys[j] == k;
        assert FitsRoom(Less(room), v.vals[v.keys[j]]);
      }
    }
  }

  lemma ObjectFitsKeys(room: Option<nat>, v: Value)
    requires v.Obj? && !Exhausted(room)
    ensures FitsRoom(room, v) <==> forall k :: k in v.vals ==> FitsRoom(Less(room), v.vals[k])
  {
  }

  lemma {:induction false} ReadWrittenArray(room: Option<nat>, v: Value, table: seq<string>, more: seq<Op>)
    requires v.Arr? && WellFormed(v) && Safe(table, ValueOps(v) + more) && !Exhausted(room)
    ensures Back(FitsRoom(room, v), v, ReadRoomyValue(room, At(table, ValueOps(v) + more)),
                 At(Table(table, ValueOps(v)), more))
    decreases v, 0, |v.items| + 1
  {
    var body := ItemOps(v, 0);
    var n := |v.items|;
    assert ValueOps(v) == [Byte(VALUE_ARRAY)] + ([Varuint(n)] + body);
    ArrayFits(room, v);
    assert v.items[0..] == v.items;
    assert v == Arr(v.items);
    hide FitsRoom, ReadRoomyValue, ReadItems, ItemsFit, WellFormed;
    TagFirst(table, VALUE_ARRAY, [Varuint(n)] + body, more);
    CountFirst(table, n, body, more);
    ReadWrittenItems(Less(room), v, 0, table, more);
    ReadArrayStep(room, At(table, ValueOps(v) + more), At(table, [Varuint(n)] + body + more), n,
                  At(table, body + more));
  }

  lemma ReadArrayStep(room: Option<nat>, r: Reader, r1: Reader, count: nat, r2: Reader)
    requires ReadByte(r) == Ok((VALUE_ARRAY, r1)) && ReadVaruint(r1) == Ok((count, r2))
    ensures
      var res := ReadItems(Less(room), r2, count);
      ReadRoomyValue(room, r) == if res.Ok? then Ok((Arr(res.value.0), res.value.1)) else Err(res.failure)
  {
    hide ReadItems;
  }

  lemma ReadObjectStep(room: Option<nat>, r: Reader, r1: Reader, count: nat, r2: Reader)
    requires ReadByte(r) == Ok((VALUE_OBJECT, r1)) && ReadVaruint(r1) == Ok((count, r2))
    ensures ReadRoomyValue(room, r) == ReadMembers(Less(room), r2, count, Obj([], map[]))
  {
    hide ReadMembers;
  }

  lemma ReadMemberStep(room: Option<nat>, r: Reader, count: nat, acc: Value, key: string, r1: Reader)
    requires acc.Obj? && count > 0 && ReadString(r) == Ok((key, r1))
    ensures
      var res := ReadValue(room, r1);
      ReadMembers(room, r, count, acc) ==
        if res.Ok? then ReadMembers(room, res.value.1, count - 1, Insert(acc, key, res.value.0)) else Err(res.failure)
  {
    hide ReadValue;
  }

  lemma ReadItemStep(room: Option<nat>, r: Reader, count: nat)
    requires count > 0
    ensures
      var res := ReadValue(room, r);
      ReadItems(room, r, count) ==
        if res.Err? then Err(res.failure)
        else
          var rest := ReadItems(room, res.value.1, count - 1);
          if rest.Err? then Err(rest.failure) else Ok(([res.value.0] + rest.value.0, rest.value.1))
  {
    hide ReadValue;
  }

  lemma ConsSlice<T>(s: seq<T>, i: nat)
    requires i < |s|
    ensures [s[i]] + s[i + 1..] == s[i..]
  {
  }

  lemma ItemsDone(room: Option<nat>, v: Value, table: seq<string>, more: seq<Op>)
    requires v.Arr? && WellFormed(v)
    ensures ItemOps(v, |v.items|) == [] && ItemsFit(room, v, |v.items|) && v.items[|v.items|..] == []
    ensures ReadItems(room, At(table, [] + more), 0) == Ok(([], At(Table(table, []), more)))
  {
    assert [] + more == more;
  }

  lemma ItemsFitStep(room: Option<nat>, v: Value, i: nat)
    requires v.Arr? && WellFormed(v) && i < |v.items|
    ensures ItemsFit(room, v, i) <==> FitsRoom(room, v.items[i]) && ItemsFit(room, v, i + 1)
    ensures ItemOps(v, i) == ValueOps(v.items[i]) + ItemOps(v, i + 1) && WellFormed(v.items[i])
  {
    hide FitsRoom;
  }

  lemma {:induction false} ReadWrittenItems(room: Option<nat>, v: Value, i: nat, table: seq<string>, more: seq<Op>)
    requires v.Arr? && i <= |v.items| && WellFormed(v) && Safe(table, ItemOps(v, i) + more)
    ensures Back(ItemsFit(room, v, i), v.items[i..], ReadItems(room, At(table, ItemOps(v, i) + more), |v.items| - i),
                 At(Table(table, ItemOps(v, i)), more))
    decreases v, 0, |v.items| - i
  {
    hide *;
    var res := ReadItems(room, At(table, ItemOps(v, i) + more), |v.items| - i);
    var end := At(Table(table, ItemOps(v, i)), more);
    if i == |v.items| {
      ItemsDone(room, v, table, more);
      BackHolds(v.items[i..], res, end);
    } else {
      ItemsFitStep(room, v, i);
      var head, tail := ValueOps(v.items[i]), ItemOps(v, i + 1);
      Sequence(table, head, tail, more);
      ReadWrittenValue(room, v.items[i], table, tail + more);
      BackParts(FitsRoom(room, v.items[i]), v.items[i], ReadValue(room, At(table, head + (tail + more))),
                At(Table(table, head), tail + more));
      ReadItemStep(room, At(table, ItemOps(v, i) + more), |v.items| - i);
      if ItemsFit(room, v, i) {
        ReadWrittenItems(room, v, i + 1, Table(table, head), more);
        BackParts(ItemsFit(room, v, i + 1), v.items[i + 1..],
                  ReadItems(room, At(Table(table, head), tail + more), |v.items| - i - 1),
                  At(Table(Table(table, head), tail), more));
        ConsSlice(v.items, i);
        BackHolds(v.items[i..], res, end);
      } else {
        if FitsRoom(room, v.items[i]) {
          ReadWrittenItems(room, v, i + 1, Table(table, head), more);
          BackParts(ItemsFit(room, v, i + 1), v.items[i + 1..],
                    ReadItems(room, At(Table(table, head), tail + more), |v.items| - i - 1),
                    At(Table(Table(table, head), tail), more));
        }
        BackFails(v.items[i..], res, end);
      }
    }
  }

  /** The object read so far: its first i members. */
  function FirstMembers(v: Value, i: nat): Value
    requires v.Obj? && i <= |v.keys|
  {
    Obj(v.keys[..i], map k | k in v.vals && k in v.keys[..i] :: v.vals[k])
  }

  lemma InsertNext(v: Value, i: nat)
    requires v.Obj? && Ordered(v.keys, v.vals) && i < |v.keys|
    ensures Insert(FirstMembers(v, i), v.keys[i], v.vals[v.keys[i]]) == FirstMembers(v, i + 1)
  {
    var key := v.keys[i];
    assert v.keys[..i + 1] == v.keys[..i] + [key];
    assert key !in v.keys[..i];
    var inserted := Insert(FirstMembers(v, i), key, v.vals[key]);
    assert inserted.vals == FirstMembers(v, i + 1).vals;
  }

  lemma FirstMembersEnds(v: Value)
    requires v.Obj? && Ordered(v.keys, v.vals)
    ensures FirstMembers(v, 0) == Obj([], map[])
    ensures FirstMembers(v, |v.keys|) == v
  {
    assert v.keys[..|v.keys|] == v.keys;
    assert FirstMembers(v, |v.keys|).vals == v.vals;
  }

  lemma ObjectOpsShape(v: Value)
    requires v.Obj? && WellFormed(v)
    ensures ValueOps(v) == [Byte(VALUE_OBJECT)] + ([Varuint(|v.keys|)] + MemberOps(v, 0))
    ensures Ordered(v.keys, v.vals)
  {
  }

  lemma {:induction false} ReadWrittenObject(room: Option<nat>, v: Value, table: seq<string>, more: seq<Op>)
    requires v.Obj? && WellFormed(v) && Safe(table, ValueOps(v) + more) && !Exhausted(room)
    ensures Back(FitsRoom(room, v), v, ReadRoomyValue(room, At(table, ValueOps(v) + more)),
                 At(Table(table, ValueOps(v)), more))
    decreases v, 0, |v.keys| + 1
  {
    hide *;
    var body := MemberOps(v, 0);
    var n := |v.keys|;
    ObjectOpsShape(v);
    TagFirst(table, VALUE_OBJECT, [Varuint(n)] + body, more);
    CountFirst(table, n, body, more);
    FirstMembersEnds(v);
    ObjectFits(room, v);
    ReadWrittenMembers(Less(room), v, 0, table, more);
    ReadObjectStep(room, At(table, ValueOps(v) + more), At(table, [Varuint(n)] + body + more), n,
                   At(table, body + more));
    BackSame(FitsRoom(room, v), MembersFit(Less(room), v, 0), FirstMembers(v, n), v,
             ReadRoomyValue(room, At(table, ValueOps(v) + more)), At(Table(table, body), more));
  }

  lemma BackSame(ok: bool, ok': bool, v: Value, v': Value, res: Result<(Value, Reader)>, r: Reader)
    requires ok == ok' && v == v' && Back(ok', v, res, r)
    ensures Back(ok, v', res, r)
  {
  }

  lemma MembersFitStep(room: Option<nat>, v: Value, i: nat)
    requires v.Obj? && i < |v.keys| && WellFormed(v)
    ensures MembersFit(room, v, i) <==> FitsRoom(room, v.vals[v.keys[i]]) && MembersFit(room, v, i + 1)
  {
    hide FitsRoom;
    assert v.keys[i] in v.vals;
  }

  lemma MemberOpsCons(v: Value, i: nat)
    requires v.Obj? && i < |v.keys| && WellFormed(v)
    ensures MemberOps(v, i) == [Text(v.keys[i])] + (ValueOps(v.vals[v.keys[i]]) + MemberOps(v, i + 1))
  {
  }

  lemma MemberFacts(v: Value, i: nat)
    requires v.Obj? && i < |v.keys| && WellFormed(v)
    ensures v.keys[i] in v.vals && WellFormed(v.vals[v.keys[i]]) && Ordered(v.keys, v.vals)
    ensures FirstMembers(v, i).Obj?
  {
  }

  lemma MembersDone(room: Option<nat>, v: Value, table: seq<string>, more: seq<Op>)
    requires v.Obj? && WellFormed(v)
    ensures MemberOps(v, |v.keys|) == [] && MembersFit(room, v, |v.keys|)
    ensures
      Back(true, FirstMembers(v, |v.keys|),
           ReadMembers(room, At(table, MemberOps(v, |v.keys|) + more), 0, FirstMembers(v, |v.keys|)),
           At(Table(table, MemberOps(v, |v.keys|)), more))
  {
    assert [] + more == more;
  }

  lemma BackHolds<T>(v: T, res: Result<(T, Reader)>, r: Reader)
    requires res == Ok((v, r))
    ensures Back(true, v, res, r)
  {
  }

  lemma BackFails<T>(v: T, res: Result<(T, Reader)>, r: Reader)
    requires res.Err?
    ensures Back(false, v, res, r)
  {
  }

  lemma BackParts<T>(ok: bool, v: T, res: Result<(T, Reader)>, r: Reader)
    requires Back(ok, v, res, r)
    ensures if ok then res == Ok((v, r)) else res.Err?
  {
  }

  /** One member at the front of the remaining ones. */
  lemma MemberFirst(v: Value, i: nat, table: seq<string>, more: seq<Op>)
    requires v.Obj? && i < |v.keys| && WellFormed(v) && Safe(table, MemberOps(v, i) + more)
    ensures
      var t := TableOp(table, Text(v.keys[i]));
      var item, rest := ValueOps(v.vals[v.keys[i]]), MemberOps(v, i + 1) + more;
      && Safe(t, item + rest) && Safe(Table(t, item), rest)
      && ReadString(At(table, MemberOps(v, i) + more)) == Ok((v.keys[i], At(t, item + rest)))
      && Table(table, MemberOps(v, i)) == Table(Table(t, item), MemberOps(v, i + 1))
  {
    var key := v.keys[i];
    var item, tail := ValueOps(v.vals[key]), MemberOps(v, i + 1);
    MemberOpsCons(v, i);
    hide MemberOps, ValueOps, WellFormed;
    TextFirst(table, key, item + tail, more);
    Sequence(TableOp(table, Text(key)), item, tail, more);
  }

  lemma {:induction false} ReadWrittenMembers(room: Option<nat>, v: Value, i: nat, table: seq<string>, more: seq<Op>)
    requires v.Obj? && i <= |v.keys| && WellFormed(v) && Safe(table, MemberOps(v, i) + more)
    ensures Back(MembersFit(room, v, i), FirstMembers(v, |v.keys|),
                 ReadMembers(room, At(table, MemberOps(v, i) + more), |v.keys| - i, FirstMembers(v, i)),
                   At(Table(table, MemberOps(v, i)), more))
    decreases v, 0, |v.keys| - i
  {
    hide *;
    if i == |v.keys| {
      MembersDone(room, v, table, more);
    } else {
      MemberFacts(v, i);
      MembersFitStep(room, v, i);
      MemberFirst(v, i, table, more);
      var key := v.keys[i];
      var t := TableOp(table, Text(key));
      var item := ValueOps(v.vals[key]);
      var rest := MemberOps(v, i + 1) + more;
      ReadWrittenValue(room, v.vals[key], t, rest);
      BackParts(FitsRoom(room, v.vals[key]), v.vals[key], ReadValue(room, At(t, item + rest)),
                At(Table(t, item), rest));
      InsertNext(v, i);
      ReadMemberStep(room, At(table, MemberOps(v, i) + more), |v.keys| - i, FirstMembers(v, i), key,
                     At(t, item + rest));
      if FitsRoom(room, v.vals[key]) {
        ReadWrittenMembers(room, v, i + 1, Table(t, item), more);
      } else {
        BackFails(FirstMembers(v, |v.keys|),
                  ReadMembers(room, At(table, MemberOps(v, i) + more), |v.keys| - i, FirstMembers(v, i)),
                  At(Table(table, MemberOps(v, i)), more));
      }
    }
  }

  /** Without a limit every value fits. */
  lemma {:induction false} AlwaysFits(v: Value)
    ensures FitsRoom(None, v)
  {
    match v
    case Arr(items) =>
      forall i | 0 <= i < |items| ensures FitsRoom(None, items[i]) {
        AlwaysFits(items[i]);
      }
    case Obj(_, vals) =>
      forall k | k in vals ensures FitsRoom(None, vals[k]) {
        AlwaysFits(vals[k]);
      }
    case _ =>
  }
}
