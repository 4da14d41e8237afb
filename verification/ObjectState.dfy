/** Ticks whose objects and spawns live outside the tick tree, as records shared between ticks.
    The tick holds empty placeholders; what is written is the tick with its records put back. */
module ObjectState {
  import opened Base
  import opened Floats
  import opened Values
  import opened Wire
  import opened Delta
  import opened PythonDelta
  import opened Buffers
  import V = ViewerWriter
  import O = OrderedDelta

  /** A source record, never changed once received; its identity stands for its contents. */
  class ObjectRecord {
    const source: Value
    const retainedBytes: nat

    constructor (source: Value, retainedBytes: nat)
      ensures this.source == source && this.retainedBytes == retainedBytes
    {
      this.source := source;
      this.retainedBytes := retainedBytes;
    }
  }

  /** The projection of a source record, recycled by the cache once nobody shares it. */
  class ProjectedRecord {
    var source: ObjectRecord
    var value: Value
    var retainedBytes: nat

    constructor (source: ObjectRecord)
      ensures this.source == source && value == Null && retainedBytes == 0
    {
      this.source := source;
      value := Null;
      retainedBytes := 0;
    }
  }

  /** The projection of the spawn list, replaced as a whole. */
  class ProjectedSpawns {
    const value: Value

    constructor (value: Value)
      ensures this.value == value
    {
      this.value := value;
    }
  }

  datatype Records = Records(objects: seq<ProjectedRecord>, spawns: Option<ProjectedSpawns>)

  /** What the records hold at one moment. */
  datatype View = View(objects: seq<Value>, spawns: Option<Value>)

  ghost function ValuesOf(objects: seq<ProjectedRecord>): (values: seq<Value>)
    reads objects
    ensures |values| == |objects|
    ensures forall i :: 0 <= i < |values| ==> values[i] == objects[i].value
  {
    seq(|objects|, i requires 0 <= i < |objects| reads objects => objects[i].value)
  }

  ghost function ViewOf(records: Records): View
    reads records.objects
  {
    View(ValuesOf(records.objects), if records.spawns.Some? then Some(records.spawns.value.value) else None)
  }

  ghost predicate WellFormedView(view: View) {
    (forall i :: 0 <= i < |view.objects| ==> WellFormed(view.objects[i])) && WellFormedOption(view.spawns)
  }

  // ----- putting the records back -----

  const EMPTY: Value := Arr([])

  /** The tick holds the placeholders its records need. */
  predicate Fits(tick: Value, spawns: bool) {
    && tick.Obj?
    && "objects" in tick.vals && tick.vals["objects"] == EMPTY
    && (spawns ==> "spawns" in tick.vals && tick.vals["spawns"] == EMPTY)
  }

  function Field(key: string, value: Value, view: View): Value {
    if key == "objects" then Arr(view.objects)
    else if key == "spawns" && view.spawns.Some? then view.spawns.value
    else value
  }

  /** The tick with its records in place of the placeholders. */
  function Full(tick: Value, view: View): (full: Value)
    requires tick.Obj?
    ensures full.Obj? && full.keys == tick.keys && full.vals.Keys == tick.vals.Keys
    ensures forall k :: k in tick.vals ==> full.vals[k] == Field(k, tick.vals[k], view)
    ensures "objects" in tick.vals ==> full.vals["objects"] == Arr(view.objects)
    ensures "spawns" in tick.vals ==>
      full.vals["spawns"] == if view.spawns.Some? then view.spawns.value else tick.vals["spawns"]
    ensures forall k :: k in tick.vals && k != "objects" && k != "spawns" ==> full.vals[k] == tick.vals[k]
  {
    Obj(tick.keys, map k | k in tick.vals :: Field(k, tick.vals[k], view))
  }

  lemma FullWellFormed(tick: Value, view: View)
    requires WellFormed(tick) && tick.Obj? && WellFormedView(view)
    ensures WellFormed(Full(tick, view))
  {
    var full := Full(tick, view);
    forall k | k in full.vals ensures WellFormed(full.vals[k]) {
      assert WellFormed(tick.vals[k]);
    }
  }

  // ----- record lists -----

  /** What the record writer calls: like the array writer, but without the float32 forms. */
  ghost function RecordOps(previous: Value, next: Value, before: Option<Value>): seq<Op>
    requires WellFormed(next) && previous.Arr? && next.Arr?
  {
    if Same(previous, next) then [Byte(DELTA_SAME)] else V.ArrayOps(previous, next, before)
  }

  lemma ArrayOpsTag(previous: Value, next: Value, before: Option<Value>)
    requires WellFormed(next) && previous.Arr? && next.Arr?
    ensures V.ArrayOps(previous, next, before) != []
    ensures V.ArrayOps(previous, next, before)[0] in {Byte(DELTA_DENSE_ARRAY), Byte(DELTA_ARRAY)}
  {
    hide DenseOps, SparseOps, ChangedItems;
  }

  lemma FloatOpsTag(previous: Value, next: Value, before: Option<Value>)
    requires FloatArrays(previous, next)
    ensures FloatArrayOps(previous, next, before) != []
    ensures FloatArrayOps(previous, next, before)[0] !in {Byte(DELTA_DENSE_ARRAY), Byte(DELTA_ARRAY)}
  {
    hide FloatChoice, FloatPayload, FloatArrays;
  }

  /** The record writer is byte for byte the generic writer exactly when the lists are not two
      different float32 arrays; lists of objects never are. */
  lemma RecordOpsAgree(previous: Value, next: Value, before: Option<Value>)
    requires WellFormed(next) && WellFormed(previous) && previous.Arr? && next.Arr?
    ensures RecordOps(previous, next, before) == DeltaOps(Some(previous), next, before)
      <==> (Same(previous, next) || !FloatArrays(previous, next))
  {
    V.DeltaOpsShape(Some(previous), next, before);
    hide DeltaOps, FloatArrays, V.ArrayOps, FloatArrayOps, Same;
    if !Same(previous, next) && FloatArrays(previous, next) {
      ArrayOpsTag(previous, next, before);
      FloatOpsTag(previous, next, before);
    }
  }

  lemma NoListedChange(previous: Value, next: Value)
    requires WellFormed(previous) && WellFormed(next) && previous.Arr? && next.Arr?
    ensures Same(previous, next) <==> |previous.items| == |next.items| && V.ChangedIndexes(previous, next, 0) == []
  {
    V.ChangedIndexesFacts(previous, next, 0);
    NoItemChanged(previous, next, 0);
    hide V.ChangedIndexes, ChangedItems;
    if |previous.items| == |next.items| && V.ChangedIndexes(previous, next, 0) == [] {
      forall i | 0 <= i < |next.items| ensures Same(previous.items[i], next.items[i]) {
        assert !Changed(Element(Some(previous), i), next.items[i]);
      }
    }
    if Same(previous, next) {
      forall j | 0 <= j < |next.items| ensures !Changed(Element(Some(previous), j), next.items[j]) {
      }
    }
  }

  /** One record against the same place a tick earlier: the same object, or an equal value. */
  predicate SameRecord(previous: ProjectedRecord, next: ProjectedRecord)
    reads previous, next
    requires WellFormed(previous.value) && WellFormed(next.value)
  {
    previous == next || O.SlotSame(previous.value, next.value)
  }

  lemma RecordChanged(previous: seq<ProjectedRecord>, next: seq<ProjectedRecord>, i: nat)
    requires i < |next| && WellFormedView(View(ValuesOf(previous), None)) && WellFormedView(View(ValuesOf(next), None))
    ensures WellFormed(next[i].value) && (i < |previous| ==> WellFormed(previous[i].value))
    ensures Element(Some(Arr(ValuesOf(previous))), i) == if i < |previous| then Some(previous[i].value) else None
    ensures Changed(Element(Some(Arr(ValuesOf(previous))), i), next[i].value) <==>
      i >= |previous| || !SameRecord(previous[i], next[i])
  {
    hide Same, O.SlotSame;
    assert ValuesOf(next)[i] == next[i].value;
    if i < |previous| {
      assert ValuesOf(previous)[i] == previous[i].value;
      O.SlotSameIsSame(previous[i].value, next[i].value);
      SameReflexive(next[i].value);
    }
  }

  method FindChangedRecords(previous: seq<ProjectedRecord>, next: seq<ProjectedRecord>) returns (changed: seq<nat>)
    requires WellFormedView(View(ValuesOf(previous), None)) && WellFormedView(View(ValuesOf(next), None))
    ensures changed == V.ChangedIndexes(Arr(ValuesOf(previous)), Arr(ValuesOf(next)), 0)
  {
    hide *;
    ghost var p, n := Arr(ValuesOf(previous)), Arr(ValuesOf(next));
    changed := [];
    for i := 0 to |next|
      invariant changed + V.ChangedIndexes(p, n, i) == V.ChangedIndexes(p, n, 0)
    {
      V.ChangedIndexesStep(p, n, i);
      RecordChanged(previous, next, i);
      if i >= |previous| || !SameRecord(previous[i], next[i]) {
        changed := changed + [i];
      }
    }
    V.ChangedIndexesStep(p, n, |next|);
  }

  method SameRecords(previous: seq<ProjectedRecord>, next: seq<ProjectedRecord>) returns (same: bool)
    requires WellFormedView(View(ValuesOf(previous), None)) && WellFormedView(View(ValuesOf(next), None))
    ensures same <==> Same(Arr(ValuesOf(previous)), Arr(ValuesOf(next)))
  {
    hide O.SlotSame, SameRecord, Changed, WellFormed;
    if |previous| != |next| {
      return false;
    }
    for i := 0 to |next|
      invariant forall j :: 0 <= j < i ==> Same(ValuesOf(previous)[j], ValuesOf(next)[j])
    {
      RecordChanged(previous, next, i);
      ChangedAt(ValuesOf(previous), ValuesOf(next), i);
      if !SameRecord(previous[i], next[i]) {
        return false;
      }
    }
    return true;
  }

  lemma ChangedAt(previous: seq<Value>, next: seq<Value>, i: nat)
    requires i < |previous| && i < |next|
    ensures Changed(Element(Some(Arr(previous)), i), next[i]) <==> !Same(previous[i], next[i])
  {
  }

  method WriteRecords(writer: BinaryWriter, records: seq<ProjectedRecord>) returns (a: Attempt)
    requires writer.Valid() && WellFormedView(View(ValuesOf(records), None)) && WellFormed(Arr(ValuesOf(records)))
    modifies writer
    ensures writer.Valid()
    ensures a.Done? ==> writer.calls == old(writer.calls) + ValueOps(Arr(ValuesOf(records)))
    ensures a.Raised? ==> !Safe([], old(writer.calls) + ValueOps(Arr(ValuesOf(records))))
  {
    hide *;
    ghost var v := Arr(ValuesOf(records));
    ghost var goal := writer.calls + ValueOps(v);
    V.ValueOpsShape(v);
    V.Next(writer.calls, [Byte(VALUE_ARRAY)], [Varuint(|records|)] + ItemOps(v, 0), goal);
    writer.Byte(VALUE_ARRAY);
    V.Next(writer.calls, [Varuint(|records|)], ItemOps(v, 0), goal);
    a := writer.Varuint(|records|);
    if a.Raised? {
      return;
    }
    for i := 0 to |records|
      invariant writer.Valid() && ValuesOf(records) == v.items
      invariant writer.calls + ItemOps(v, i) == goal
    {
      V.ItemOpsStep(v, i);
      V.Next(writer.calls, ValueOps(v.items[i]), ItemOps(v, i + 1), goal);
      a := V.WriteValue(writer, records[i].value);
      if a.Raised? {
        return;
      }
    }
    V.ItemOpsStep(v, |records|);
    V.Last(writer.calls, goal);
    return Done;
  }

  ghost function HistoryOf(records: Option<seq<ProjectedRecord>>): Option<Value>
    reads if records.Some? then records.value else []
  {
    if records.Some? then Some(Arr(ValuesOf(records.value))) else None
  }

  /** The generic writer on one record, with the history of its place. */
  method WriteChangedRecord(writer: BinaryWriter, previous: seq<ProjectedRecord>, next: seq<ProjectedRecord>,
                            before: Option<seq<ProjectedRecord>>, i: nat) returns (a: Attempt)
    requires writer.Valid() && i < |next|
    requires WellFormedView(View(ValuesOf(previous), None)) && WellFormedView(View(ValuesOf(next), None))
    modifies writer
    ensures writer.Valid() && WellFormed(next[i].value)
    ensures a.Done? ==>
      writer.calls == old(writer.calls)
        + DeltaOps(Element(Some(Arr(ValuesOf(previous))), i), next[i].value, Element(HistoryOf(before), i))
    ensures a.Raised? ==>
      !Safe([], old(writer.calls)
            + DeltaOps(Element(Some(Arr(ValuesOf(previous))), i), next[i].value, Element(HistoryOf(before), i)))
  {
    hide DeltaOps, Safe, WellFormed;
    assert ValuesOf(next)[i] == next[i].value;
    var base := if i < |previous| then Some(previous[i].value) else None;
    var history := if before.Some? && i < |before.value| then Some(before.value[i].value) else None;
    a := O.Write(writer, base, next[i].value, history);
  }

  method WriteRecordDelta(writer: BinaryWriter, previous: seq<ProjectedRecord>, next: seq<ProjectedRecord>,
                          before: Option<seq<ProjectedRecord>>) returns (a: Attempt)
    requires writer.Valid()
    requires WellFormedView(View(ValuesOf(previous), None)) && WellFormedView(View(ValuesOf(next), None))
    requires WellFormed(Arr(ValuesOf(next)))
    modifies writer
    ensures writer.Valid()
    ensures a.Done? ==>
      writer.calls
        == old(writer.calls) + RecordOps(Arr(ValuesOf(previous)), Arr(ValuesOf(next)), HistoryOf(before))
    ensures a.Raised? ==> !Safe([],
                                old(writer.calls) + RecordOps(Arr(ValuesOf(previous)), Arr(ValuesOf(next)),
        HistoryOf(before)))
  {
    hide *;
    ghost var p, n, h := Arr(ValuesOf(previous)), Arr(ValuesOf(next)), HistoryOf(before);
    ghost var goal := writer.calls + RecordOps(p, n, h);
    WellFormedList(previous);
    RecordOpsParts(p, n, h);
    NoListedChange(p, n);
    var changed := FindChangedRecords(previous, next);
    if changed == [] && |previous| == |next| {
      writer.Byte(DELTA_SAME);
      return Done;
    }
    V.ArrayOpsShape(p, n, h);
    V.ChangedCount(p, n);
    if |previous| == |next| && |changed| > |next| / 2 {
      V.Next(writer.calls, [Byte(DELTA_DENSE_ARRAY)], DenseOps(p, n, h, 0), goal);
      writer.Byte(DELTA_DENSE_ARRAY);
      a := WriteDenseRecords(writer, previous, next, before, changed, p, n, h, goal);
    } else {
      V.SparseIsListed(p, n, h, 0);
      V.Next(writer.calls, [Byte(DELTA_ARRAY)], [Varuint(|next|)] + ([Varuint(|changed|)] + SparseOps(p, n, h, 0)),
             goal);
      writer.Byte(DELTA_ARRAY);
      V.Next(writer.calls, [Varuint(|next|)], [Varuint(|changed|)] + SparseOps(p, n, h, 0), goal);
      a := writer.Varuint(|next|);
      if a.Raised? {
        return;
      }
      V.Next(writer.calls, [Varuint(|changed|)], SparseOps(p, n, h, 0), goal);
      a := writer.Varuint(|changed|);
      if a.Raised? {
        return;
      }
      a := WriteListedRecords(writer, previous, next, before, changed, p, n, h, goal);
    }
  }

  lemma WellFormedList(records: seq<ProjectedRecord>)
    requires WellFormedView(View(ValuesOf(records), None))
    ensures WellFormed(Arr(ValuesOf(records)))
  {
  }

  lemma RecordOpsParts(previous: Value, next: Value, before: Option<Value>)
    requires WellFormed(next) && previous.Arr? && next.Arr?
    ensures RecordOps(previous, next, before) == if Same(previous, next) then [Byte(DELTA_SAME)]
      else V.ArrayOps(previous, next, before)
  {
  }

  method WriteDenseRecords(writer: BinaryWriter, previous: seq<ProjectedRecord>, next: seq<ProjectedRecord>,
                           before: Option<seq<ProjectedRecord>>,
                           changed: seq<nat>, ghost p: Value, ghost n: Value, ghost h: Option<Value>,
                             ghost goal: seq<Op>) returns (a: Attempt)
    requires writer.Valid() && WellFormedView(View(ValuesOf(previous), None))
    requires WellFormedView(View(ValuesOf(next), None)) && WellFormed(n)
    requires p == Arr(ValuesOf(previous)) && n == Arr(ValuesOf(next)) && h == HistoryOf(before)
    requires changed == V.ChangedIndexes(p, n, 0)
    requires writer.calls + DenseOps(p, n, h, 0) == goal
    modifies writer
    ensures writer.Valid()
    ensures a.Done? ==> writer.calls == goal
    ensures a.Raised? ==> !Safe([], goal)
  {
    hide *;
    var j := 0;
    for i := 0 to |next|
      invariant writer.Valid() && writer.calls + DenseOps(p, n, h, i) == goal
      invariant 0 <= j <= |changed| && changed[j..] == V.ChangedIndexes(p, n, i)
      invariant WellFormedView(View(ValuesOf(previous), None)) && WellFormedView(View(ValuesOf(next), None))
      invariant p == Arr(ValuesOf(previous)) && n == Arr(ValuesOf(next)) && h == HistoryOf(before)
    {
      V.DenseOpsStep(p, n, h, i);
      O.DueAt(p, n, changed, j, i);
      V.Next(writer.calls, DeltaOps(Element(Some(p), i), n.items[i], Element(h, i)), DenseOps(p, n, h, i + 1), goal);
      if j < |changed| && changed[j] == i {
        j := j + 1;
        a := WriteChangedRecord(writer, previous, next, before, i);
        if a.Raised? {
          return;
        }
      } else {
        O.UnchangedOps(Element(Some(p), i), n.items[i], Element(h, i));
        writer.Byte(DELTA_SAME);
      }
    }
    V.DenseOpsStep(p, n, h, |next|);
    V.Last(writer.calls, goal);
    return Done;
  }

  method WriteListedRecords(writer: BinaryWriter, previous: seq<ProjectedRecord>, next: seq<ProjectedRecord>,
                            before: Option<seq<ProjectedRecord>>,
                            changed: seq<nat>, ghost p: Value, ghost n: Value, ghost h: Option<Value>,
                              ghost goal: seq<Op>) returns (a: Attempt)
    requires writer.Valid() && WellFormedView(View(ValuesOf(previous), None))
    requires WellFormedView(View(ValuesOf(next), None)) && WellFormed(n)
    requires p == Arr(ValuesOf(previous)) && n == Arr(ValuesOf(next)) && h == HistoryOf(before) && V.InRange(n, changed)
    requires writer.calls + V.ListedItems(p, n, h, changed) == goal
    modifies writer
    ensures writer.Valid()
    ensures a.Done? ==> writer.calls == goal
    ensures a.Raised? ==> !Safe([], goal)
  {
    hide *;
    assert changed[0..] == changed;
    for j := 0 to |changed|
      invariant writer.Valid() && V.InRange(n, changed[j..])
      invariant writer.calls + V.ListedItems(p, n, h, changed[j..]) == goal
      invariant WellFormedView(View(ValuesOf(previous), None)) && WellFormedView(View(ValuesOf(next), None))
      invariant p == Arr(ValuesOf(previous)) && n == Arr(ValuesOf(next)) && h == HistoryOf(before)
    {
      V.ListedItemsStep(p, n, h, changed, j);
      var i := changed[j];
      ghost var step, rest :=
        DeltaOps(Element(Some(p), i), n.items[i], Element(h, i)), V.ListedItems(p, n, h, changed[j + 1..]);
      V.Next(writer.calls, [Varuint(i)], step + rest, goal);
      a := writer.Varuint(i);
      if a.Raised? {
        return;
      }
      V.Next(writer.calls, step, rest, goal);
      a := WriteChangedRecord(writer, previous, next, before, i);
      if a.Raised? {
        return;
      }
    }
    V.ListedItemsStep(p, n, h, changed, |changed|);
    V.Last(writer.calls, goal);
    return Done;
  }

  // ----- whole ticks -----

  /** The member itself, or the shared spawns in its place; objects are handled apart. */
  function FieldValue(key: string, value: Value, spawns: Option<ProjectedSpawns>): Value {
    if key == "spawns" && spawns.Some? then spawns.value.value else value
  }

  /** The tick with its records, as one value. */
  ghost function FullOf(tick: Value, records: Records): Value
    reads records.objects
    requires tick.Obj?
  {
    Full(tick, ViewOf(records))
  }

  ghost predicate Sound(tick: Value, records: Records)
    reads records.objects
  {
    && WellFormed(tick)
    && Fits(tick, records.spawns.Some?)
    && WellFormedView(ViewOf(records))
  }

  lemma SoundFull(tick: Value, records: Records)
    requires Sound(tick, records)
    ensures tick.Obj? && Ordered(tick.keys, tick.vals)
    ensures FullOf(tick, records).Obj? && FullOf(tick, records).keys == tick.keys
    ensures WellFormed(FullOf(tick, records))
    ensures WellFormedView(View(ValuesOf(records.objects), None))
    ensures WellFormed(Arr(ValuesOf(records.objects)))
    ensures FullOf(tick, records).vals.Keys == tick.vals.Keys
    ensures "objects" in tick.vals && FullOf(tick, records).vals["objects"] == Arr(ValuesOf(records.objects))
    ensures forall k :: k in tick.vals && k != "objects" ==>
      FullOf(tick, records).vals[k] == FieldValue(k, tick.vals[k], records.spawns)
        && WellFormed(FullOf(tick, records).vals[k])
  {
    FullWellFormed(tick, ViewOf(records));
    WellFormedList(records.objects);
  }

  /** The first tick of a chunk, written whole. */
  method WriteFirst(writer: BinaryWriter, next: Value, objects: Records) returns (a: Attempt)
    requires writer.Valid() && Sound(next, objects) && next.Obj? && WellFormed(FullOf(next, objects))
    modifies writer
    ensures writer.Valid()
    ensures a.Done? ==> writer.calls == old(writer.calls) + ValueOps(FullOf(next, objects))
    ensures a.Raised? ==> !Safe([], old(writer.calls) + ValueOps(FullOf(next, objects)))
  {
    hide *;
    ghost var full := FullOf(next, objects);
    ghost var goal := writer.calls + ValueOps(full);
    SoundFull(next, objects);
    V.ValueOpsShape(full);
    V.Next(writer.calls, [Byte(VALUE_OBJECT)], [Varuint(|next.keys|)] + MemberOps(full, 0), goal);
    writer.Byte(VALUE_OBJECT);
    V.Next(writer.calls, [Varuint(|next.keys|)], MemberOps(full, 0), goal);
    a := writer.Varuint(|next.keys|);
    if a.Raised? {
      return;
    }
    a := WriteFirstMembers(writer, next, objects, full, goal);
  }

  method WriteFirstMembers(writer: BinaryWriter, next: Value, objects: Records, ghost full: Value,
                           ghost goal: seq<Op>) returns (a: Attempt)
    requires writer.Valid() && Sound(next, objects) && next.Obj? && full == FullOf(next, objects) && full.Obj?
    requires WellFormed(full)
    requires writer.calls + MemberOps(full, 0) == goal
    modifies writer
    ensures writer.Valid()
    ensures a.Done? ==> writer.calls == goal
    ensures a.Raised? ==> !Safe([], goal)
  {
    hide *;
    SoundFull(next, objects);
    for i := 0 to |next.keys|
      invariant writer.Valid() && Sound(next, objects) && full == FullOf(next, objects)
      invariant writer.calls + MemberOps(full, i) == goal
    {
      V.MemberOpsStep(full, i);
      var key := next.keys[i];
      V.Next(writer.calls, [Text(key)], ValueOps(full.vals[key]) + MemberOps(full, i + 1), goal);
      a := writer.String(key);
      if a.Raised? {
        return;
      }
      V.Next(writer.calls, ValueOps(full.vals[key]), MemberOps(full, i + 1), goal);
      a := WriteFirstMember(writer, key, next, objects, full.vals[key]);
      if a.Raised? {
        return;
      }
    }
    V.MemberOpsStep(full, |next.keys|);
    V.Last(writer.calls, goal);
    return Done;
  }

  method WriteFirstMember(writer: BinaryWriter, key: string, next: Value, objects: Records, ghost value: Value)
    returns (a: Attempt)
    requires writer.Valid() && Sound(next, objects) && next.Obj? && key in next.vals
    requires key in FullOf(next, objects).vals && value == FullOf(next, objects).vals[key] && WellFormed(value)
    modifies writer
    ensures writer.Valid()
    ensures a.Done? ==> writer.calls == old(writer.calls) + ValueOps(value)
    ensures a.Raised? ==> !Safe([], old(writer.calls) + ValueOps(value))
  {
    hide *;
    SoundFull(next, objects);
    if key == "objects" {
      a := WriteRecords(writer, objects.objects);
    } else {
      a := V.WriteValue(writer, FieldValue(key, next.vals[key], objects.spawns));
    }
  }

  /** One member of the tick differs from the tick before. */
  method MemberChanged(key: string, previous: Value, next: Value, previousObjects: Records, objects: Records,
                       ghost p: Value, ghost n: Value) returns (changed: bool)
    requires Sound(previous, previousObjects) && Sound(next, objects) && previous.Obj? && next.Obj? && key in next.vals
    requires p == FullOf(previous, previousObjects) && n == FullOf(next, objects)
    ensures n.Obj? && key in n.vals
    ensures changed <==> Changed(Member(Some(p), key), n.vals[key])
  {
    hide *;
    SoundFull(previous, previousObjects);
    SoundFull(next, objects);
    MemberParts(p, key, n.vals[key]);
    if key == "objects" {
      var same := SameRecords(previousObjects.objects, objects.objects);
      changed := !same;
    } else if key == "spawns" && objects.spawns.Some? && previousObjects.spawns.Some?
      && objects.spawns == previousObjects.spawns {
      SpawnsPresent(previous, previousObjects);
      FieldValueParts(key, previous.vals[key], previousObjects.spawns);
      FieldValueParts(key, next.vals[key], objects.spawns);
      SameReflexive(objects.spawns.value.value);
      changed := false;
    } else if key !in previous.vals {
      changed := true;
    } else {
      var a, b := FieldValue(key, previous.vals[key], previousObjects.spawns),
        FieldValue(key, next.vals[key], objects.spawns);
      O.SlotSameIsSame(a, b);
      changed := !O.SlotSame(a, b);
    }
  }

  lemma MemberParts(previous: Value, key: string, next: Value)
    requires previous.Obj?
    ensures Changed(Member(Some(previous), key), next) <==> key !in previous.vals || !Same(previous.vals[key], next)
  {
  }

  lemma SpawnsPresent(tick: Value, records: Records)
    requires Sound(tick, records) && records.spawns.Some?
    ensures tick.Obj? && "spawns" in tick.vals
  {
  }

  lemma FieldValueParts(key: string, value: Value, spawns: Option<ProjectedSpawns>)
    ensures FieldValue(key, value, spawns) == if key == "spawns" && spawns.Some? then spawns.value.value else value
  {
  }

  method FindChangedMembers(previous: Value, next: Value, previousObjects: Records, objects: Records, ghost p: Value,
                            ghost n: Value) returns (changed: seq<string>)
    requires Sound(previous, previousObjects) && Sound(next, objects) && previous.Obj? && next.Obj?
    requires p == FullOf(previous, previousObjects) && n == FullOf(next, objects)
    ensures n.Obj? && Ordered(n.keys, n.vals)
    ensures changed == V.ChangedKeys(p, n, 0)
  {
    hide *;
    SoundFull(next, objects);
    V.MemberDeltaOpsStep(p, n, None, 0);
    changed := [];
    for i := 0 to |next.keys|
      invariant changed + V.ChangedKeys(p, n, i) == V.ChangedKeys(p, n, 0)
      invariant Sound(previous, previousObjects) && Sound(next, objects)
      invariant p == FullOf(previous, previousObjects) && n == FullOf(next, objects)
    {
      V.ChangedKeysStep(p, n, i);
      var different := MemberChanged(next.keys[i], previous, next, previousObjects, objects, p, n);
      if different {
        changed := changed + [next.keys[i]];
      }
    }
    V.ChangedKeysStep(p, n, |next.keys|);
  }

  lemma {:induction false} SameDeletions(keys: seq<string>, a: map<string, Value>, b: map<string, Value>)
    requires a.Keys == b.Keys
    ensures Deleted(keys, a) == Deleted(keys, b)
  {
    if keys != [] {
      SameDeletions(keys[1..], a, b);
    }
  }

  /** What was written before, where two ticks of history exist. */
  ghost function HistoryTick(before: Option<Value>, beforeObjects: Option<Records>): Option<Value>
    reads if beforeObjects.Some? then beforeObjects.value.objects else []
  {
    if before.Some? && beforeObjects.Some? && before.value.Obj? then Some(FullOf(before.value, beforeObjects.value))
      else None
  }

  lemma HistoryMember(before: Option<Value>, beforeObjects: Option<Records>, key: string)
    requires before.Some? <==> beforeObjects.Some?
    requires before.Some? ==> Sound(before.value, beforeObjects.value)
    ensures key == "objects" ==>
      Member(HistoryTick(before, beforeObjects), key)
        == HistoryOf(if beforeObjects.Some? then Some(beforeObjects.value.objects) else None)
    ensures key != "objects" ==>
      Member(HistoryTick(before, beforeObjects), key) ==
        if before.Some? && before.value.Obj? && key in before.value.vals then
          Some(FieldValue(key, before.value.vals[key], beforeObjects.value.spawns))
        else None
  {
    if before.Some? {
      SoundFull(before.value, beforeObjects.value);
      hide Sound, WellFormed;
    }
  }

  /** One changed member: records by the record writer, everything else generically. */
  method WriteChangedMember(writer: BinaryWriter, key: string, previous: Value, next: Value, before: Option<Value>,
                            previousObjects: Records, objects: Records, beforeObjects: Option<Records>,
                            ghost base: Option<Value>, ghost value: Value,
                              ghost history: Option<Value>) returns (a: Attempt)
    requires writer.Valid() && Sound(previous, previousObjects) && Sound(next, objects) && previous.Obj? && next.Obj?
    requires key in next.vals
    requires before.Some? <==> beforeObjects.Some?
    requires before.Some? ==> Sound(before.value, beforeObjects.value)
    requires !FloatArrays(Arr(ValuesOf(previousObjects.objects)), Arr(ValuesOf(objects.objects)))
    requires key in FullOf(next, objects).vals && value == FullOf(next, objects).vals[key] && WellFormed(value)
    requires base == Member(Some(FullOf(previous, previousObjects)), key)
    requires history == Member(HistoryTick(before, beforeObjects), key)
    modifies writer
    ensures writer.Valid()
    ensures a.Done? ==> writer.calls == old(writer.calls) + DeltaOps(base, value, history)
    ensures a.Raised? ==> !Safe([], old(writer.calls) + DeltaOps(base, value, history))
  {
    hide *;
    SoundFull(previous, previousObjects);
    SoundFull(next, objects);
    HistoryMember(before, beforeObjects, key);
    MemberOf(FullOf(previous, previousObjects), key);
    if key == "objects" {
      var records := if beforeObjects.Some? then Some(beforeObjects.value.objects) else None;
      RecordOpsAgree(Arr(ValuesOf(previousObjects.objects)), Arr(ValuesOf(objects.objects)), HistoryOf(records));
      a := WriteRecordDelta(writer, previousObjects.objects, objects.objects, records);
    } else {
      var previousValue := if key in previous.vals
        then Some(FieldValue(key, previous.vals[key], previousObjects.spawns)) else None;
      var beforeValue :=
        if before.Some? && before.value.Obj? && key in before.value.vals then
          Some(FieldValue(key, before.value.vals[key], beforeObjects.value.spawns))
        else None;
      V.SomeWellFormed(previousValue);
      a := O.Write(writer, previousValue, FieldValue(key, next.vals[key], objects.spawns), beforeValue);
    }
  }

  lemma MemberOf(v: Value, key: string)
    requires v.Obj?
    ensures Member(Some(v), key) == if key in v.vals then Some(v.vals[key]) else None
  {
  }

  method WriteChangedMembers(writer: BinaryWriter, changed: seq<string>, previous: Value, next: Value,
                             before: Option<Value>,
                             previousObjects: Records, objects: Records, beforeObjects: Option<Records>,
                             ghost p: Value, ghost n: Value, ghost h: Option<Value>,
                               ghost goal: seq<Op>) returns (a: Attempt)
    requires writer.Valid() && Sound(previous, previousObjects) && Sound(next, objects) && previous.Obj? && next.Obj?
    requires before.Some? <==> beforeObjects.Some?
    requires before.Some? ==> Sound(before.value, beforeObjects.value)
    requires !FloatArrays(Arr(ValuesOf(previousObjects.objects)), Arr(ValuesOf(objects.objects)))
    requires p == FullOf(previous, previousObjects) && n == FullOf(next, objects)
    requires h == HistoryTick(before, beforeObjects)
    requires WellFormed(n) && V.AreKeys(n, changed) && writer.calls + V.ListedMembers(p, n, h, changed) == goal
    modifies writer
    ensures writer.Valid()
    ensures a.Done? ==> writer.calls == goal
    ensures a.Raised? ==> !Safe([], goal)
  {
    hide *;
    assert changed[0..] == changed;
    SoundFull(next, objects);
    var records: seq<ProjectedRecord> := if beforeObjects.Some? then beforeObjects.value.objects else [];
    assert forall r: object :: r in records ==> r != writer;
    for j := 0 to |changed|
      invariant writer.Valid() && V.AreKeys(n, changed[j..])
      invariant writer.calls + V.ListedMembers(p, n, h, changed[j..]) == goal
      invariant Sound(previous, previousObjects) && Sound(next, objects)
      invariant before.Some? ==> Sound(before.value, beforeObjects.value)
      invariant !FloatArrays(Arr(ValuesOf(previousObjects.objects)), Arr(ValuesOf(objects.objects)))
      invariant p == FullOf(previous, previousObjects) && n == FullOf(next, objects)
      invariant h == HistoryTick(before, beforeObjects)
    {
      V.ListedMembersStep(p, n, h, changed, j);
      var key := changed[j];
      ghost var step, rest :=
        DeltaOps(Member(Some(p), key), n.vals[key], Member(h, key)), V.ListedMembers(p, n, h, changed[j + 1..]);
      V.Next(writer.calls, [Text(key)], step + rest, goal);
      a := writer.String(key);
      if a.Raised? {
        return;
      }
      V.Next(writer.calls, step, rest, goal);
      a := WriteChangedMember(writer, key, previous, next, before, previousObjects, objects, beforeObjects,
        Member(Some(p), key), n.vals[key], Member(h, key));
      if a.Raised? {
        return;
      }
    }
    V.ListedMembersStep(p, n, h, changed, |changed|);
    V.Last(writer.calls, goal);
    return Done;
  }

  /** What a tick costs on the wire: its full value, or its delta from the tick before. */
  ghost function TickGoal(previous: Option<Value>, full: Value, before: Option<Value>): seq<Op>
    requires WellFormed(full)
  {
    if previous.None? then ValueOps(full) else DeltaOps(previous, full, before)
  }

  lemma FitsParts(tick: Value, records: Records)
    requires WellFormed(tick) && WellFormedView(ViewOf(records))
    ensures Sound(tick, records) <==> Fits(tick, records.spawns.Some?)
    ensures Fits(tick, records.spawns.Some?) ==> tick.Obj?
  {
  }

  lemma NothingChanged(p: Value, n: Value)
    requires WellFormed(p) && WellFormed(n) && p.Obj? && n.Obj?
    ensures Ordered(n.keys, n.vals)
    ensures Deleted(p.keys, n.vals) == [] && V.ChangedKeys(p, n, 0) == [] <==> Same(p, n)
  {
    V.ChangedKeysFacts(p, n, 0);
    NoMemberChanged(p, n);
  }

  lemma TickOpsShape(p: Value, n: Value, h: Option<Value>)
    requires WellFormed(p) && WellFormed(n) && p.Obj? && n.Obj?
    ensures Ordered(n.keys, n.vals) && V.AreKeys(n, V.ChangedKeys(p, n, 0))
    ensures
      var deleted, changed := Deleted(p.keys, n.vals), V.ChangedKeys(p, n, 0);
      DeltaOps(Some(p), n, h) ==
        if deleted == [] && changed == [] then [Byte(DELTA_SAME)]
        else
          [Byte(DELTA_OBJECT)]
          + ([Varuint(|deleted|)] + (TextOps(deleted) + ([Varuint(|changed|)] + V.ListedMembers(p, n, h, changed))))
  {
    hide *;
    NothingChanged(p, n);
    SomeTick(p, n);
    V.DeltaOpsShape(Some(p), n, h);
    V.ObjectOpsParts(p, n, h);
    V.ChangedCount(p, n);
    V.MembersAreListed(p, n, h, 0);
  }

  lemma SomeTick(p: Value, n: Value)
    requires WellFormed(p)
    ensures WellFormedOption(Some(p)) && (Changed(Some(p), n) <==> !Same(p, n))
  {
  }

  /** The members that differ, after the keys that disappeared. */
  method WriteTickDelta(writer: BinaryWriter, previous: Value, next: Value, before: Option<Value>,
                        previousObjects: Records, objects: Records, beforeObjects: Option<Records>,
                        ghost p: Value, ghost n: Value, ghost h: Option<Value>) returns (a: Attempt)
    requires writer.Valid() && Sound(previous, previousObjects) && Sound(next, objects) && previous.Obj? && next.Obj?
    requires before.Some? <==> beforeObjects.Some?
    requires before.Some? ==> Sound(before.value, beforeObjects.value)
    requires !FloatArrays(Arr(ValuesOf(previousObjects.objects)), Arr(ValuesOf(objects.objects)))
    requires p == FullOf(previous, previousObjects) && n == FullOf(next, objects)
    requires h == HistoryTick(before, beforeObjects) && WellFormed(n)
    modifies writer
    ensures writer.Valid()
    ensures a.Done? ==> writer.calls == old(writer.calls) + DeltaOps(Some(p), n, h)
    ensures a.Raised? ==> !Safe([], old(writer.calls) + DeltaOps(Some(p), n, h))
  {
    hide *;
    ghost var goal := writer.calls + DeltaOps(Some(p), n, h);
    SoundFull(previous, previousObjects);
    SoundFull(next, objects);
    TickOpsShape(p, n, h);
    SameDeletions(previous.keys, next.vals, n.vals);
    var records: seq<ProjectedRecord> := if beforeObjects.Some? then beforeObjects.value.objects else [];
    assert forall r: object :: r in records ==> r != writer;
    var deleted := Deleted(previous.keys, next.vals);
    var changed := FindChangedMembers(previous, next, previousObjects, objects, p, n);
    if deleted == [] && changed == [] {
      writer.Byte(DELTA_SAME);
      return Done;
    }
    a := WriteTickChanges(writer, deleted, changed, previous, next, before, previousObjects, objects, beforeObjects,
                          p, n, h, goal);
  }

  method WriteTickChanges(writer: BinaryWriter, deleted: seq<string>, changed: seq<string>, previous: Value,
                          next: Value, before: Option<Value>,
                          previousObjects: Records, objects: Records, beforeObjects: Option<Records>,
                          ghost p: Value, ghost n: Value, ghost h: Option<Value>,
                            ghost goal: seq<Op>) returns (a: Attempt)
    requires writer.Valid() && Sound(previous, previousObjects) && Sound(next, objects) && previous.Obj? && next.Obj?
    requires before.Some? <==> beforeObjects.Some?
    requires before.Some? ==> Sound(before.value, beforeObjects.value)
    requires !FloatArrays(Arr(ValuesOf(previousObjects.objects)), Arr(ValuesOf(objects.objects)))
    requires p == FullOf(previous, previousObjects) && n == FullOf(next, objects)
    requires h == HistoryTick(before, beforeObjects)
    requires WellFormed(n) && V.AreKeys(n, changed)
    requires writer.calls + ([Byte(DELTA_OBJECT)] + ([Varuint(|deleted|)] + (TextOps(deleted)
      + ([Varuint(|changed|)] + V.ListedMembers(p, n, h, changed))))) == goal
    modifies writer
    ensures writer.Valid()
    ensures a.Done? ==> writer.calls == goal
    ensures a.Raised? ==> !Safe([], goal)
  {
    hide *;
    var records: seq<ProjectedRecord> := if beforeObjects.Some? then beforeObjects.value.objects else [];
    assert forall r: object :: r in records ==> r != writer;
    a := V.WriteObjectHead(writer, deleted, |changed|, V.ListedMembers(p, n, h, changed), goal);
    if a.Raised? {
      return;
    }
    a := WriteChangedMembers(writer, changed, previous, next, before, previousObjects, objects, beforeObjects, p, n,
                             h, goal);
  }

  /** A tick with a placeholder that is not empty is refused; every other tick makes the calls
      the generic writer makes for the tick with its records put back. */
  method WriteTick(writer: BinaryWriter, previous: Option<Value>, next: Value, before: Option<Value>,
                   previousObjects: Option<Records>, objects: Records, beforeObjects: Option<Records>,
                   ghost p: Option<Value>, ghost h: Option<Value>) returns (a: Attempt)
    requires writer.Valid() && WellFormed(next) && WellFormedView(ViewOf(objects))
    requires previous.Some? <==> previousObjects.Some?
    requires before.Some? <==> beforeObjects.Some?
    requires previous.Some? ==> Sound(previous.value, previousObjects.value) && previous.value.Obj?
    requires before.Some? ==> Sound(before.value, beforeObjects.value)
    requires previous.Some? ==>
      !FloatArrays(Arr(ValuesOf(previousObjects.value.objects)), Arr(ValuesOf(objects.objects)))
    requires p == (if previous.Some? then Some(FullOf(previous.value, previousObjects.value)) else None)
    requires h == HistoryTick(before, beforeObjects)
    modifies writer
    ensures writer.Valid()
    ensures !Fits(next, objects.spawns.Some?) ==> a.Raised? && writer.calls == old(writer.calls)
    ensures Fits(next, objects.spawns.Some?) ==>
      && next.Obj? && WellFormed(FullOf(next, objects))
      && (a.Done? ==> writer.calls == old(writer.calls) + TickGoal(p, FullOf(next, objects), h))
      && (a.Raised? ==> !Safe([], old(writer.calls) + TickGoal(p, FullOf(next, objects), h)))
  {
    hide *;
    FitsParts(next, objects);
    if !Fits(next, objects.spawns.Some?) {
      return Raised;
    }
    SoundFull(next, objects);
    ghost var n := FullOf(next, objects);
    TickGoalParts(p, n, h);
    if previous.None? {
      a := WriteFirst(writer, next, objects);
    } else {
      a := WriteTickDelta(writer, previous.value, next, before, previousObjects.value, objects, beforeObjects,
                          p.value, n, h);
    }
  }

  lemma TickGoalParts(previous: Option<Value>, full: Value, before: Option<Value>)
    requires WellFormed(full)
    ensures TickGoal(previous, full, before) == if previous.None? then ValueOps(full)
      else DeltaOps(previous, full, before)
  {
  }
}
