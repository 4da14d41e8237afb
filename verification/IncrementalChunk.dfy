/** The chunk that grows tick by tick: every tick is written, read back at once and compared with
    its source, skipping the comparison of records and decoded nodes shared with the tick before. */
module IncrementalChunk {
  import opened Base
  import opened Floats
  import opened Values
  import opened Wire
  import opened Delta
  import opened Decode
  import opened ValueRoundTrip
  import opened DeltaRoundTrip
  import C = ChunkRoundTrip
  import opened Buffers
  import opened ObjectState
  import V = ViewerWriter
  import O = OrderedDelta

  // ----- the comparison with skipped nodes -----

  /** Which nodes the decoder handed back by reference from the tick before: entries of the
      object list, and the spawn list. */
  datatype Sharing = Sharing(objects: set<nat>, spawns: bool)

  /** A shared node is the same immutable node, so its contents are those of the tick before. */
  predicate SoundSharing(sharing: Sharing, previous: Option<Value>, decoded: Value) {
    && (sharing.spawns ==>
          && Member(previous, "spawns").Some?
          && Member(Some(decoded), "spawns") == Member(previous, "spawns"))
    && forall i :: i in sharing.objects ==>
      && Element(Member(previous, "objects"), i).Some?
      && Element(Member(Some(decoded), "objects"), i) == Element(Member(previous, "objects"), i)
  }

  function ObjectsOf(records: Option<Records>): seq<ProjectedRecord> {
    if records.Some? then records.value.objects else []
  }

  /** The record was already in place a tick earlier, and so was its decoded node. */
  predicate Reused(i: nat, record: ProjectedRecord, previousObjects: Option<Records>, sharing: Sharing) {
    i < |ObjectsOf(previousObjects)| && ObjectsOf(previousObjects)[i] == record && i in sharing.objects
  }

  predicate SpawnsReused(spawns: ProjectedSpawns, previousObjects: Option<Records>, sharing: Sharing) {
    previousObjects.Some? && previousObjects.value.spawns == Some(spawns) && sharing.spawns
  }

  predicate ExactMember(key: string, value: Value, objects: Records, decoded: Value, previousObjects: Option<Records>,
                        sharing: Sharing)
    reads objects.objects
    requires WellFormed(value) && WellFormed(decoded) && WellFormedView(ViewOf(objects))
  {
    if key == "spawns" && objects.spawns.Some? then
      SpawnsReused(objects.spawns.value, previousObjects, sharing) || O.SlotSame(objects.spawns.value.value, decoded)
    else if key != "objects" then O.SlotSame(value, decoded)
    else
      && decoded.Arr?
      && |decoded.items| == |objects.objects|
      && forall i :: 0 <= i < |objects.objects| ==>
        (ObjectWellFormed(objects, i);
         Reused(i, objects.objects[i], previousObjects, sharing)
           || O.SlotSame(objects.objects[i].value, decoded.items[i]))
  }

  lemma ObjectsParts(records: Option<Records>)
    ensures ObjectsOf(records) == if records.Some? then records.value.objects else []
  {
  }

  lemma ObjectWellFormed(objects: Records, i: nat)
    requires i < |objects.objects| && WellFormedView(ViewOf(objects))
    ensures WellFormed(objects.objects[i].value)
  {
    assert ViewOf(objects).objects[i] == objects.objects[i].value;
  }

  /** The decoded tick against the source tick and its records. */
  predicate ExactTick(source: Value, objects: Records, decoded: Value, previousObjects: Option<Records>,
                      sharing: Sharing)
    reads objects.objects
    requires WellFormed(source) && WellFormed(decoded) && WellFormedView(ViewOf(objects))
  {
    && source.Obj? && decoded.Obj?
    && |source.keys| == |decoded.keys|
    && forall i :: 0 <= i < |source.keys| ==>
      (O.KeyAt(source, i);
       source.keys[i] in decoded.vals
       && ExactMember(source.keys[i], source.vals[source.keys[i]], objects, decoded.vals[source.keys[i]],
                      previousObjects, sharing))
  }

  /** The tick before was accepted: its records, put back, equal what was decoded. */
  ghost predicate PriorExact(previousTick: Value, previousObjects: Option<Records>, previousDecoded: Option<Value>)
    reads ObjectsOf(previousObjects)
  {
    previousObjects.Some? ==>
      && Sound(previousTick, previousObjects.value)
      && previousTick.Obj?
      && previousDecoded.Some?
      && Same(FullOf(previousTick, previousObjects.value), previousDecoded.value)
  }

  lemma PriorObject(previousTick: Value, previousObjects: Option<Records>, previousDecoded: Option<Value>, i: nat)
    requires PriorExact(previousTick, previousObjects, previousDecoded) && i < |ObjectsOf(previousObjects)|
    requires Element(Member(previousDecoded, "objects"), i).Some?
    ensures Same(ObjectsOf(previousObjects)[i].value, Element(Member(previousDecoded, "objects"), i).value)
  {
    var objects := previousObjects.value;
    SoundFull(previousTick, objects);
    var full := FullOf(previousTick, objects);
    hide Sound, WellFormed, WellFormedView;
    assert Same(full.vals["objects"], previousDecoded.value.vals["objects"]);
    assert full.vals["objects"].items[i] == objects.objects[i].value;
  }

  lemma PriorSpawns(previousTick: Value, previousObjects: Option<Records>, previousDecoded: Option<Value>)
    requires PriorExact(previousTick, previousObjects, previousDecoded)
    requires previousObjects.Some? && previousObjects.value.spawns.Some? && Member(previousDecoded, "spawns").Some?
    ensures Same(previousObjects.value.spawns.value.value, Member(previousDecoded, "spawns").value)
  {
    SoundFull(previousTick, previousObjects.value);
    SpawnsPresent(previousTick, previousObjects.value);
    var full := FullOf(previousTick, previousObjects.value);
    hide Sound, WellFormed, WellFormedView, Fits;
    assert "spawns" in full.vals;
    assert Same(full.vals["spawns"], previousDecoded.value.vals["spawns"]);
  }

  /** Comparing one member decides its equality, skipped nodes included. */
  lemma ExactMemberIsSame(key: string, source: Value, objects: Records, decoded: Value, previousTick: Value,
                          previousObjects: Option<Records>, previousDecoded: Option<Value>, sharing: Sharing)
    requires Sound(source, objects) && source.Obj? && key in source.vals && decoded.Obj? && WellFormed(decoded)
    requires key in decoded.vals
    requires PriorExact(previousTick, previousObjects, previousDecoded)
    requires SoundSharing(sharing, previousDecoded, decoded)
    ensures WellFormed(source.vals[key]) && WellFormed(decoded.vals[key]) && key in FullOf(source, objects).vals
    ensures ExactMember(key, source.vals[key], objects, decoded.vals[key], previousObjects, sharing)
      <==> Same(FullOf(source, objects).vals[key], decoded.vals[key])
  {
    SoundFull(source, objects);
    var d := decoded.vals[key];
    assert WellFormed(d);
    hide PriorExact;
    if key == "spawns" && objects.spawns.Some? {
      O.SlotSameIsSame(objects.spawns.value.value, d);
      if SpawnsReused(objects.spawns.value, previousObjects, sharing) {
        PriorSpawns(previousTick, previousObjects, previousDecoded);
      }
    } else if key != "objects" {
      O.SlotSameIsSame(source.vals[key], d);
    } else if d.Arr? && |d.items| == |objects.objects| {
      forall i | 0 <= i < |objects.objects|
        ensures WellFormed(objects.objects[i].value) && WellFormed(d.items[i])
        ensures
          (Reused(i, objects.objects[i], previousObjects, sharing) || O.SlotSame(objects.objects[i].value, d.items[i]))
          <==> Same(objects.objects[i].value, d.items[i])
      {
        ExactRecordIsSame(i, objects, decoded, previousTick, previousObjects, previousDecoded, sharing);
      }
      ListSame(ValuesOf(objects.objects), d);
    }
  }

  /** The same for one record of the list. */
  lemma ExactRecordIsSame(i: nat, objects: Records, decoded: Value, previousTick: Value,
                          previousObjects: Option<Records>, previousDecoded: Option<Value>, sharing: Sharing)
    requires WellFormedView(ViewOf(objects)) && i < |objects.objects| && decoded.Obj? && WellFormed(decoded)
    requires "objects" in decoded.vals && decoded.vals["objects"].Arr? && i < |decoded.vals["objects"].items|
    requires PriorExact(previousTick, previousObjects, previousDecoded)
    requires SoundSharing(sharing, previousDecoded, decoded)
    ensures
      var record, node := objects.objects[i], decoded.vals["objects"].items[i];
      && WellFormed(record.value) && WellFormed(node)
      && ((Reused(i, record, previousObjects, sharing) || O.SlotSame(record.value, node)) <==> Same(record.value, node))
  {
    var record, node := objects.objects[i], decoded.vals["objects"].items[i];
    ObjectWellFormed(objects, i);
    assert WellFormed(decoded.vals["objects"]) && WellFormed(node);
    hide WellFormed, PriorExact, Same, WellFormedView;
    O.SlotSameIsSame(record.value, node);
    if Reused(i, record, previousObjects, sharing) {
      assert Element(Member(Some(decoded), "objects"), i) == Some(node);
      PriorObject(previousTick, previousObjects, previousDecoded, i);
    }
  }

  lemma ListSame(values: seq<Value>, decoded: Value)
    requires decoded.Arr?
    ensures Same(Arr(values), decoded) <==>
      |values| == |decoded.items| && forall i :: 0 <= i < |values| ==> Same(values[i], decoded.items[i])
  {
  }

  lemma MembersCover(full: Value, decoded: Value)
    requires WellFormed(full) && WellFormed(decoded) && full.Obj? && decoded.Obj?
    ensures Same(full, decoded) <==>
      |full.keys| == |decoded.keys| && forall i :: 0 <= i < |full.keys| ==>
        full.keys[i] in full.vals && full.keys[i] in decoded.vals
          && Same(full.vals[full.keys[i]], decoded.vals[full.keys[i]])
  {
    forall i | 0 <= i < |full.keys| ensures full.keys[i] in full.vals {
      O.KeyAt(full, i);
    }
    if Same(full, decoded) {
      O.KeyCounts(full, decoded);
    }
    if |full.keys| == |decoded.keys| && forall i :: 0 <= i < |full.keys| ==>
         full.keys[i] in decoded.vals && Same(full.vals[full.keys[i]], decoded.vals[full.keys[i]]) {
      O.SameKeys(full, decoded);
      forall k | k in full.vals ensures Same(full.vals[k], decoded.vals[k]) {
        assert k in full.keys;
        var i :| 0 <= i < |full.keys| && full.keys[i] == k;
      }
    }
  }

  /** The comparison accepts exactly the decoded ticks equal to the source with its records put
      back, although it looks at no record and node pair shared with the accepted tick before. */
  lemma ExactTickIsSame(source: Value, objects: Records, decoded: Value, previousTick: Value,
                        previousObjects: Option<Records>, previousDecoded: Option<Value>, sharing: Sharing)
    requires Sound(source, objects) && source.Obj? && WellFormed(decoded)
    requires PriorExact(previousTick, previousObjects, previousDecoded)
    requires SoundSharing(sharing, previousDecoded, decoded)
    ensures ExactTick(source, objects, decoded, previousObjects, sharing) <==> Same(FullOf(source, objects), decoded)
  {
    SoundFull(source, objects);
    var full := FullOf(source, objects);
    hide Sound, WellFormed, WellFormedView, PriorExact, SoundSharing, ExactMember, Same, FullOf;
    if decoded.Obj? {
      MembersCover(full, decoded);
      forall i | 0 <= i < |source.keys| && source.keys[i] in decoded.vals
        ensures
          var key := source.keys[i];
          && key in source.vals && key in full.vals
          && (ExactMember(key, source.vals[key], objects, decoded.vals[key], previousObjects, sharing) <==>
              Same(full.vals[key], decoded.vals[key]))
      {
        O.KeyAt(source, i);
        ExactMemberIsSame(source.keys[i], source, objects, decoded, previousTick, previousObjects, previousDecoded,
                          sharing);
      }
    }
  }

  // ----- reading a tick back -----

  function ReadTick(r: Reader, decoded: Option<Value>, decodedBefore: Option<Value>): Result<(Value, Reader)> {
    if decoded.None? then ReadValue(NATIVE.room, r) else ReadDelta(NATIVE, r, decoded, decodedBefore)
  }

  predicate TickReadable(previous: Option<Value>, full: Value, before: Option<Value>) {
    Readable(NATIVE, previous, full, before)
  }

  /** Reading the bytes of one written tick, alone and with the strings collected so far. */
  lemma TickReadBack(previous: Option<Value>, full: Value, before: Option<Value>, decoded: Option<Value>,
                     decodedBefore: Option<Value>, table: seq<string>)
    requires WellFormed(full) && Synced(previous, before, decoded, decodedBefore)
    requires Safe(table, TickGoal(previous, full, before))
    ensures
      var ops := TickGoal(previous, full, before);
      Outcome(TickReadable(previous, full, before), full, ReadTick(At(table, ops), decoded, decodedBefore),
              At(Table(table, ops), []))
  {
    hide *;
    TickGoalParts(previous, full, before);
    TickReadableParts(previous, full, before);
    SyncedOption(previous, before, decoded, decodedBefore);
    var ops := TickGoal(previous, full, before);
    assert ops + [] == ops;
    ReadTickParts(At(table, ops), decoded, decodedBefore);
    if previous.None? {
      ReadWrittenValue(NATIVE.room, full, table, []);
      SameReflexive(full);
      BackOutcome(FitsRoom(NATIVE.room, full), full, ReadValue(NATIVE.room, At(table, ops)), At(Table(table, ops), []));
    } else {
      ReadWrittenDelta(NATIVE, previous, full, before, decoded, decodedBefore, table, []);
    }
  }

  lemma ReadTickParts(r: Reader, decoded: Option<Value>, decodedBefore: Option<Value>)
    ensures ReadTick(r, decoded, decodedBefore) == if decoded.None? then ReadValue(NATIVE.room, r)
      else ReadDelta(NATIVE, r, decoded, decodedBefore)
  {
  }

  lemma TickReadableParts(previous: Option<Value>, full: Value, before: Option<Value>)
    ensures TickReadable(previous, full, before) <==>
      if previous.None? then FitsRoom(NATIVE.room, full) else Readable(NATIVE, previous, full, before)
  {
    hide FloatsRefused, NumberRefused;
  }

  // ----- the calls of a growing chunk -----

  function Header(first: nat, count: nat): seq<Op> {
    [Raw(CHUNK_MAGIC), Byte(CHUNK_VERSION), Varuint(first), Varuint(count)]
  }

  ghost function ChunkSoFar(first: nat, count: nat, ticks: seq<Value>): seq<Op>
    requires AllWellFormed(ticks)
  {
    Header(first, count) + if ticks == [] then [] else ValueOps(ticks[0]) + TickOps(ticks, 1)
  }

  function Latest(ticks: seq<Value>, n: nat): Option<Value>
    requires n > 0
  {
    if n <= |ticks| then Some(ticks[|ticks| - n]) else None
  }

  lemma {:induction false} TickOpsGrow(ticks: seq<Value>, next: Value, i: nat)
    requires 1 <= i <= |ticks| && AllWellFormed(ticks) && WellFormed(next)
    ensures AllWellFormed(ticks + [next])
    ensures TickOps(ticks + [next], i) == TickOps(ticks, i) + DeltaOps(Latest(ticks, 1), next, Latest(ticks, 2))
    decreases |ticks| - i
  {
    hide DeltaOps, TickOps, WellFormed;
    var longer := ticks + [next];
    var step := DeltaOps(Latest(ticks, 1), next, Latest(ticks, 2));
    if i == |ticks| {
      TickOpsAt(longer, i);
      TickOpsAt(longer, i + 1);
      TickOpsAt(ticks, i);
      assert step + [] == [] + step;
    } else {
      TickOpsGrow(ticks, next, i + 1);
      TickOpsAt(longer, i);
      TickOpsAt(ticks, i);
      var head := DeltaOps(Some(ticks[i - 1]), ticks[i], if i > 1 then Some(ticks[i - 2]) else None);
      assert head + (TickOps(ticks, i + 1) + step) == head + TickOps(ticks, i + 1) + step;
    }
  }

  lemma TickOpsAt(ticks: seq<Value>, i: nat)
    requires 1 <= i <= |ticks| && AllWellFormed(ticks)
    ensures i == |ticks| ==> TickOps(ticks, i) == []
    ensures i < |ticks| ==>
      TickOps(ticks, i) == DeltaOps(Some(ticks[i - 1]), ticks[i], if i > 1 then Some(ticks[i - 2]) else None)
      + TickOps(ticks, i + 1)
  {
  }

  /** One further tick adds exactly its goal. */
  lemma ChunkGrows(first: nat, count: nat, ticks: seq<Value>, next: Value)
    requires AllWellFormed(ticks) && WellFormed(next)
    ensures AllWellFormed(ticks + [next])
    ensures ChunkSoFar(first, count, ticks + [next])
      == ChunkSoFar(first, count, ticks) + TickGoal(Latest(ticks, 1), next, Latest(ticks, 2))
  {
    hide ValueOps, DeltaOps, TickOps;
    if ticks == [] {
      assert [] + [next] == [next];
      TickOpsAt([next], 1);
      assert Header(first, count) + (ValueOps(next) + []) == Header(first, count) + [] + ValueOps(next);
    } else {
      TickOpsGrow(ticks, next, 1);
      var head, tail, step := ValueOps(ticks[0]), TickOps(ticks, 1), DeltaOps(Latest(ticks, 1), next, Latest(ticks, 2));
      assert (ticks + [next])[0] == ticks[0];
      assert Header(first, count) + (head + (tail + step)) == Header(first, count) + (head + tail) + step;
    }
  }

  lemma ChunkComplete(first: nat, ticks: seq<Value>)
    requires AllWellFormed(ticks) && ticks != []
    ensures ChunkSoFar(first, |ticks|, ticks) == ChunkOps(ticks, first)
  {
  }

  // ----- the chunk -----

  const RAW_LIMIT: nat := 64 * 1024 * 1024

  /** A tick as one value: itself, or with its records put back. */
  ghost function Whole(tick: Value, records: Option<Records>): Value
    reads ObjectsOf(records)
  {
    if records.Some? && tick.Obj? then FullOf(tick, records.value) else tick
  }

  ghost predicate WholeSound(tick: Value, records: Option<Records>)
    reads ObjectsOf(records)
  {
    WellFormed(tick) && (records.Some? ==> Sound(tick, records.value) && tick.Obj?)
  }

  ghost predicate WholeSoundOption(tick: Option<Value>, records: Option<Records>)
    reads ObjectsOf(records)
  {
    if tick.Some? then WholeSound(tick.value, records) else records.None?
  }

  ghost function WholeOption(tick: Option<Value>, records: Option<Records>): Option<Value>
    reads ObjectsOf(records)
  {
    if tick.Some? then Some(Whole(tick.value, records)) else None
  }

  class Chunk {
    const binary: BinaryWriter
    const first: nat
    const count: nat
    var previous: Option<Value>
    var beforePrevious: Option<Value>
    var decoded: Option<Value>
    var decodedBefore: Option<Value>
    var decodedStrings: seq<string>
    var objectsPrevious: Option<Records>
    var objectsBefore: Option<Records>
    /** Every accepted tick with its records put back. */
    ghost var ticks: seq<Value>

    ghost predicate Valid()
      reads this, binary, ObjectsOf(objectsPrevious), ObjectsOf(objectsBefore)
    {
      && binary.Valid()
      && AllWellFormed(ticks)
      && binary.calls == ChunkSoFar(first, count, ticks)
      && decodedStrings == Table([], binary.calls)
      && WholeSoundOption(previous, objectsPrevious)
      && WholeSoundOption(beforePrevious, objectsBefore)
      && WholeOption(previous, objectsPrevious) == Latest(ticks, 1)
      && WholeOption(beforePrevious, objectsBefore) == Latest(ticks, 2)
      && (beforePrevious.Some? ==> (objectsBefore.Some? <==> objectsPrevious.Some?))
      && Synced(Latest(ticks, 1), Latest(ticks, 2), decoded, decodedBefore)
      && C.ChunkReadable(NATIVE, ticks, 0)
    }

    constructor (binary: BinaryWriter, first: nat, count: nat)
      requires binary.Valid() && binary.calls == Header(first, count)
      ensures Valid() && this.binary == binary && this.first == first && this.count == count && ticks == []
    {
      this.binary, this.first, this.count := binary, first, count;
      previous, beforePrevious, decoded, decodedBefore := None, None, None, None;
      decodedStrings := [];
      objectsPrevious, objectsBefore := None, None;
      ticks := [];
      new;
      HeaderTable(first, count);
    }

    /** When a tick is accepted, in terms of the tick with its records put back. */
    ghost predicate Acceptable(next: Value, objects: Option<Records>)
      reads this, binary, ObjectsOf(objects)
    {
      var full := Whole(next, objects);
      && (previous.Some? ==> (objects.Some? <==> objectsPrevious.Some?))
      && (objects.Some? ==> Fits(next, objects.value.spawns.Some?))
      && WellFormed(full)
      && Safe([], binary.calls + TickGoal(Latest(ticks, 1), full, Latest(ticks, 2)))
      && |Emit([], binary.calls + TickGoal(Latest(ticks, 1), full, Latest(ticks, 2)))| <= 67_108_864
      && TickReadable(Latest(ticks, 1), full, Latest(ticks, 2))
    }

    /** The writer for the kind of tick at hand. */
    method WriteState(next: Value, objects: Option<Records>, ghost full: Value, ghost p: Option<Value>,
                      ghost h: Option<Value>) returns (a: Attempt)
      requires Valid() && WellFormed(next) && (objects.Some? ==> WellFormedView(ViewOf(objects.value)))
      requires full == Whole(next, objects) && p == Latest(ticks, 1) && h == Latest(ticks, 2)
      requires previous.Some? ==> (objects.Some? <==> objectsPrevious.Some?)
      requires previous.Some? && objects.Some? ==>
        !FloatArrays(Arr(ValuesOf(objectsPrevious.value.objects)), Arr(ValuesOf(objects.value.objects)))
      modifies binary
      ensures binary.Valid()
      ensures objects.Some? && !Fits(next, objects.value.spawns.Some?) ==> a.Raised?
      ensures (objects.Some? ==> Fits(next, objects.value.spawns.Some?)) ==>
        && WellFormed(full)
        && (a.Done? ==> binary.calls == old(binary.calls) + TickGoal(p, full, h))
        && (a.Raised? ==> !Safe([], old(binary.calls) + TickGoal(p, full, h)))
    {
      hide *;
      ValidParts();
      WholeParts(next, objects);
      if objects.Some? {
        FitsParts(next, objects.value);
        a := WriteTick(binary, previous, next, beforePrevious, objectsPrevious, objects.value, objectsBefore, p, h);
      } else {
        TickGoalParts(p, next, h);
        if previous.None? {
          a := V.WriteValue(binary, next);
        } else {
          V.SomeWellFormed(previous);
          a := O.Write(binary, previous, next, beforePrevious);
        }
      }
    }

    /** Reads the new bytes back and compares them with their source; none when either fails. */
    method VerifyState(offset: nat, next: Value, objects: Option<Records>, shared: (Option<Value>, Value) -> Sharing,
                       ghost full: Value, ghost prior: Value, ghost before: seq<Op>, ghost p: Option<Value>,
                         ghost h: Option<Value>)
      returns (res: Option<(Value, seq<string>)>)
      requires forall p: Option<Value>, d: Value :: SoundSharing(shared(p, d), p, d)
      requires binary.Valid()
      requires offset <= |binary.bytes| && offset == |Emit([], before)| && Safe([], before)
      requires WellFormed(next) && (objects.Some? ==> WellFormedView(ViewOf(objects.value)))
      requires WholeSound(next, objects) && full == Whole(next, objects) && WellFormed(full)
      requires binary.calls == before + TickGoal(p, full, h)
      requires decodedStrings == Table([], before)
      requires Synced(p, h, decoded, decodedBefore)
      requires PriorExact(prior, objectsPrevious, decoded)
      ensures res.Some? <==> TickReadable(p, full, h)
      ensures res.Some? ==> Same(full, res.value.0) && WellFormed(res.value.0) && res.value.1 == Table([], binary.calls)
    {
      hide *;
      TailReader(before, TickGoal(p, full, h), offset, binary);
      TickReadBack(p, full, h, decoded, decodedBefore, decodedStrings);
      var read := ReadTick(Reader(binary.bytes[offset..], decodedStrings), decoded, decodedBefore);
      OutcomeParts(TickReadable(p, full, h), full, read, At(Table([], binary.calls), []));
      if read.Err? {
        return None;
      }
      var (tick, rest) := read.value;
      NothingLeft(Table([], binary.calls));
      WholeParts(next, objects);
      var exact;
      if objects.Some? {
        ExactTickIsSame(next, objects.value, tick, prior, objectsPrevious, decoded, shared(decoded, tick));
        exact := ExactTick(next, objects.value, tick, objectsPrevious, shared(decoded, tick));
      } else {
        O.SlotSameIsSame(next, tick);
        exact := O.SlotSame(next, tick);
      }
      if rest.bytes != [] || !exact {
        return None;
      }
      return Some((tick, rest.strings));
    }

    /** Writes the tick, reads it back, and rotates the history; hands back the oldest tick. */
    method PushState(next: Value, objects: Option<Records>, shared: (Option<Value>, Value) -> Sharing)
      returns (ok: bool, spare: Option<Value>)
      requires Valid() && WellFormed(next) && (objects.Some? ==> WellFormedView(ViewOf(objects.value)))
      requires previous.Some? && objectsPrevious.Some? && objects.Some? ==>
        !FloatArrays(Arr(ValuesOf(objectsPrevious.value.objects)), Arr(ValuesOf(objects.value.objects)))
      requires forall p: Option<Value>, d: Value :: SoundSharing(shared(p, d), p, d)
      modifies this, binary
      ensures ok <==> old(Acceptable(next, objects))
      ensures ok ==> Valid() && ticks == old(ticks) + [Whole(next, objects)] && spare == old(beforePrevious)
      ensures ok ==> decoded.Some? && Same(Whole(next, objects), decoded.value)
    {
      hide *;
      ValidParts();
      HeldParts();
      AcceptableParts(next, objects);
      WholeParts(next, objects);
      ghost var full, p, h, before := Whole(next, objects), Latest(ticks, 1), Latest(ticks, 2), binary.calls;
      ghost var prior := if previous.Some? then previous.value else Null;
      ghost var r0 := if objects.Some? then objects.value.objects else [];
      ghost var r1 := if objectsPrevious.Some? then objectsPrevious.value.objects else [];
      assert r0 == ObjectsOf(objects) && r1 == ObjectsOf(objectsPrevious) by {
        ObjectsParts(objects);
        ObjectsParts(objectsPrevious);
      }
      assert forall r: object :: r in r0 || r in r1 ==> r != binary && r != this;
      spare := beforePrevious;
      if previous.Some? && objects.Some? != objectsPrevious.Some? {
        return false, spare;
      }
      if objects.Some? {
        FitsParts(next, objects.value);
      }
      PriorIsExact(prior);
      var offset := |binary.bytes|;
      CallsBytes(binary);
      var a := WriteState(next, objects, full, p, h);
      if a.Raised? {
        return false, spare;
      }
      CallsBytes(binary);
      if |binary.bytes| > RAW_LIMIT {
        return false, spare;
      }
      OffsetInside(binary, before, TickGoal(p, full, h));
      var verified := VerifyState(offset, next, objects, shared, full, prior, before, p, h);
      if verified.None? {
        return false, spare;
      }
      ChunkGrows(first, count, ticks, full);
      BackGrows(ticks, full);
      ReadableGrows(ticks, full);
      SyncedNext(p, h, decoded, decodedBefore, full, verified.value.0);
      Rotate(next, objects, verified.value.0, verified.value.1, full);
      HeldIntro();
      ValidIntro();
      return true, spare;
    }

    /** A chunk that received as many ticks as its header announces is the encoded chunk of those
        ticks, and the native reader decodes it to them, as does the guarded one. */
    lemma Complete()
      requires Valid() && ticks != [] && |ticks| == count
      ensures AllWellFormed(ticks) && EncodeChunk(ticks, first) == Ok(binary.bytes)
      ensures C.DecodedChunk(ticks, first, DecodeChunk(NATIVE, binary.bytes))
      ensures C.DecodedChunk(ticks, first, DecodeChunk(GUARDED, binary.bytes))
    {
      ChunkComplete(first, ticks);
      EncodedFrom(ticks, first, binary);
      hide *;
      ValidParts();
      C.DecodeOfEncode(NATIVE, ticks, first);
      C.GuardedRoundTrip(ticks, first);
    }

    method Rotate(next: Value, objects: Option<Records>, tick: Value, strings: seq<string>, ghost full: Value)
      modifies this
      ensures previous == Some(next) && beforePrevious == old(previous)
      ensures decoded == Some(tick) && decodedBefore == old(decoded) && decodedStrings == strings
      ensures objectsPrevious == objects && objectsBefore == old(objectsPrevious)
      ensures ticks == old(ticks) + [full]
    {
      decodedBefore := decoded;
      decoded := Some(tick);
      decodedStrings := strings;
      beforePrevious := previous;
      previous := Some(next);
      objectsBefore := objectsPrevious;
      objectsPrevious := objects;
      ticks := ticks + [full];
    }

    lemma AcceptableParts(next: Value, objects: Option<Records>)
      ensures
        var full := Whole(next, objects);
        Acceptable(next, objects) <==>
          && (previous.Some? ==> (objects.Some? <==> objectsPrevious.Some?))
          && (objects.Some? ==> Fits(next, objects.value.spawns.Some?))
          && WellFormed(full)
          && Safe([], binary.calls + TickGoal(Latest(ticks, 1), full, Latest(ticks, 2)))
          && |Emit([], binary.calls + TickGoal(Latest(ticks, 1), full, Latest(ticks, 2)))| <= RAW_LIMIT
          && TickReadable(Latest(ticks, 1), full, Latest(ticks, 2))
    {
    }

    lemma PriorIsExact(prior: Value)
      requires Valid() && prior == (if previous.Some? then previous.value else Null)
      ensures PriorExact(prior, objectsPrevious, decoded)
    {
    }

    /** The history, as the ticks it stands for. */
    ghost predicate Held()
      reads this, ObjectsOf(objectsPrevious), ObjectsOf(objectsBefore)
    {
      && WholeSoundOption(previous, objectsPrevious)
      && WholeSoundOption(beforePrevious, objectsBefore)
      && WholeOption(previous, objectsPrevious) == Latest(ticks, 1)
      && WholeOption(beforePrevious, objectsBefore) == Latest(ticks, 2)
    }

    lemma HeldParts()
      requires Valid()
      ensures previous.Some? ==>
        WholeSound(previous.value, objectsPrevious) && Latest(ticks, 1) == Some(Whole(previous.value, objectsPrevious))
      ensures previous.None? ==> objectsPrevious.None? && Latest(ticks, 1) == None
    {
    }

    lemma HeldIntro()
      requires previous.Some? && WholeSound(previous.value, objectsPrevious)
      requires Latest(ticks, 1) == Some(Whole(previous.value, objectsPrevious))
      requires if beforePrevious.Some? then
        WholeSound(beforePrevious.value, objectsBefore)
          && Latest(ticks, 2) == Some(Whole(beforePrevious.value, objectsBefore))
        else objectsBefore.None? && Latest(ticks, 2) == None
      ensures Held()
    {
    }

    lemma ValidIntro()
      requires Held() && binary.Valid() && AllWellFormed(ticks) && binary.calls == ChunkSoFar(first, count, ticks)
      requires decodedStrings == Table([], binary.calls)
      requires beforePrevious.Some? ==> (objectsBefore.Some? <==> objectsPrevious.Some?)
      requires Synced(Latest(ticks, 1), Latest(ticks, 2), decoded, decodedBefore)
      requires C.ChunkReadable(NATIVE, ticks, 0)
      ensures Valid()
    {
    }

    lemma ValidParts()
      requires Valid()
      ensures binary.Valid() && AllWellFormed(ticks) && binary.calls == ChunkSoFar(first, count, ticks)
      ensures decodedStrings == Table([], binary.calls)
      ensures Synced(Latest(ticks, 1), Latest(ticks, 2), decoded, decodedBefore) && C.ChunkReadable(NATIVE, ticks, 0)
      ensures previous.Some? <==> Latest(ticks, 1).Some?
      ensures previous.None? ==> objectsPrevious.None? && beforePrevious.None?
      ensures beforePrevious.None? ==> objectsBefore.None?
      ensures beforePrevious.Some? ==> (objectsBefore.Some? <==> objectsPrevious.Some?)
      ensures previous.Some? && objectsPrevious.Some? ==>
        && Sound(previous.value, objectsPrevious.value) && previous.value.Obj?
        && Latest(ticks, 1) == Some(FullOf(previous.value, objectsPrevious.value))
      ensures objectsPrevious.Some? || previous.None? ==> Latest(ticks, 2) == HistoryTick(beforePrevious, objectsBefore)
      ensures beforePrevious.Some? && objectsBefore.Some? ==> Sound(beforePrevious.value, objectsBefore.value)
      ensures objectsPrevious.None? ==>
        Latest(ticks, 1) == previous && Latest(ticks, 2) == beforePrevious && WellFormedOption(previous)
    {
    }
  }

  /** The bytes behind the offset are those of the last goal. */
  lemma TailReader(before: seq<Op>, goal: seq<Op>, offset: nat, writer: BinaryWriter)
    requires writer.Valid() && writer.calls == before + goal && offset == |Emit([], before)|
    ensures offset <= |writer.bytes|
    ensures Reader(writer.bytes[offset..], Table([], before)) == At(Table([], before), goal)
    ensures Safe(Table([], before), goal)
    ensures Table([], writer.calls) == Table(Table([], before), goal)
  {
    Append([], before, goal);
  }

  lemma ReadableGrows(ticks: seq<Value>, next: Value)
    requires C.ChunkReadable(NATIVE, ticks, 0) && TickReadable(Latest(ticks, 1), next, Latest(ticks, 2))
    ensures C.ChunkReadable(NATIVE, ticks + [next], 0)
  {
    hide Readable;
    var longer := ticks + [next];
    forall j | 0 <= j < |longer|
      ensures Readable(NATIVE, C.Previous(longer, j, 1), longer[j], C.Previous(longer, j, 2)) {
      if j < |ticks| {
        assert Readable(NATIVE, C.Previous(ticks, j, 1), ticks[j], C.Previous(ticks, j, 2));
        assert C.Previous(longer, j, 1) == C.Previous(ticks, j, 1)
          && C.Previous(longer, j, 2) == C.Previous(ticks, j, 2);
      } else {
        assert C.Previous(longer, j, 1) == Latest(ticks, 1) && C.Previous(longer, j, 2) == Latest(ticks, 2);
      }
    }
  }

  lemma EncodedFrom(ticks: seq<Value>, first: nat, writer: BinaryWriter)
    requires AllWellFormed(ticks) && ticks != [] && writer.Valid() && writer.calls == ChunkOps(ticks, first)
    ensures EncodeChunk(ticks, first) == Ok(writer.bytes)
  {
  }

  /** A new chunk starts with its header; counts beyond the safe range are refused. */
  method NewChunk(first: nat, count: nat) returns (res: Option<Chunk>)
    ensures res.Some? <==> first <= 9_007_199_254_740_991 && count <= 9_007_199_254_740_991
    ensures res.Some? ==>
      && res.value.Valid() && fresh(res.value) && fresh(res.value.binary)
      && res.value.first == first && res.value.count == count && res.value.ticks == []
  {
    HeaderSafe(first, count);
    assert SAFE_INTEGER_MAX == 9_007_199_254_740_991;
    hide *;
    var writer := new BinaryWriter();
    writer.Bytes(CHUNK_MAGIC);
    writer.Byte(CHUNK_VERSION);
    var a := writer.Varuint(first);
    if a.Raised? {
      return None;
    }
    a := writer.Varuint(count);
    if a.Raised? {
      return None;
    }
    var chunk := new Chunk(writer, first, count);
    return Some(chunk);
  }

  lemma HeaderSafe(first: nat, count: nat)
    ensures [] + [Raw(CHUNK_MAGIC)] + [Op.Byte(CHUNK_VERSION)] + [Varuint(first)] + [Varuint(count)]
      == Header(first, count)
    ensures Safe([], [] + [Raw(CHUNK_MAGIC)] + [Op.Byte(CHUNK_VERSION)] + [Varuint(first)]) <==>
      first <= SAFE_INTEGER_MAX
    ensures Safe([], Header(first, count)) <==> first <= SAFE_INTEGER_MAX && count <= SAFE_INTEGER_MAX
  {
    var c := [Varuint(first)] + [Varuint(count)];
    assert Header(first, count) == [Raw(CHUNK_MAGIC)] + ([Op.Byte(CHUNK_VERSION)] + c);
    assert [] + [Raw(CHUNK_MAGIC)] + [Op.Byte(CHUNK_VERSION)] + [Varuint(first)]
      == [Raw(CHUNK_MAGIC)] + ([Op.Byte(CHUNK_VERSION)] + [Varuint(first)]);
    Front([], Raw(CHUNK_MAGIC), [Op.Byte(CHUNK_VERSION)] + c);
    Front([], Op.Byte(CHUNK_VERSION), c);
    Front([], Varuint(first), [Varuint(count)]);
    One([], Varuint(count));
    Front([], Raw(CHUNK_MAGIC), [Op.Byte(CHUNK_VERSION)] + [Varuint(first)]);
    Front([], Op.Byte(CHUNK_VERSION), [Varuint(first)]);
    One([], Varuint(first));
  }

  lemma BackGrows(ticks: seq<Value>, next: Value)
    ensures Latest(ticks + [next], 1) == Some(next) && Latest(ticks + [next], 2) == Latest(ticks, 1)
  {
  }

  lemma SyncedNext(p: Option<Value>, h: Option<Value>, p': Option<Value>, h': Option<Value>, next: Value, copy: Value)
    requires Synced(p, h, p', h') && WellFormed(next) && WellFormed(copy) && Same(next, copy)
    ensures Synced(Some(next), p, Some(copy), p')
  {
  }

  lemma CallsBytes(writer: BinaryWriter)
    requires writer.Valid()
    ensures |writer.bytes| == |Emit([], writer.calls)| && Safe([], writer.calls)
  {
  }

  lemma OffsetInside(writer: BinaryWriter, before: seq<Op>, goal: seq<Op>)
    requires writer.Valid() && writer.calls == before + goal
    ensures |Emit([], before)| <= |writer.bytes|
  {
    Append([], before, goal);
  }

  lemma NothingLeft(table: seq<string>)
    ensures At(table, []).bytes == [] && At(table, []).strings == table
  {
  }

  lemma WholeParts(tick: Value, records: Option<Records>)
    requires WellFormed(tick)
    ensures WholeSound(tick, records) <==> (records.Some? ==> Sound(tick, records.value) && tick.Obj?)
    ensures Whole(tick, records) == if records.Some? && tick.Obj? then FullOf(tick, records.value) else tick
  {
  }

  lemma HeaderTable(first: nat, count: nat)
    ensures Table([], Header(first, count)) == []
    ensures ChunkSoFar(first, count, []) == Header(first, count)
  {
    var h := Header(first, count);
    assert h == [Raw(CHUNK_MAGIC)] + ([Op.Byte(CHUNK_VERSION)] + ([Varuint(first)] + [Varuint(count)]));
    Front([], Raw(CHUNK_MAGIC), [Op.Byte(CHUNK_VERSION)] + ([Varuint(first)] + [Varuint(count)]));
    Front([], Op.Byte(CHUNK_VERSION), [Varuint(first)] + [Varuint(count)]);
    Front([], Varuint(first), [Varuint(count)]);
    One([], Varuint(count));
  }
}
