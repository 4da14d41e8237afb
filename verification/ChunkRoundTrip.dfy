/** Whole chunks: what decoding an encoded chunk returns, for each of the readers. */
module ChunkRoundTrip {
  import opened Base
  import opened Values
  import opened Wire
  import opened Delta
  import opened Decode
  import opened ValueRoundTrip
  import opened DeltaRoundTrip

  function Previous(ticks: seq<Value>, i: nat, back: nat): Option<Value>
    requires i <= |ticks| && 1 <= back
  {
    if back <= i then Some(ticks[i - back]) else None
  }

  /** Every tick from i on, the first one standing alone, meets the reader's rules. */
  predicate ChunkReadable(rules: Rules, ticks: seq<Value>, i: nat) {
    forall j :: i <= j < |ticks| ==> Readable(rules, Previous(ticks, j, 1), ticks[j], Previous(ticks, j, 2))
  }

  /** The ticks read so far are deep copies of the ticks written. */
  ghost predicate Copies(ticks: seq<Value>, copies: seq<Value>) {
    && |copies| <= |ticks|
    && forall i :: 0 <= i < |copies| ==> Same(ticks[i], copies[i]) && WellFormed(copies[i])
  }

  ghost predicate ChunkOutcome(ok: bool, ticks: seq<Value>, res: Result<(seq<Value>, Reader)>, r: Reader) {
    if ok then res.Ok? && |res.value.0| == |ticks| && Copies(ticks, res.value.0) && res.value.1 == r else res.Err?
  }

  lemma CopiesSynced(ticks: seq<Value>, copies: seq<Value>)
    requires AllWellFormed(ticks) && Copies(ticks, copies) && 0 < |copies| < |ticks|
    ensures
      var i := |copies|;
      Synced(Previous(ticks, i, 1), Previous(ticks, i, 2), Previous(copies, i, 1), Previous(copies, i, 2))
  {
  }

  lemma ReadTicksStep(rules: Rules, r: Reader, count: nat, ticks: seq<Value>)
    requires ticks != [] && count > 0
    ensures
      var res := ReadDelta(rules, r, Previous(ticks, |ticks|, 1), Previous(ticks, |ticks|, 2));
      ReadTicks(rules, r, count, ticks) ==
        if res.Err? then Err(res.failure) else ReadTicks(rules, res.value.1, count - 1, ticks + [res.value.0])
  {
  }

  lemma TickOpsCons(ticks: seq<Value>, i: nat)
    requires 1 <= i < |ticks| && AllWellFormed(ticks)
    ensures WellFormed(ticks[i])
    ensures TickOps(ticks, i)
      == DeltaOps(Previous(ticks, i, 1), ticks[i], Previous(ticks, i, 2)) + TickOps(ticks, i + 1)
  {
  }

  lemma ReadableCons(rules: Rules, ticks: seq<Value>, i: nat)
    requires i < |ticks|
    ensures ChunkReadable(rules, ticks, i) <==>
      Readable(rules, Previous(ticks, i, 1), ticks[i], Previous(ticks, i, 2)) && ChunkReadable(rules, ticks, i + 1)
  {
  }

  lemma TicksDone(rules: Rules, ticks: seq<Value>, copies: seq<Value>, table: seq<string>, more: seq<Op>)
    requires ticks != [] && AllWellFormed(ticks) && Copies(ticks, copies) && |copies| == |ticks|
    ensures
      var ops := TickOps(ticks, |ticks|);
      && ChunkReadable(rules, ticks, |ticks|)
      && ChunkOutcome(true, ticks, ReadTicks(rules, At(table, ops + more), 0, copies), At(Table(table, ops), more))
  {
    assert [] + more == more;
  }

  lemma CopiesExtended(ticks: seq<Value>, copies: seq<Value>, copy: Value)
    requires Copies(ticks, copies) && |copies| < |ticks|
    requires Same(ticks[|copies|], copy) && WellFormed(copy)
    ensures Copies(ticks, copies + [copy])
  {
  }

  lemma ChunkOutcomeFails(ticks: seq<Value>, res: Result<(seq<Value>, Reader)>, r: Reader)
    requires res.Err?
    ensures ChunkOutcome(false, ticks, res, r)
  {
  }

  lemma {:induction false} ReadWrittenTicks(rules: Rules, ticks: seq<Value>, copies: seq<Value>, table: seq<string>,
                                            more: seq<Op>)
    requires AllWellFormed(ticks) && Copies(ticks, copies) && 1 <= |copies| <= |ticks|
    requires Safe(table, TickOps(ticks, |copies|) + more)
    ensures
      var ops := TickOps(ticks, |copies|);
      ChunkOutcome(ChunkReadable(rules, ticks, |copies|), ticks,
        ReadTicks(rules, At(table, ops + more), |ticks| - |copies|, copies), At(Table(table, ops), more))
    decreases |ticks| - |copies|
  {
    hide *;
    var i := |copies|;
    if i == |ticks| {
      TicksDone(rules, ticks, copies, table, more);
    } else {
      TickOpsCons(ticks, i);
      ReadableCons(rules, ticks, i);
      CopiesSynced(ticks, copies);
      var head := DeltaOps(Previous(ticks, i, 1), ticks[i], Previous(ticks, i, 2));
      var tail := TickOps(ticks, i + 1);
      Sequence(table, head, tail, more);
      var r := At(table, head + tail + more);
      var r1 := At(Table(table, head), tail + more);
      var ok := Readable(rules, Previous(ticks, i, 1), ticks[i], Previous(ticks, i, 2));
      ReadWrittenDelta(rules, Previous(ticks, i, 1), ticks[i], Previous(ticks, i, 2), Previous(copies, i, 1),
                       Previous(copies, i, 2), table, tail + more);
      var res := ReadDelta(rules, r, Previous(copies, i, 1), Previous(copies, i, 2));
      OutcomeParts(ok, ticks[i], res, r1);
      ReadTicksStep(rules, r, |ticks| - i, copies);
      if ok {
        CopiesExtended(ticks, copies, res.value.0);
        ReadWrittenTicks(rules, ticks, copies + [res.value.0], Table(table, head), more);
      } else {
        ChunkOutcomeFails(ticks, ReadTicks(rules, r, |ticks| - i, copies), At(Table(table, head + tail), more));
      }
    }
  }

  lemma FourFirst(a: Op, b: Op, c: Op, d: Op, rest: seq<Op>)
    ensures [a, b, c, d] + rest == [a] + ([b] + ([c] + ([d] + rest)))
  {
  }

  lemma ChunkOpsShape(ticks: seq<Value>, first: nat)
    requires ticks != [] && AllWellFormed(ticks)
    ensures
      var body := ValueOps(ticks[0]) + TickOps(ticks, 1);
      ChunkOps(ticks, first) == [Raw(CHUNK_MAGIC)]
        + ([Byte(CHUNK_VERSION)] + ([Varuint(first)] + ([Varuint(|ticks|)] + body)))
  {
    var rest := ValueOps(ticks[0]) + TickOps(ticks, 1);
    assert ChunkOps(ticks, first) == [Raw(CHUNK_MAGIC), Byte(CHUNK_VERSION), Varuint(first), Varuint(|ticks|)] + rest;
    hide *;
    FourFirst(Raw(CHUNK_MAGIC), Byte(CHUNK_VERSION), Varuint(first), Varuint(|ticks|), rest);
  }

  /** What is left to do once the first tick has been read. */
  function DecodeRest(rules: Rules, first: nat, count: nat, read: Result<(Value, Reader)>): Result<(nat, seq<Value>)>
    requires count >= 1
  {
    if read.Err? then Err(read.failure)
    else
      var res := ReadTicks(rules, read.value.1, count - 1, [read.value.0]);
      if res.Err? then Err(res.failure)
      else if res.value.1.bytes != [] then Err(TrailingInput)
      else Ok((first, res.value.0))
  }

  lemma DecodeChunkSteps(rules: Rules, bytes: seq<byte>, r1: Reader, r2: Reader, first: nat, r3: Reader, count: nat,
                         r4: Reader)
    requires ReadBytes(Reader(bytes, []), 4) == Ok((CHUNK_MAGIC, r1))
    requires ReadByte(r1) == Ok((CHUNK_VERSION, r2))
    requires ReadVaruint(r2) == Ok((first, r3)) && ReadVaruint(r3) == Ok((count, r4)) && count >= 1
    ensures DecodeChunk(rules, bytes) == DecodeRest(rules, first, count, ReadValue(rules.room, r4))
  {
    hide ReadBytes, ReadByte, ReadVaruint, ReadValue, ReadTicks;
  }

  /** The reader gets past the header of an encoded chunk. */
  lemma DecodeHeader(rules: Rules, ticks: seq<Value>, first: nat)
    requires ticks != [] && AllWellFormed(ticks) && Safe([], ChunkOps(ticks, first))
    ensures
      var body := ValueOps(ticks[0]) + TickOps(ticks, 1);
      && Safe([], body)
      && DecodeChunk(rules, Emit([], ChunkOps(ticks, first)))
         == DecodeRest(rules, first, |ticks|, ReadValue(rules.room, At([], body)))
  {
    assert At([], ChunkOps(ticks, first)) == Reader(Emit([], ChunkOps(ticks, first)), []);
    assert |CHUNK_MAGIC| == 4 && |ticks| >= 1;
    hide *;
    ChunkOpsShape(ticks, first);
    var b4 := ValueOps(ticks[0]) + TickOps(ticks, 1);
    var b3 := [Varuint(|ticks|)] + b4;
    var b2 := [Varuint(first)] + b3;
    var b1 := [Byte(CHUNK_VERSION)] + b2;
    var none: seq<Op> := [];
    NoMore(ChunkOps(ticks, first));
    NoMore(b1);
    NoMore(b2);
    NoMore(b3);
    NoMore(b4);
    RawFirst([], CHUNK_MAGIC, b1, none);
    TagFirst([], CHUNK_VERSION, b2, none);
    CountFirst([], first, b3, none);
    CountFirst([], |ticks|, b4, none);
    DecodeChunkSteps(rules, Emit([], ChunkOps(ticks, first)), At([], b1), At([], b2), first, At([], b3), |ticks|,
                     At([], b4));
  }

  /** What a chunk decodes to, up to member order; the first tick comes back identically. */
  ghost predicate DecodedChunk(ticks: seq<Value>, first: nat, res: Result<(nat, seq<Value>)>) {
    && res.Ok?
    && res.value.0 == first
    && |res.value.1| == |ticks|
    && forall i :: 0 <= i < |ticks| ==> Same(ticks[i], res.value.1[i])
  }

  lemma NothingLeft(table: seq<string>)
    ensures At(table, []).bytes == []
  {
  }

  lemma FirstCopy(ticks: seq<Value>)
    requires ticks != [] && AllWellFormed(ticks)
    ensures WellFormed(ticks[0]) && Copies(ticks, [ticks[0]])
  {
    SameReflexive(ticks[0]);
  }

  lemma ChunkResult(ok: bool, ticks: seq<Value>, first: nat, read: Result<(seq<Value>, Reader)>, table: seq<string>,
                    res: Result<(nat, seq<Value>)>)
    requires ChunkOutcome(ok, ticks, read, At(table, []))
    requires res == if read.Err? then Err(read.failure) else if read.value.1.bytes != [] then Err(TrailingInput)
      else Ok((first, read.value.0))
    ensures if ok then DecodedChunk(ticks, first, res) else res.Err?
  {
  }

  /** Decoding an encoded chunk, for every non-empty sequence of finite ticks the writer
      accepts: it succeeds exactly when the histories meet the reader's rules, and then gives
      back the first tick number and a deep copy of every tick, with no byte left over. */
  lemma DecodeOfEncode(rules: Rules, ticks: seq<Value>, first: nat)
    requires AllWellFormed(ticks) && EncodeChunk(ticks, first).Ok?
    ensures
      var res := DecodeChunk(rules, EncodeChunk(ticks, first).value);
      if ChunkReadable(rules, ticks, 0) then DecodedChunk(ticks, first, res) else res.Err?
  {
    hide *;
    EncodedParts(ticks, first);
    DecodeHeader(rules, ticks, first);
    BodyDecoded(rules, ticks, first);
  }

  lemma EncodedParts(ticks: seq<Value>, first: nat)
    requires AllWellFormed(ticks) && EncodeChunk(ticks, first).Ok?
    ensures ticks != [] && Safe([], ChunkOps(ticks, first))
    ensures EncodeChunk(ticks, first).value == Emit([], ChunkOps(ticks, first))
  {
    hide ChunkOps, Safe, Emit;
  }

  /** The ticks behind the header. */
  lemma BodyDecoded(rules: Rules, ticks: seq<Value>, first: nat)
    requires ticks != [] && AllWellFormed(ticks) && Safe([], ValueOps(ticks[0]) + TickOps(ticks, 1))
    ensures
      var res := DecodeRest(rules, first, |ticks|,
                            ReadValue(rules.room, At([], ValueOps(ticks[0]) + TickOps(ticks, 1))));
      if ChunkReadable(rules, ticks, 0) then DecodedChunk(ticks, first, res) else res.Err?
  {
    hide *;
    FirstCopy(ticks);
    var head, tail := ValueOps(ticks[0]), TickOps(ticks, 1);
    var none: seq<Op> := [];
    NoMore(head + tail);
    NoMore(tail);
    Sequence([], head, tail, none);
    ReadWrittenValue(rules.room, ticks[0], [], tail + none);
    var table := Table([], head);
    var read := ReadValue(rules.room, At([], head + tail));
    BackParts(FitsRoom(rules.room, ticks[0]), ticks[0], read, At(table, tail));
    ReadableCons(rules, ticks, 0);
    FirstReadable(rules, ticks);
    ReadWrittenTicks(rules, ticks, [ticks[0]], table, none);
    var res := DecodeRest(rules, first, |ticks|, read);
    RestParts(rules, first, |ticks|, read);
    if FitsRoom(rules.room, ticks[0]) {
      ChunkResult(ChunkReadable(rules, ticks, 1), ticks, first,
                  ReadTicks(rules, At(table, tail), |ticks| - 1, [ticks[0]]),
        Table(table, tail), res);
    }
  }

  lemma RestParts(rules: Rules, first: nat, count: nat, read: Result<(Value, Reader)>)
    requires count >= 1
    ensures read.Err? ==> DecodeRest(rules, first, count, read).Err?
    ensures read.Ok? ==>
      var res := ReadTicks(rules, read.value.1, count - 1, [read.value.0]);
      DecodeRest(rules, first, count, read) ==
        if res.Err? then Err(res.failure) else if res.value.1.bytes != [] then Err(TrailingInput)
          else Ok((first, res.value.0))
  {
    hide ReadTicks;
  }

  lemma FirstReadable(rules: Rules, ticks: seq<Value>)
    requires ticks != []
    ensures Readable(rules, Previous(ticks, 0, 1), ticks[0], Previous(ticks, 0, 2)) == FitsRoom(rules.room, ticks[0])
  {
  }

  lemma NoMore(ops: seq<Op>)
    ensures ops + [] == ops
  {
  }

  // ----- the three readers -----

  /** The guarded lookups make every history acceptable. */
  lemma {:induction false} GuardedAlwaysReadable(previous: Option<Value>, next: Value, before: Option<Value>)
    ensures Readable(GUARDED, previous, next, before)
    decreases next
  {
    AlwaysFits(next);
    assert Deeper(GUARDED) == GUARDED;
    if previous.Some? && Changed(previous, next) {
      match (previous.value, next)
      case (Arr(_), Arr(items)) =>
        forall i | 0 <= i < |items| ensures Readable(GUARDED, Element(previous, i), items[i], Element(before, i)) {
          GuardedAlwaysReadable(Element(previous, i), items[i], Element(before, i));
        }
      case (Obj(_, _), Obj(_, vals)) =>
        forall k | k in vals ensures Readable(GUARDED, Member(previous, k), vals[k], Member(before, k)) {
          GuardedAlwaysReadable(Member(previous, k), vals[k], Member(before, k));
        }
      case _ =>
    }
  }

  /** With guarded lookups the codec is lossless on every tick sequence it accepts. */
  lemma GuardedRoundTrip(ticks: seq<Value>, first: nat)
    requires AllWellFormed(ticks) && EncodeChunk(ticks, first).Ok?
    ensures DecodedChunk(ticks, first, DecodeChunk(GUARDED, EncodeChunk(ticks, first).value))
  {
    forall j | 0 <= j < |ticks| ensures Readable(GUARDED, Previous(ticks, j, 1), ticks[j], Previous(ticks, j, 2)) {
      GuardedAlwaysReadable(Previous(ticks, j, 1), ticks[j], Previous(ticks, j, 2));
    }
    assert ChunkReadable(GUARDED, ticks, 0);
    DecodeOfEncode(GUARDED, ticks, first);
  }
}
