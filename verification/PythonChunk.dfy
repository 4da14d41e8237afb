/** Whole chunks of the Python encoder: when it raises, and that its reader returns all it writes. */
module PythonChunk {
  import opened Base
  import opened Floats
  import opened Values
  import opened Wire
  import opened Residuals
  import opened Delta
  import opened Decode
  import opened ValueRoundTrip
  import opened DeltaRoundTrip
  import opened ChunkRoundTrip
  import opened PythonNarrowing
  import opened PythonDelta

  /** Neither stage raises on a tick from i on; the first tick is written whole. */
  predicate ChunkWrites(ticks: seq<Value>, i: nat) {
    forall j :: i <= j < |ticks| ==>
      && BuildNarrows(Previous(ticks, j, 1), ticks[j], Previous(ticks, j, 2))
      && Writes(Previous(ticks, j, 1), ticks[j], Previous(ticks, j, 2))
  }

  ghost function Steps(ticks: seq<Value>, i: nat): Option<seq<Op>>
    requires AllWellFormed(ticks) && 1 <= i <= |ticks|
    decreases |ticks| - i
  {
    if i == |ticks| then Some([])
    else Then(EncodeStep(Previous(ticks, i, 1), ticks[i], Previous(ticks, i, 2)), Steps(ticks, i + 1))
  }

  /** The chunk as the source writes it; none when it raises. */
  ghost function Encode(ticks: seq<Value>, first: nat): Option<seq<byte>>
    requires AllWellFormed(ticks)
  {
    if ticks == [] then None
    else
      match Then(WriteValue(ticks[0]), Steps(ticks, 1))
      case None => None
      case Some(body) =>
        var ops := [Raw(CHUNK_MAGIC), Byte(CHUNK_VERSION), Varuint(first), Varuint(|ticks|)] + body;
        if Safe([], ops) then Some(Emit([], ops)) else None
  }

  lemma ChunkWritesStep(ticks: seq<Value>, i: nat)
    requires i < |ticks|
    ensures ChunkWrites(ticks, i) <==>
      && BuildNarrows(Previous(ticks, i, 1), ticks[i], Previous(ticks, i, 2))
      && Writes(Previous(ticks, i, 1), ticks[i], Previous(ticks, i, 2))
      && ChunkWrites(ticks, i + 1)
  {
    hide BuildNarrows, Writes;
  }

  lemma TickAt(ticks: seq<Value>, i: nat)
    requires 1 <= i < |ticks| && AllWellFormed(ticks)
    ensures WellFormed(ticks[i]) && WellFormedOption(Previous(ticks, i, 1))
    ensures Steps(ticks, i)
      == Then(EncodeStep(Previous(ticks, i, 1), ticks[i], Previous(ticks, i, 2)), Steps(ticks, i + 1))
  {
    hide EncodeStep;
  }

  lemma {:induction false} StepsAgree(ticks: seq<Value>, i: nat)
    requires AllWellFormed(ticks) && 1 <= i <= |ticks|
    ensures Steps(ticks, i) == if ChunkWrites(ticks, i) then Some(TickOps(ticks, i)) else None
    decreases |ticks| - i
  {
    if i < |ticks| {
      hide *;
      TickAt(ticks, i);
      TickOpsCons(ticks, i);
      ChunkWritesStep(ticks, i);
      StepAgrees(Previous(ticks, i, 1), ticks[i], Previous(ticks, i, 2));
      StepsAgree(ticks, i + 1);
      ThenParts(EncodeStep(Previous(ticks, i, 1), ticks[i], Previous(ticks, i, 2)), Steps(ticks, i + 1));
    }
  }

  lemma FirstWrites(ticks: seq<Value>)
    requires ticks != []
    ensures ChunkWrites(ticks, 0) <==> Writable(ticks[0]) && ChunkWrites(ticks, 1)
  {
    ChunkWritesStep(ticks, 0);
    hide ChunkWrites, Writable;
  }

  /** The Python encoder writes the chunk of the one-stage encoder, or raises exactly when a count
      leaves the safe range or `ChunkWrites` says so. */
  lemma EncodeAgrees(ticks: seq<Value>, first: nat)
    requires AllWellFormed(ticks)
    ensures Encode(ticks, first) ==
      if ChunkWrites(ticks, 0) && EncodeChunk(ticks, first).Ok? then Some(EncodeChunk(ticks, first).value) else None
  {
    if ticks != [] {
      FirstWrites(ticks);
      ValueWritten(ticks[0]);
      StepsAgree(ticks, 1);
      hide ChunkWrites, Writable, WriteValue, Steps, TickOps, ValueOps, Safe, Emit;
    }
  }

  // ----- what is written is read -----

  lemma PythonRoom()
    ensures Deeper(PYTHON) == PYTHON && !Exhausted(PYTHON.room) && PYTHON.room == None
  {
  }

  lemma NumberReadable(previous: F64, next: F64, before: Option<Value>)
    requires NumberNarrows(previous, next, before)
    ensures !NumberRefused(PYTHON, previous, next, before)
  {
    hide ScalarMode, Narrowable, Extrapolated, IntegerDelta, ExactF32;
  }

  lemma FloatsReadable(previous: Value, next: Value, before: Option<Value>)
    requires FloatArrays(previous, next) && HistoryNarrows(previous, before, |next.items|)
    ensures !FloatsRefused(PYTHON, previous, next, before)
  {
    FloatChoiceFacts(previous, next, before);
    FloatArraysLength(previous, next);
    if FloatHistory(before, |next.items|) {
      assert HistoryBits(before, previous) == BitsOf(before.value);
      assert !PredictionsRaiseFrom(BitsOf(before.value), BitsOf(previous), 0);
    }
    hide FloatChoice, Narrowable, Extrapolated, FloatArrays, ScanNarrows, ExactArray;
  }

  /** Every step both stages get through is one the Python reader can follow. */
  lemma {:induction false} WrittenIsReadable(previous: Option<Value>, next: Value, before: Option<Value>)
    requires BuildNarrows(previous, next, before) && Writes(previous, next, before)
    ensures Readable(PYTHON, previous, next, before)
    decreases next
  {
    PythonRoom();
    AlwaysFits(next);
    if previous.Some? && Changed(previous, next) {
      match (previous.value, next)
      case (Num(p), Num(n)) =>
        NumberReadable(p, n, before);
      case (Arr(_), Arr(items)) =>
        hide NumberRefused, FloatsRefused, Same, FloatArrays, Dense, FitsRoom, HistoryNarrows, FloatTestNarrows,
          DenseHistory;
        if FloatArrays(previous.value, next) {
          ChangedParts(previous.value, next);
          FloatsReadable(previous.value, next, before);
        } else {
          forall i | 0 <= i < |items| && (Dense(previous.value, next) || Changed(Element(previous, i), items[i]))
            ensures Readable(PYTHON, Element(previous, i), items[i], Element(before, i))
          {
            WrittenIsReadable(Element(previous, i), items[i], Element(before, i));
          }
        }
      case (Obj(_, _), Obj(_, vals)) =>
        hide NumberRefused, FloatsRefused, Same, FloatArrays, Dense, FitsRoom, HistoryNarrows, FloatTestNarrows,
          DenseHistory;
        forall k | k in vals && Changed(Member(previous, k), vals[k])
          ensures Readable(PYTHON, Member(previous, k), vals[k], Member(before, k))
        {
          WrittenIsReadable(Member(previous, k), vals[k], Member(before, k));
        }
      case _ =>
    }
  }

  lemma ChunkReadableWhenWritten(ticks: seq<Value>)
    requires ChunkWrites(ticks, 0)
    ensures ChunkReadable(PYTHON, ticks, 0)
  {
    hide BuildNarrows, Writes, Readable;
    forall j | 0 <= j < |ticks| ensures Readable(PYTHON, Previous(ticks, j, 1), ticks[j], Previous(ticks, j, 2)) {
      WrittenIsReadable(Previous(ticks, j, 1), ticks[j], Previous(ticks, j, 2));
    }
  }

  /** Whatever the Python encoder writes, the Python reader returns. */
  lemma PythonRoundTrip(ticks: seq<Value>, first: nat)
    requires AllWellFormed(ticks) && Encode(ticks, first).Some?
    ensures DecodedChunk(ticks, first, DecodeChunk(PYTHON, Encode(ticks, first).value))
  {
    hide *;
    EncodeAgrees(ticks, first);
    ChunkReadableWhenWritten(ticks);
    DecodeOfEncode(PYTHON, ticks, first);
  }

  /** The encoder beside a reader: with partial narrowing it raises where `ChunkWrites` says so. */
  function EncodeFor(rules: Rules, ticks: seq<Value>, first: nat): Option<seq<byte>>
    requires AllWellFormed(ticks)
  {
    if EncodeChunk(ticks, first).Err? || (rules.partialNarrowing && !ChunkWrites(ticks, 0)) then None
    else Some(EncodeChunk(ticks, first).value)
  }

  /** Beside the Python reader that is the Python encoder, and the reader follows all it writes. */
  lemma PythonEncoder(ticks: seq<Value>, first: nat)
    requires AllWellFormed(ticks)
    ensures EncodeFor(PYTHON, ticks, first) == Encode(ticks, first)
    ensures EncodeFor(PYTHON, ticks, first).Some? ==> ChunkReadable(PYTHON, ticks, 0)
  {
    EncodeAgrees(ticks, first);
    if ChunkWrites(ticks, 0) {
      ChunkReadableWhenWritten(ticks);
    }
    hide ChunkWrites, ChunkReadable, Encode, EncodeChunk;
  }
}
