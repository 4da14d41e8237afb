/** Small tick sequences on which a reader of the repository refuses what its writer produced. */
module ReaderDifferences {
  import opened Base
  import opened Floats
  import opened Values
  import opened Wire
  import opened Residuals
  import opened Delta
  import opened Decode
  import opened DeltaRoundTrip
  import opened ChunkRoundTrip
  import opened PythonDelta
  import opened WriterRange
  import P = PythonChunk
  import V = ViewerWriter

  const ZERO_TICK: Value := Arr([Null])
  const ONE_TICK: Value := Arr([Null, Null])
  const TWO_TICK: Value := Arr([Bool(true), Bool(true)])

  /** A list that grows by one item and then changes everywhere. */
  function GrownList(): seq<Value> {
    [ZERO_TICK, ONE_TICK, TWO_TICK]
  }

  lemma GrownListAccepted()
    ensures AllWellFormed(GrownList()) && EncodeChunk(GrownList(), 0).Ok?
  {
    var ticks := GrownList();
    FirstTickOps();
    SecondTickOps();
    ThirdTickOps();
    hide ValueOps, DeltaOps, WellFormed;
    ThreeTicks(ticks, 0);
    assert forall i :: 0 <= i < |ticks| ==> SmallValue(ticks[i]);
    EncoderAccepts(ticks, 0);
  }

  lemma FirstTickOps()
    ensures WellFormed(ZERO_TICK) && |ValueOps(ZERO_TICK)| == 3
  {
    assert ItemOps(ZERO_TICK, 0) == ValueOps(Null) + ItemOps(ZERO_TICK, 1);
  }

  lemma SecondTickOps()
    ensures WellFormed(ONE_TICK) && |DeltaOps(Some(ZERO_TICK), ONE_TICK, None)| <= 10
  {
    V.DeltaOpsShape(Some(ZERO_TICK), ONE_TICK, None);
    V.SparseOpsStep(ZERO_TICK, ONE_TICK, None, 0);
    V.SparseOpsStep(ZERO_TICK, ONE_TICK, None, 1);
    V.SparseOpsStep(ZERO_TICK, ONE_TICK, None, 2);
    assert !FloatArrays(ZERO_TICK, ONE_TICK) && !Dense(ZERO_TICK, ONE_TICK);
    assert |DeltaOps(None, Null, None)| == 2;
    hide DeltaOps, SparseOps, DenseOps;
  }

  lemma ThirdTickOps()
    ensures WellFormed(TWO_TICK) && |DeltaOps(Some(ONE_TICK), TWO_TICK, Some(ZERO_TICK))| <= 10
  {
    GrownListDense();
    var h := Some(ZERO_TICK);
    V.DeltaOpsShape(Some(ONE_TICK), TWO_TICK, h);
    V.DenseOpsStep(ONE_TICK, TWO_TICK, h, 0);
    V.DenseOpsStep(ONE_TICK, TWO_TICK, h, 1);
    V.DenseOpsStep(ONE_TICK, TWO_TICK, h, 2);
    assert |DeltaOps(Some(Null), Bool(true), None)| == 2 && |DeltaOps(Some(Null), Bool(true), Some(Null))| == 2;
    hide DeltaOps, SparseOps, DenseOps;
  }

  lemma ThreeTicks(ticks: seq<Value>, first: nat)
    requires AllWellFormed(ticks) && |ticks| == 3
    ensures
      var second, third := DeltaOps(Some(ticks[0]), ticks[1], None), DeltaOps(Some(ticks[1]), ticks[2], Some(ticks[0]));
      |ChunkOps(ticks, first)| == 4 + |ValueOps(ticks[0])| + |second| + |third|
  {
    hide ValueOps, DeltaOps;
    assert TickOps(ticks, 2) == DeltaOps(Some(ticks[1]), ticks[2], Some(ticks[0])) + TickOps(ticks, 3);
    assert TickOps(ticks, 1) == DeltaOps(Some(ticks[0]), ticks[1], None) + TickOps(ticks, 2);
  }

  lemma GrownListDense()
    ensures Dense(ONE_TICK, TWO_TICK) && Changed(Some(ONE_TICK), TWO_TICK) && !FloatArrays(ONE_TICK, TWO_TICK)
  {
    assert ChangedItems(ONE_TICK, TWO_TICK, 1) == 1 + ChangedItems(ONE_TICK, TWO_TICK, 2);
    assert ChangedItems(ONE_TICK, TWO_TICK, 0) == 1 + ChangedItems(ONE_TICK, TWO_TICK, 1);
    assert !Same(ONE_TICK.items[0], TWO_TICK.items[0]);
    assert !Exact(TWO_TICK.items[0]);
  }

  lemma GrownListUnreadable()
    ensures !Readable(PYTHON, Some(ONE_TICK), TWO_TICK, Some(ZERO_TICK))
    ensures !Writes(Some(ONE_TICK), TWO_TICK, Some(ZERO_TICK))
  {
    GrownListDense();
    assert DenseHistory(PYTHON, Some(ZERO_TICK), 1).Err?;
    assert 0 <= 1 < |TWO_TICK.items|;
    hide Dense, FloatArrays, Changed, Same;
  }

  lemma GrownListBuilds()
    ensures BuildNarrows(Some(ONE_TICK), TWO_TICK, Some(ZERO_TICK))
  {
  }

  lemma ThirdUnreadable(ticks: seq<Value>)
    requires |ticks| == 3 && !Readable(PYTHON, Some(ticks[1]), ticks[2], Some(ticks[0]))
    ensures !ChunkReadable(PYTHON, ticks, 0)
  {
    hide Readable;
    assert Previous(ticks, 2, 1) == Some(ticks[1]) && Previous(ticks, 2, 2) == Some(ticks[0]);
  }

  /** The Python codec indexes the history of the dense array past its end on this list, in the
      writer and in the reader; with the guarded lookup the list comes back. */
  lemma PythonRefusesGrownList()
    ensures AllWellFormed(GrownList()) && EncodeChunk(GrownList(), 0).Ok?
    ensures DecodeChunk(PYTHON, EncodeChunk(GrownList(), 0).value).Err?
    ensures WriteStep(Some(ONE_TICK), Create(Some(ONE_TICK), TWO_TICK, Some(ZERO_TICK)), Some(ZERO_TICK)) == None
    ensures P.Encode(GrownList(), 0) == None
    ensures DecodedChunk(GrownList(), 0, DecodeChunk(GUARDED, EncodeChunk(GrownList(), 0).value))
  {
    hide *;
    GrownListUnreadable();
    GrownListAccepted();
    GrownListItems();
    ThirdUnreadable(GrownList());
    DecodeOfEncode(PYTHON, GrownList(), 0);
    GuardedRoundTrip(GrownList(), 0);
    ThirdTickOps();
    FirstTickOps();
    SecondTickOps();
    GrownListBuilds();
    TreeAgrees(Some(ONE_TICK), TWO_TICK, Some(ZERO_TICK));
    UnwrittenRaises(Some(ONE_TICK), TWO_TICK, Some(ZERO_TICK));
    ThirdUnwritten(GrownList());
    P.EncodeAgrees(GrownList(), 0);
  }

  lemma UnwrittenRaises(previous: Option<Value>, next: Value, before: Option<Value>)
    requires WellFormed(next) && !Writes(previous, next, before)
    ensures Expected(previous, next, before) == None
  {
    hide Writes;
  }

  lemma ThirdUnwritten(ticks: seq<Value>)
    requires |ticks| == 3 && !Writes(Some(ticks[1]), ticks[2], Some(ticks[0]))
    ensures !P.ChunkWrites(ticks, 0)
  {
    hide Writes, BuildNarrows;
    assert Previous(ticks, 2, 1) == Some(ticks[1]) && Previous(ticks, 2, 2) == Some(ticks[0]);
  }

  lemma GrownListItems()
    ensures |GrownList()| == 3 && GrownList()[0] == ZERO_TICK && GrownList()[1] == ONE_TICK
    ensures GrownList()[2] == TWO_TICK
    ensures WellFormedOption(Some(ONE_TICK)) && WellFormed(TWO_TICK) && WellFormedOption(Some(ZERO_TICK))
  {
  }

  /** A pair of float32 numbers that appears in one tick and changes in the next. */
  function NewPair(a: U32, b: U32): seq<Value> {
    [Arr([]), Arr([Num(Widen(a)), Num(Widen(a))]), Arr([Num(Widen(a)), Num(Widen(b))])]
  }

  lemma PairFacts(a: U32, b: U32)
    requires Finite32(a) && Finite32(b) && a != b
    ensures
      var ticks := NewPair(a, b);
      && FloatArrays(ticks[1], ticks[2]) && !FloatArrays(ticks[0], ticks[1]) && !Dense(ticks[0], ticks[1])
      && Changed(Some(ticks[0]), ticks[1]) && Changed(Some(ticks[1]), ticks[2])
      && ChangedItems(ticks[0], ticks[1], 0) == 2
      && (forall i :: 0 <= i < 3 ==> WellFormed(ticks[i]) && SmallValue(ticks[i]))
  {
    NarrowWiden(a);
    NarrowWiden(b);
    hide Narrow, Widen;
    assert Widen(a) != Widen(b);
    PairChanges(Widen(a), Widen(b));
    PairSmall(Widen(a), Widen(b));
    hide FloatArrays, Dense, Changed, ChangedItems, WellFormed, SmallValue;
  }

  lemma PairChanges(x: F64, y: F64)
    requires ExactF32(x) && ExactF32(y) && x != y
    ensures
      var empty, same, both := Arr([]), Arr([Num(x), Num(x)]), Arr([Num(x), Num(y)]);
      && FloatArrays(same, both) && !FloatArrays(empty, same) && !Dense(empty, same)
      && Changed(Some(empty), same) && Changed(Some(same), both) && ChangedItems(empty, same, 0) == 2
  {
    hide ExactF32;
    var empty, same, both := Arr([]), Arr([Num(x), Num(x)]), Arr([Num(x), Num(y)]);
    assert !Same(same.items[1], both.items[1]);
    assert ChangedItems(empty, same, 1) == 1 + ChangedItems(empty, same, 2);
    assert ChangedItems(empty, same, 0) == 1 + ChangedItems(empty, same, 1);
  }

  lemma PairSmall(x: F64, y: F64)
    requires Finite(x) && Finite(y)
    ensures
      var ticks := [Arr([]), Arr([Num(x), Num(x)]), Arr([Num(x), Num(y)])];
      forall i :: 0 <= i < 3 ==> WellFormed(ticks[i]) && SmallValue(ticks[i])
  {
    hide Finite;
    var ticks := [Arr([]), Arr([Num(x), Num(x)]), Arr([Num(x), Num(y)])];
    assert WellFormed(Num(x)) && WellFormed(Num(y)) && SmallValue(Num(x)) && SmallValue(Num(y));
    assert WellFormed(ticks[0]) && WellFormed(ticks[1]) && WellFormed(ticks[2]);
    assert SmallValue(ticks[0]) && SmallValue(ticks[1]) && SmallValue(ticks[2]);
  }

  lemma PairSecondOps(a: U32, b: U32)
    requires Finite32(a) && Finite32(b) && a != b
    ensures WellFormed(NewPair(a, b)[1]) && |DeltaOps(Some(NewPair(a, b)[0]), NewPair(a, b)[1], None)| <= 20
  {
    PairFacts(a, b);
    var p, n := NewPair(a, b)[0], NewPair(a, b)[1];
    NewNumberOps(Widen(a));
    hide DeltaOps, SparseOps, DenseOps, FloatArrays, Dense, WellFormed, NumberOps, Widen, Finite32;
    V.DeltaOpsShape(Some(p), n, None);
    V.SparseOpsStep(p, n, None, 0);
    V.SparseOpsStep(p, n, None, 1);
    V.SparseOpsStep(p, n, None, 2);
  }

  lemma NewNumberOps(bits: F64)
    requires Finite(bits)
    ensures WellFormed(Num(bits)) && |DeltaOps(None, Num(bits), None)| <= 4
  {
    assert DeltaOps(None, Num(bits), None) == [Byte(DELTA_REPLACE)] + NumberOps(bits);
  }

  lemma PairThirdOps(a: U32, b: U32)
    requires Finite32(a) && Finite32(b) && a != b
    ensures
      var ticks := NewPair(a, b);
      WellFormed(ticks[2]) && |DeltaOps(Some(ticks[1]), ticks[2], Some(ticks[0]))| <= 20
  {
    PairFacts(a, b);
    var ticks := NewPair(a, b);
    V.DeltaOpsShape(Some(ticks[1]), ticks[2], Some(ticks[0]));
    V.FloatOpsShape(ticks[1], ticks[2], Some(ticks[0]));
    FloatArraysLength(ticks[1], ticks[2]);
    var c := FloatChoice(ticks[1], ticks[2], Some(ticks[0]));
    var residuals := FloatResiduals(c.mode, ticks[1], ticks[2], Some(ticks[0]));
    VaruintOpsCount(residuals);
    assert |residuals| == 2;
    hide DeltaOps, FloatArrays, Dense, WellFormed, FloatChoice, FloatResiduals, FloatArrayOps;
  }

  lemma {:induction false} VaruintOpsCount(values: seq<nat>)
    ensures |VaruintOps(values)| == |values|
  {
    if values != [] {
      VaruintOpsCount(values[1..]);
    }
  }

  /** The native reader refuses every chunk in which a pair of float32 numbers appears where a
      list of another length was and changes in the next tick; the guarded reader does not. */
  lemma NativeRefusesNewPair(a: U32, b: U32)
    requires Finite32(a) && Finite32(b) && a != b
    ensures
      var ticks := NewPair(a, b);
      && AllWellFormed(ticks) && EncodeChunk(ticks, 0).Ok?
      && DecodeChunk(NATIVE, EncodeChunk(ticks, 0).value).Err?
      && DecodedChunk(ticks, 0, DecodeChunk(GUARDED, EncodeChunk(ticks, 0).value))
  {
    var ticks := NewPair(a, b);
    PairFacts(a, b);
    PairSecondOps(a, b);
    PairThirdOps(a, b);
    assert |ValueOps(ticks[0])| == 2;
    var h := Some(ticks[0]);
    FloatShape(NATIVE, ticks[1], ticks[2], h);
    assert HistoryRefused(NATIVE, h, |ticks[2].items|);
    hide ValueOps, DeltaOps, WellFormed, SmallValue, Widen, Readable, FloatArrays, Dense;
    ThreeTicks(ticks, 0);
    EncoderAccepts(ticks, 0);
    assert !ChunkReadable(NATIVE, ticks, 0) by {
      assert Previous(ticks, 2, 1) == Some(ticks[1]) && Previous(ticks, 2, 2) == h;
    }
    DecodeOfEncode(NATIVE, ticks, 0);
    GuardedRoundTrip(ticks, 0);
  }

  // ----- nesting -----

  /** Lists within lists, n of them. */
  function Nested(n: nat): Value {
    if n == 0 then Null else Arr([Nested(n - 1)])
  }

  lemma {:induction false} NestedFits(n: nat, levels: nat)
    ensures FitsRoom(Some(levels), Nested(n)) <==> n < levels
  {
    if n > 0 && levels > 0 {
      NestedFits(n - 1, levels - 1);
      assert Nested(n).items[0] == Nested(n - 1);
    }
  }

  lemma {:induction false} NestedOps(n: nat)
    ensures WellFormed(Nested(n)) && SmallValue(Nested(n)) && |ValueOps(Nested(n))| == 2 * n + 1
  {
    if n > 0 {
      NestedOps(n - 1);
      var v := Nested(n);
      assert v.items[0] == Nested(n - 1);
      hide WellFormed, SmallValue;
      assert ItemOps(v, 1) == [];
      assert ItemOps(v, 0) == ValueOps(Nested(n - 1)) + ItemOps(v, 1);
    }
  }

  /** The native reader takes lists nested within lists up to 32 levels, and no further. */
  lemma NativeLevels(n: nat)
    requires n <= 1_000_000
    ensures WellFormed(Nested(n)) && EncodeChunk([Nested(n)], 0).Ok?
    ensures DecodeChunk(NATIVE, EncodeChunk([Nested(n)], 0).value).Ok? <==> n < 32
  {
    var ticks := [Nested(n)];
    NestedOps(n);
    NestedFits(n, 32);
    OneTickReadable(Nested(n));
    hide ValueOps, WellFormed, SmallValue, FitsRoom, Readable, Nested, EncodeChunk;
    EncoderAccepts(ticks, 0);
    DecodeOfEncode(NATIVE, ticks, 0);
  }

  lemma OneTickReadable(v: Value)
    ensures ChunkReadable(NATIVE, [v], 0) <==> FitsRoom(Some(32), v)
  {
    hide FitsRoom;
    assert Previous([v], 0, 1) == None && Previous([v], 0, 2) == None;
  }
}
