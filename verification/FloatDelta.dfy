/** The fused float32 array writer: all predictors evaluated together over fixed arrays of 64. */
module FloatDelta {
  import opened Base
  import opened Floats
  import opened Values
  import opened Wire
  import opened Packing
  import opened Residuals
  import opened Delta
  import opened DeltaRoundTrip
  import opened Buffers
  import opened ViewerWriter

  const LIMIT: nat := 64

  // ----- the wrapping zigzag -----

  function WrappingSub(a: U32, b: U32): U32 {
    (a as int - b as int) % 0x1_0000_0000
  }

  /** The low half doubled, and all ones when the sign bit is set. */
  function WrappingZigZag(a: U32, b: U32): nat {
    var delta: int := WrappingSub(b, a);
    Xor(2 * delta % 0x1_0000_0000, if delta >= 0x8000_0000 then 0xFFFF_FFFF else 0)
  }

  lemma {:induction false} XorOnes(n: nat, k: nat)
    requires n < Pow2(k)
    ensures Xor(n, Pow2(k) - 1) == Pow2(k) - 1 - n
    decreases k
  {
    if k > 0 {
      var ones := Pow2(k) - 1;
      assert ones / 2 == Pow2(k - 1) - 1 && ones % 2 == 1;
      XorOnes(n / 2, k - 1);
      XorParts(n, ones);
    }
  }

  lemma {:induction false} XorNothing(n: nat)
    ensures Xor(n, 0) == n
  {
    if n > 0 {
      XorNothing(n / 2);
    }
  }

  lemma XorOnes32(n: U32)
    ensures Xor(n, 0xFFFF_FFFF) == 0xFFFF_FFFF - n && Xor(n, 0) == n
  {
    Pow2Values();
    XorOnes(n, 32);
    XorNothing(n);
  }

  /** Wrapping in 32 bits gives the zigzag of the signed difference. */
  lemma WrappingZigZagAgrees(a: U32, b: U32)
    ensures WrappingZigZag(a, b) == ZigZag(SignedDifference(a, b))
  {
    hide Xor;
    var delta: int := WrappingSub(b, a);
    XorOnes32(2 * delta % 0x1_0000_0000);
  }

  lemma WrappingPrediction(before: F64, previous: F64)
    ensures PredictBits(before, previous) == WrappingSub(2 * Narrow(previous) % 0x1_0000_0000, Narrow(before))
  {
    hide Narrow;
  }

  // ----- running totals -----

  lemma {:induction false} TotalsAppend(values: seq<nat>, v: nat)
    ensures VaruintBytesTotal(values + [v]) == VaruintBytesTotal(values) + VaruintLength(v)
    ensures WidestBits(values + [v]) == Max(WidestBits(values), BitLen(v))
  {
    if values == [] {
      assert [v][1..] == [];
    } else {
      assert (values + [v])[1..] == values[1..] + [v];
      TotalsAppend(values[1..], v);
    }
  }

  /** The bit length of the union is the widest bit length so far. */
  lemma TotalsNext(values: seq<nat>, i: nat, size: nat, union: nat)
    requires i < |values|
    requires size == VaruintBytesTotal(values[..i]) && BitLen(union) == WidestBits(values[..i])
    ensures size + VaruintLength(values[i]) == VaruintBytesTotal(values[..i + 1])
    ensures BitLen(Or(union, values[i])) == WidestBits(values[..i + 1])
  {
    assert values[..i + 1] == values[..i] + [values[i]];
    TotalsAppend(values[..i], values[i]);
    OrBitLen(union, values[i]);
  }

  // ----- collecting the numbers -----

  lemma ExactItem(v: Value, i: nat)
    requires v.Arr? && i < |v.items|
    ensures ExactArray(v) ==> Exact(v.items[i]) && BitsOf(v)[i] == v.items[i].bits
  {
  }

  /** Both arrays as numbers and as binary32 patterns; false when an item is no exact number. */
  method Collect(previous: Value, next: Value, numbers: array<F64>, oldBits: array<U32>, newBits: array<U32>)
    returns (exact: bool, same: bool)
    requires previous.Arr? && next.Arr? && |previous.items| == |next.items| <= LIMIT
    requires numbers.Length == LIMIT && oldBits.Length == LIMIT && newBits.Length == LIMIT && oldBits != newBits
    modifies numbers, oldBits, newBits
    ensures exact <==> ExactArray(previous) && ExactArray(next)
    ensures exact ==>
      && (same <==> Same(previous, next))
      && numbers[..|next.items|] == BitsOf(previous)
      && (forall i :: 0 <= i < |next.items| ==>
          oldBits[i] == Narrow(BitsOf(previous)[i]) && newBits[i] == Narrow(BitsOf(next)[i]))
  {
    hide Narrow, Widen, ExactF32, BitsOf;
    same := true;
    for i := 0 to |next.items|
      invariant forall j :: 0 <= j < i ==> Exact(previous.items[j]) && Exact(next.items[j])
      invariant forall j :: 0 <= j < i ==> numbers[j] == previous.items[j].bits
      invariant forall j :: 0 <= j < i ==>
        oldBits[j] == Narrow(previous.items[j].bits) && newBits[j] == Narrow(next.items[j].bits)
      invariant same <==> forall j :: 0 <= j < i ==> Same(previous.items[j], next.items[j])
    {
      if !Exact(previous.items[i]) || !Exact(next.items[i]) {
        return false, same;
      }
      var a, b := previous.items[i].bits, next.items[i].bits;
      NarrowInjective(a, b);
      numbers[i] := a;
      oldBits[i] := Narrow(a);
      newBits[i] := Narrow(b);
      same := same && oldBits[i] == newBits[i];
    }
    exact := true;
    assert ExactArray(previous) && ExactArray(next);
    forall i | 0 <= i < |next.items|
      ensures BitsOf(previous)[i] == previous.items[i].bits && BitsOf(next)[i] == next.items[i].bits {
      ExactItem(previous, i);
      ExactItem(next, i);
    }
  }

  lemma NarrowInjective(a: F64, b: F64)
    requires ExactF32(a) && ExactF32(b)
    ensures Narrow(a) == Narrow(b) <==> a == b
  {
    hide Narrow, Widen;
  }

  /** The history numbers; false when the tick before last has another shape. */
  method CollectHistory(before: Option<Value>, count: nat, history: array<F64>) returns (use: bool)
    requires count <= LIMIT && history.Length == LIMIT
    modifies history
    ensures use <==> FloatHistory(before, count)
    ensures use ==> history[..count] == BitsOf(before.value)
  {
    hide Narrow, Widen, ExactF32, BitsOf;
    if before.None? || !before.value.Arr? || |before.value.items| != count {
      return false;
    }
    var values := before.value.items;
    for i := 0 to count
      invariant forall j :: 0 <= j < i ==> Exact(values[j]) && history[j] == values[j].bits
    {
      if !Exact(values[i]) {
        return false;
      }
      history[i] := values[i].bits;
    }
    use := true;
    assert ExactArray(before.value);
    forall i | 0 <= i < count ensures BitsOf(before.value)[i] == values[i].bits {
      ExactItem(before.value, i);
    }
  }

  // ----- evaluating the predictors together -----

  /** One residual from the collected patterns. */
  method ResidualOf(mode: Mode, a: F64, oldBits: U32, newBits: U32, history: F64) returns (residual: nat)
    requires oldBits == Narrow(a)
    ensures forall b: F64 :: Narrow(b) == newBits ==> residual == Residual(mode, history, a, b)
  {
    if mode == MODE_XOR {
      residual := Xor(oldBits, newBits);
    } else if mode == MODE_DIFFERENCE {
      residual := WrappingZigZag(oldBits, newBits);
      WrappingZigZagAgrees(oldBits, newBits);
    } else if mode == MODE_BIT_PREDICTION {
      var prediction := WrappingSub(2 * (oldBits as int) % 0x1_0000_0000, Narrow(history));
      WrappingPrediction(history, a);
      residual := WrappingZigZag(prediction, newBits);
      WrappingZigZagAgrees(prediction, newBits);
    } else {
      var prediction := PredictValueBits(history, a);
      residual := WrappingZigZag(prediction, newBits);
      WrappingZigZagAgrees(prediction, newBits);
    }
  }

  /** The residuals, sizes and unions of the modes after the first i items. */
  ghost predicate Evaluated(modes: nat, i: nat, residuals: array2<nat>, sizes: array<nat>, unions: array<nat>,
                            expected: seq<seq<nat>>)
    reads residuals, sizes, unions
    requires modes <= 4 && modes <= |expected| && i <= LIMIT
    requires residuals.Length0 == 4 && residuals.Length1 == LIMIT && sizes.Length == 4 && unions.Length == 4
  {
    forall mode :: 0 <= mode < modes ==>
      && i <= |expected[mode]|
      && (forall j :: 0 <= j < i ==> residuals[mode, j] == expected[mode][j])
      && sizes[mode] == VaruintBytesTotal(expected[mode][..i])
      && BitLen(unions[mode]) == WidestBits(expected[mode][..i])
  }

  /** One item: its residual in every mode, added to the sizes and the unions. */
  method EvaluateItem(modes: nat, i: nat, a: F64, oldBits: U32, newBits: U32, history: F64,
                      residuals: array2<nat>, sizes: array<nat>, unions: array<nat>, ghost expected: seq<seq<nat>>)
    requires modes <= 4 && modes <= |expected| && i < LIMIT
    requires residuals.Length0 == 4 && residuals.Length1 == LIMIT && sizes.Length == 4 && unions.Length == 4
    requires sizes != unions
    requires oldBits == Narrow(a)
    requires forall mode :: 0 <= mode < modes ==> i < |expected[mode]|
    requires forall mode: nat, b: F64 :: mode < modes && Narrow(b) == newBits ==>
      expected[mode][i] == Residual(mode, history, a, b)
    requires exists b: F64 :: Narrow(b) == newBits
    requires Evaluated(modes, i, residuals, sizes, unions, expected)
    modifies residuals, sizes, unions
    ensures Evaluated(modes, i + 1, residuals, sizes, unions, expected)
  {
    hide Narrow, Residual, VaruintBytesTotal, WidestBits, BitLen, Or, VaruintLength;
    ghost var b: F64 :| Narrow(b) == newBits;
    for mode := 0 to modes
      invariant Evaluated(mode, i + 1, residuals, sizes, unions, expected)
      invariant forall m :: mode <= m < modes ==>
        && (forall j :: 0 <= j < i ==> residuals[m, j] == expected[m][j])
        && sizes[m] == VaruintBytesTotal(expected[m][..i])
        && BitLen(unions[m]) == WidestBits(expected[m][..i])
    {
      var residual := ResidualOf(mode, a, oldBits, newBits, history);
      assert residual == Residual(mode, history, a, b) == expected[mode][i];
      TotalsNext(expected[mode], i, sizes[mode], unions[mode]);
      residuals[mode, i] := residual;
      sizes[mode] := sizes[mode] + VaruintLength(residual);
      unions[mode] := Or(unions[mode], residual);
    }
  }

  /** The residuals of every mode offered, as the reference defines them. */
  ghost function Expected(previous: Value, next: Value, before: Option<Value>): (e: seq<seq<nat>>)
    requires FloatArrays(previous, next)
    ensures |e| == Offered(before, |next.items|) <= 4
    ensures forall m :: 0 <= m < |e| ==> e[m] == FloatResiduals(m, previous, next, before) && |e[m]| == |next.items|
  {
    seq(Offered(before, |next.items|), m requires 0 <= m < 4 => FloatResiduals(m, previous, next, before))
  }

  lemma ExpectedAt(previous: Value, next: Value, before: Option<Value>, mode: nat, i: nat, history: F64, b: F64)
    requires FloatArrays(previous, next) && mode < |Expected(previous, next, before)| && i < |next.items|
    requires FloatHistory(before, |next.items|) ==> history == BitsOf(before.value)[i]
    requires Narrow(b) == Narrow(BitsOf(next)[i])
    ensures Expected(previous, next, before)[mode][i] == Residual(mode, history, BitsOf(previous)[i], b)
  {
    hide Narrow, Prediction, ResidualFrom, ExactF32;
    assert Expected(previous, next, before)[mode][i]
      == Residual(mode, HistoryBits(before, previous)[i], BitsOf(previous)[i], BitsOf(next)[i]);
    assert Residual(mode, history, BitsOf(previous)[i], b)
      == Residual(mode, history, BitsOf(previous)[i], BitsOf(next)[i]);
    if mode < 2 {
      ResidualIgnoresHistory(mode, history, HistoryBits(before, previous)[i], BitsOf(previous)[i], b);
    }
  }

  /** The collected arrays hold the numbers, the patterns and the history. */
  ghost predicate Collected(previous: Value, next: Value, before: Option<Value>, numbers: array<F64>,
                            oldBits: array<U32>, newBits: array<U32>, history: array<F64>)
    reads numbers, oldBits, newBits, history
    requires FloatArrays(previous, next) && |next.items| <= LIMIT
    requires numbers.Length == LIMIT && oldBits.Length == LIMIT && newBits.Length == LIMIT && history.Length == LIMIT
  {
    forall i :: 0 <= i < |next.items| ==>
      && numbers[i] == BitsOf(previous)[i]
      && oldBits[i] == Narrow(BitsOf(previous)[i])
      && newBits[i] == Narrow(BitsOf(next)[i])
      && (FloatHistory(before, |next.items|) ==> history[i] == BitsOf(before.value)[i])
  }

  lemma CollectedAt(previous: Value, next: Value, before: Option<Value>, numbers: array<F64>, oldBits: array<U32>,
                    newBits: array<U32>, history: array<F64>, i: nat)
    requires FloatArrays(previous, next) && |next.items| <= LIMIT && i < |next.items|
    requires numbers.Length == LIMIT && oldBits.Length == LIMIT && newBits.Length == LIMIT && history.Length == LIMIT
    requires Collected(previous, next, before, numbers, oldBits, newBits, history)
    ensures oldBits[i] == Narrow(numbers[i]) && (exists b: F64 :: Narrow(b) == newBits[i])
    ensures forall mode: nat, b: F64 :: mode < |Expected(previous, next, before)| && Narrow(b) == newBits[i] ==>
      Expected(previous, next, before)[mode][i] == Residual(mode, history[i], numbers[i], b)
  {
    hide Narrow, Residual, FloatArrays, FloatHistory, BitsOf, Expected;
    FloatArraysLength(previous, next);
    forall mode: nat, b: F64 | mode < |Expected(previous, next, before)| && Narrow(b) == newBits[i]
      ensures Expected(previous, next, before)[mode][i] == Residual(mode, history[i], numbers[i], b)
    {
      ExpectedAt(previous, next, before, mode, i, history[i], b);
    }
    assert Narrow(BitsOf(next)[i]) == newBits[i];
  }

  method EvaluateAll(previous: Value, next: Value, before: Option<Value>, modes: nat,
                     numbers: array<F64>, oldBits: array<U32>, newBits: array<U32>, history: array<F64>,
                     residuals: array2<nat>, sizes: array<nat>, unions: array<nat>)
    requires FloatArrays(previous, next) && |next.items| <= LIMIT && modes == Offered(before, |next.items|)
    requires numbers.Length == LIMIT && oldBits.Length == LIMIT && newBits.Length == LIMIT && history.Length == LIMIT
    requires residuals.Length0 == 4 && residuals.Length1 == LIMIT && sizes.Length == 4 && unions.Length == 4
    requires sizes != unions
    requires Collected(previous, next, before, numbers, oldBits, newBits, history)
    requires forall mode :: 0 <= mode < 4 ==> sizes[mode] == 0 && unions[mode] == 0
    modifies residuals, sizes, unions
    ensures Evaluated(modes, |next.items|, residuals, sizes, unions, Expected(previous, next, before))
  {
    hide *;
    FloatArraysLength(previous, next);
    ghost var expected := Expected(previous, next, before);
    StartEvaluation(modes, residuals, sizes, unions, expected);
    for i := 0 to |next.items|
      invariant Collected(previous, next, before, numbers, oldBits, newBits, history)
      invariant Evaluated(modes, i, residuals, sizes, unions, expected)
    {
      CollectedAt(previous, next, before, numbers, oldBits, newBits, history, i);
      EvaluateItem(modes, i, numbers[i], oldBits[i], newBits[i], history[i], residuals, sizes, unions, expected);
    }
  }

  lemma StartEvaluation(modes: nat, residuals: array2<nat>, sizes: array<nat>, unions: array<nat>,
                        expected: seq<seq<nat>>)
    requires modes <= 4 && modes <= |expected|
    requires residuals.Length0 == 4 && residuals.Length1 == LIMIT && sizes.Length == 4 && unions.Length == 4
    requires forall mode :: 0 <= mode < 4 ==> sizes[mode] == 0 && unions[mode] == 0
    ensures Evaluated(modes, 0, residuals, sizes, unions, expected)
  {
  }

  // ----- choosing and writing -----

  /** The candidate of an evaluated mode; the cost rule in integers. */
  method CandidateOf(mode: Mode, count: nat, size: nat, union: nat, ghost residuals: seq<nat>) returns (c: Candidate)
    requires |residuals| == count && size == VaruintBytesTotal(residuals) && BitLen(union) == WidestBits(residuals)
    ensures c == CandidateFor(mode, residuals)
  {
    var bitWidth := BitLen(union);
    var packed := 2 + (bitWidth * count + 7) / 8;
    assert packed == 2 + PackedLength(count, bitWidth);
    if packed * 4 <= size * 3 {
      c := Candidate(mode, true, bitWidth, packed);
    } else {
      c := Candidate(mode, false, bitWidth, size);
    }
  }

  method SelectEvaluated(previous: Value, next: Value, before: Option<Value>, modes: nat,
                         residuals: array2<nat>, sizes: array<nat>, unions: array<nat>) returns (selected: Candidate)
    requires FloatArrays(previous, next) && |next.items| <= LIMIT && modes == Offered(before, |next.items|)
    requires residuals.Length0 == 4 && residuals.Length1 == LIMIT && sizes.Length == 4 && unions.Length == 4
    requires Evaluated(modes, |next.items|, residuals, sizes, unions, Expected(previous, next, before))
    ensures selected == FloatChoice(previous, next, before)
  {
    hide FloatArrays, FloatHistory, FloatChoice, FloatResiduals, FloatCandidates, CandidateFor, Cheapest,
      VaruintBytesTotal, WidestBits, BitLen, BitsOf, Expected, Pick;
    FloatChoiceParts(previous, next, before);
    FloatArraysLength(previous, next);
    ghost var expected, candidates := Expected(previous, next, before), FloatCandidates(previous, next, before);
    assert forall m :: 0 <= m < modes ==> expected[m][..|next.items|] == expected[m];
    CheapestScan(candidates, 0);
    selected := CandidateOf(0, |next.items|, sizes[0], unions[0], expected[0]);
    for mode := 1 to modes
      invariant selected == Cheapest(candidates[..mode])
    {
      CheapestScan(candidates, mode);
      var candidate := CandidateOf(mode, |next.items|, sizes[mode], unions[mode], expected[mode]);
      PickParts(selected, candidate);
      if candidate.bytes < selected.bytes {
        selected := candidate;
      }
    }
  }

  lemma FloatsHandled(previous: Value, next: Value, before: Option<Value>)
    requires WellFormed(next) && FloatArrays(previous, next)
    ensures DeltaOps(Some(previous), next, before) == if Same(previous, next) then [Byte(DELTA_SAME)]
      else FloatArrayOps(previous, next, before)
  {
    hide FloatArrays, FloatArrayOps;
    FloatArraysLength(previous, next);
  }

  lemma NotFloats(previous: Value, next: Value)
    ensures FloatArrays(previous, next) <==>
      previous.Arr? && next.Arr? && |previous.items| == |next.items| > 0 && ExactArray(previous) && ExactArray(next)
  {
  }

  /** The payload for the selected mode, taken from the evaluated residuals. */
  method WriteSelected(writer: BinaryWriter, c: Candidate, values: seq<nat>, ghost ops: seq<Op>) returns (a: Attempt)
    requires writer.Valid() && c.width <= 32 && (c.packed ==> Fits(values, c.width))
    requires ops == [Byte(KindOf(c))] + if c.packed
      then [Byte(c.mode)] + ([Byte(c.width)] + [Raw(PackedBytes(values, c.width))]) else VaruintOps(values)
    modifies writer
    ensures writer.Valid()
    ensures a.Done? ==> writer.calls == old(writer.calls) + ops
    ensures a.Raised? ==> !Safe([], old(writer.calls) + ops)
  {
    hide *;
    ghost var goal := writer.calls + ops;
    if c.packed {
      Next(writer.calls, [Byte(KindOf(c))], [Byte(c.mode)] + ([Byte(c.width)] + [Raw(PackedBytes(values, c.width))]),
           goal);
      writer.Byte(KindOf(c));
      Next(writer.calls, [Byte(c.mode)], [Byte(c.width)] + [Raw(PackedBytes(values, c.width))], goal);
      writer.Byte(c.mode);
      Next(writer.calls, [Byte(c.width)], [Raw(PackedBytes(values, c.width))], goal);
      writer.Byte(c.width);
      WritePacked(writer, values, c.width);
      a := Done;
    } else {
      Next(writer.calls, [Byte(KindOf(c))], VaruintOps(values), goal);
      writer.Byte(KindOf(c));
      a := WriteVaruints(writer, values);
    }
  }

  /** The row of the selected mode is its residuals. */
  lemma SelectedRow(previous: Value, next: Value, before: Option<Value>, modes: nat, residuals: array2<nat>,
                    sizes: array<nat>, unions: array<nat>, row: seq<nat>)
    requires FloatArrays(previous, next) && |next.items| <= LIMIT && modes == Offered(before, |next.items|)
    requires residuals.Length0 == 4 && residuals.Length1 == LIMIT && sizes.Length == 4 && unions.Length == 4
    requires Evaluated(modes, |next.items|, residuals, sizes, unions, Expected(previous, next, before))
    requires |row| == |next.items|
    requires forall j :: 0 <= j < |row| ==> row[j] == residuals[FloatChoice(previous, next, before).mode, j]
    ensures row == FloatResiduals(FloatChoice(previous, next, before).mode, previous, next, before)
  {
    hide FloatArrays, FloatChoice, FloatResiduals, VaruintBytesTotal, WidestBits, BitLen;
    ChosenIsOffered(previous, next, before);
  }

  lemma ChosenIsOffered(previous: Value, next: Value, before: Option<Value>)
    requires FloatArrays(previous, next)
    ensures FloatChoice(previous, next, before).mode < Offered(before, |next.items|)
  {
    CheapestFacts(Offered(before, |next.items|), HistoryBits(before, previous), BitsOf(previous), BitsOf(next));
  }

  /** Evaluation, selection and output for changed arrays. */
  method WriteChanged(writer: BinaryWriter, previous: Value, next: Value, before: Option<Value>,
                      numbers: array<F64>, oldBits: array<U32>, newBits: array<U32>, history: array<F64>,
                        useHistory: bool) returns (a: Attempt)
    requires writer.Valid() && FloatArrays(previous, next) && |next.items| <= LIMIT
    requires useHistory <==> FloatHistory(before, |next.items|)
    requires numbers.Length == LIMIT && oldBits.Length == LIMIT && newBits.Length == LIMIT && history.Length == LIMIT
    requires Collected(previous, next, before, numbers, oldBits, newBits, history)
    modifies writer
    ensures writer.Valid()
    ensures a.Done? ==> writer.calls == old(writer.calls) + FloatArrayOps(previous, next, before)
    ensures a.Raised? ==> !Safe([], old(writer.calls) + FloatArrayOps(previous, next, before))
  {
    var modes := if useHistory then 4 else 2;
    assert modes == Offered(before, |next.items|);
    FloatArraysLength(previous, next);
    hide *;
    var residuals := new nat[4, LIMIT]((_, _) => 0);
    var sizes := new nat[4](_ => 0);
    var unions := new nat[4](_ => 0);
    EvaluateAll(previous, next, before, modes, numbers, oldBits, newBits, history, residuals, sizes, unions);
    var c := SelectEvaluated(previous, next, before, modes, residuals, sizes, unions);
    ChosenIsOffered(previous, next, before);
    var values := seq(|next.items|, j requires 0 <= j < LIMIT reads residuals => residuals[c.mode, j]);
    SelectedRow(previous, next, before, modes, residuals, sizes, unions, values);
    FloatOpsShape(previous, next, before);
    a := WriteSelected(writer, c, values, FloatArrayOps(previous, next, before));
  }

  /** Handles exactly the pairs of equally long arrays of 1 to 64 exact float32 numbers, with
      the calls of the reference; leaves every other pair and the writer alone. */
  method Write(writer: BinaryWriter, previous: Option<Value>, next: Value, before: Option<Value>)
    returns (handled: bool, a: Attempt)
    requires writer.Valid() && WellFormed(next)
    modifies writer
    ensures writer.Valid()
    ensures handled <==> previous.Some? && FloatArrays(previous.value, next) && |next.items| <= 64
    ensures !handled ==> a.Done? && writer.calls == old(writer.calls)
    ensures handled && a.Done? ==> writer.calls == old(writer.calls) + DeltaOps(previous, next, before)
    ensures handled && a.Raised? ==> !Safe([], old(writer.calls) + DeltaOps(previous, next, before))
  {
    hide Same, DeltaOps, FloatArrays, ExactArray, FloatArrayOps, Safe, BitsOf, Narrow, WellFormed, FloatHistory;
    handled, a := false, Done;
    if previous.None? || !previous.value.Arr? || !next.Arr? {
      if previous.Some? {
        NotFloats(previous.value, next);
      }
      return;
    }
    NotFloats(previous.value, next);
    var count := |next.items|;
    if count == 0 || count > LIMIT || |previous.value.items| != count {
      return;
    }
    var numbers := new F64[LIMIT](_ => 0);
    var oldBits := new U32[LIMIT](_ => 0);
    var newBits := new U32[LIMIT](_ => 0);
    var exact, same := Collect(previous.value, next, numbers, oldBits, newBits);
    if !exact {
      return;
    }
    handled := true;
    FloatsHandled(previous.value, next, before);
    if same {
      writer.Byte(DELTA_SAME);
      return;
    }
    var history := new F64[LIMIT](_ => 0);
    var useHistory := CollectHistory(before, count, history);
    assert Collected(previous.value, next, before, numbers, oldBits, newBits, history) by {
      assert numbers[..count] == BitsOf(previous.value);
    }
    a := WriteChanged(writer, previous.value, next, before, numbers, oldBits, newBits, history, useHistory);
  }
}
