/** The two-stage Python encoder: a delta tree is built first and written afterwards. */
module PythonDelta {
  import opened Base
  import Floats
  import opened Values
  import opened Wire
  import opened Packing
  import opened Residuals
  import opened Delta
  import opened Decode
  import opened DeltaRoundTrip
  import opened PythonNarrowing

  /** The tree create_replay_delta returns; Keep stands for None. */
  datatype Step =
    | Keep
    | NumberStep(number: F64)
    | ReplaceStep(value: Value)
    | FloatArrayStep(kind: byte, mode: Mode, width: nat, values: Value, residuals: seq<nat>)
    | DenseStep(steps: seq<Step>)
    | ArrayStep(length: nat, items: seq<ItemChange>)
    | ObjectStep(deletions: seq<string>, members: seq<MemberChange>)

  datatype ItemChange = ItemChange(index: nat, step: Step)
  datatype MemberChange = MemberChange(key: string, step: Step)

  // ----- selection by a stable sort -----

  /** The cost rule as written, with its factor of three quarters. */
  function PythonCandidate(mode: Mode, residuals: seq<nat>): Candidate {
    var varint := VaruintBytesTotal(residuals);
    var width := WidestBits(residuals);
    var packed := 2 + PackedLength(|residuals|, width);
    if AtMostThreeQuarters(packed, varint) then Candidate(mode, true, width, packed)
    else Candidate(mode, false, width, varint)
  }

  /** Put an element before everything that is not cheaper than it. */
  function InsertStable(c: Candidate, sorted: seq<Candidate>): seq<Candidate> {
    if sorted == [] || c.bytes <= sorted[0].bytes then [c] + sorted
    else [sorted[0]] + InsertStable(c, sorted[1..])
  }

  /** candidates.sort(key=bytes): ascending, equal keys in their original order. */
  function SortStable(candidates: seq<Candidate>): (sorted: seq<Candidate>)
    ensures |sorted| == |candidates|
  {
    if candidates == [] then [] else
      InsertLength(candidates[0], SortStable(candidates[1..]));
      InsertStable(candidates[0], SortStable(candidates[1..]))
  }

  lemma {:induction false} InsertLength(c: Candidate, sorted: seq<Candidate>)
    ensures |InsertStable(c, sorted)| == |sorted| + 1
  {
    if !(sorted == [] || c.bytes <= sorted[0].bytes) {
      InsertLength(c, sorted[1..]);
    }
  }

  /** The head of the sorted list is the first minimum. */
  lemma {:induction false} SortedHead(candidates: seq<Candidate>)
    requires candidates != []
    ensures exists i: nat :: FirstMinimum(candidates, i) && SortStable(candidates)[0] == candidates[i]
  {
    if |candidates| == 1 {
      assert candidates[1..] == [];
      assert FirstMinimum(candidates, 0);
    } else {
      var rest := candidates[1..];
      SortedHead(rest);
      var k: nat :| FirstMinimum(rest, k) && SortStable(rest)[0] == rest[k];
      assert forall j :: 0 < j < |candidates| ==> candidates[j] == rest[j - 1];
      if candidates[0].bytes <= rest[k].bytes {
        assert FirstMinimum(candidates, 0);
      } else {
        assert FirstMinimum(candidates, k + 1) by {
          assert candidates[k + 1] == rest[k];
        }
      }
    }
  }

  lemma FirstMinimumUnique(candidates: seq<Candidate>, i: nat, j: nat)
    requires FirstMinimum(candidates, i) && FirstMinimum(candidates, j)
    ensures i == j
  {
    assert candidates[i].bytes <= candidates[j].bytes && candidates[j].bytes <= candidates[i].bytes;
  }

  /** Sorting and taking the head selects what the scan for a strictly cheaper one selects. */
  lemma SortSelectsCheapest(candidates: seq<Candidate>)
    requires candidates != []
    ensures SortStable(candidates)[0] == Cheapest(candidates)
  {
    SortedHead(candidates);
    var i: nat :| FirstMinimum(candidates, i) && SortStable(candidates)[0] == candidates[i];
    var j := CheapestIsFirstMinimum(candidates);
    FirstMinimumUnique(candidates, i, j);
  }

  // ----- building the tree -----

  /** Equality of scalars; two containers are never equal here. The source also accepts two
      references to one container, which changes nothing: equal containers give Keep below. */
  predicate SameScalar(a: Value, b: Value) {
    !a.Arr? && !a.Obj? && a == b
  }

  function CreateFloats(previous: Value, next: Value, before: Option<Value>): Step
    requires FloatArrays(previous, next)
  {
    if forall i :: 0 <= i < |next.items| ==> SameScalar(next.items[i], previous.items[i]) then Keep
    else
      var offered := Offered(before, |next.items|);
      var candidates := seq(offered,
                            m requires 0 <= m < offered => PythonCandidate(m,
                                FloatResiduals(m, previous, next, before)));
      var c := SortStable(candidates)[0];
      FloatArrayStep(KindOf(c), c.mode, c.width, next, FloatResiduals(c.mode, previous, next, before))
  }

  function Create(previous: Option<Value>, next: Value, before: Option<Value>): Step
    requires WellFormed(next)
    decreases next, 1, 0
  {
    if previous.None? then ReplaceStep(next)
    else if SameScalar(previous.value, next) then Keep
    else if previous.value.Num? && next.Num? then NumberStep(next.bits)
    else if previous.value.Arr? && next.Arr? then
      if FloatArrays(previous.value, next) then CreateFloats(previous.value, next, before)
      else
        var steps := CreateItems(previous.value, next, before, 0);
        var changes := ItemChanges(previous.value, next, before, 0);
        if |previous.value.items| == |next.items| && changes == [] then Keep
        else if |previous.value.items| == |next.items|
          && |changes| as real > |next.items| as real / 2.0 then DenseStep(steps)
        else ArrayStep(|next.items|, changes)
    else if previous.value.Obj? && next.Obj? then
      var deletions := Deleted(previous.value.keys, next.vals);
      var changes := MemberChanges(previous.value, next, before, 0);
      if deletions == [] && changes == [] then Keep else ObjectStep(deletions, changes)
    else ReplaceStep(next)
  }

  function CreateItems(previous: Value, next: Value, before: Option<Value>, i: nat): seq<Step>
    requires WellFormed(next) && next.Arr? && i <= |next.items|
    decreases next, 0, |next.items| - i
  {
    if i == |next.items| then []
    else
      [Create(Element(Some(previous), i), next.items[i], Element(before, i))]
      + CreateItems(previous, next, before, i + 1)
  }

  function ItemChanges(previous: Value, next: Value, before: Option<Value>, i: nat): seq<ItemChange>
    requires WellFormed(next) && next.Arr? && i <= |next.items|
    decreases next, 0, |next.items| - i
  {
    if i == |next.items| then []
    else
      var step := Create(Element(Some(previous), i), next.items[i], Element(before, i));
      (if step.Keep? then [] else [ItemChange(i, step)]) + ItemChanges(previous, next, before, i + 1)
  }

  function MemberChanges(previous: Value, next: Value, before: Option<Value>, i: nat): seq<MemberChange>
    requires WellFormed(next) && next.Obj? && i <= |next.keys|
    decreases next, 0, |next.keys| - i
  {
    if i == |next.keys| then []
    else
      var key := next.keys[i];
      var step := Create(Member(Some(previous), key), next.vals[key], Member(before, key));
      (if step.Keep? then [] else [MemberChange(key, step)]) + MemberChanges(previous, next, before, i + 1)
  }

  // ----- writing the tree; none when the writer raises -----

  ghost function WriteFloats(previous: Value, step: Step, before: Option<Value>): Option<seq<Op>>
    requires step.FloatArrayStep? && FloatArrays(previous, step.values)
  {
    if step.kind == DENSE_FLOAT32_BITPACKED then
      if step.width >= 256 then None
      else Some([Byte(step.kind), Byte(step.mode), Byte(step.width), Raw(PackedBytes(step.residuals, step.width))])
    else
      match WriteResiduals(ModeOfTag(step.kind), HistoryBits(before, previous), BitsOf(previous),
                           BitsOf(step.values), 0)
      case None => None
      case Some(residuals) => Some([Byte(step.kind)] + VaruintOps(residuals))
  }

  ghost function WriteStep(previous: Option<Value>, step: Step, before: Option<Value>): Option<seq<Op>>
    decreases step, 1, 0
  {
    match step
    case Keep => Some([Byte(DELTA_SAME)])
    case NumberStep(value) =>
      if previous.Some? && previous.value.Num? then WriteNumberDelta(previous.value.bits, value, before) else None
    case ReplaceStep(value) => if WellFormed(value) then Then(Some([Byte(DELTA_REPLACE)]), WriteValue(value)) else None
    case FloatArrayStep(_, _, _, values, _) =>
      if previous.Some? && FloatArrays(previous.value, values) then WriteFloats(previous.value, step, before) else None
    case DenseStep(steps) => Then(Some([Byte(DELTA_DENSE_ARRAY)]), WriteDense(previous, step, before, 0))
    case ArrayStep(length, items) =>
      Then(Some([Byte(DELTA_ARRAY), Varuint(length), Varuint(|items|)]), WriteItems(previous, step, before, 0))
    case ObjectStep(deletions, members) =>
      Then(Some([Byte(DELTA_OBJECT), Varuint(|deletions|)] + TextOps(deletions)),
        Then(Some([Varuint(|members|)]), WriteMembers(previous, step, before, 0)))
  }

  ghost function WriteDense(previous: Option<Value>, step: Step, before: Option<Value>, i: nat): Option<seq<Op>>
    requires step.DenseStep? && i <= |step.steps|
    decreases step, 0, |step.steps| - i
  {
    if i == |step.steps| then Some([])
    else
      match DenseHistory(PYTHON, before, i)
      case Err(_) => None
      case Ok(history) => Then(WriteStep(Element(previous, i), step.steps[i], history),
                               WriteDense(previous, step, before, i + 1))
  }

  ghost function WriteItems(previous: Option<Value>, step: Step, before: Option<Value>, i: nat): Option<seq<Op>>
    requires step.ArrayStep? && i <= |step.items|
    decreases step, 0, |step.items| - i
  {
    if i == |step.items| then Some([])
    else
      var index := step.items[i].index;
      Then(Then(Some([Varuint(index)]),
                WriteStep(Element(previous, index), step.items[i].step, Element(before, index))),
        WriteItems(previous, step, before, i + 1))
  }

  ghost function WriteMembers(previous: Option<Value>, step: Step, before: Option<Value>, i: nat): Option<seq<Op>>
    requires step.ObjectStep? && i <= |step.members|
    decreases step, 0, |step.members| - i
  {
    if i == |step.members| then Some([])
    else
      var key := step.members[i].key;
      Then(Then(Some([Text(key)]), WriteStep(Member(previous, key), step.members[i].step, Member(before, key))),
        WriteMembers(previous, step, before, i + 1))
  }

  // ----- the tree is empty exactly on deep equality -----

  lemma SameScalarIsSame(a: Value, b: Value)
    ensures SameScalar(a, b) ==> Same(a, b)
    ensures Same(a, b) && !(a.Arr? && b.Arr?) && !(a.Obj? && b.Obj?) ==> SameScalar(a, b)
  {
  }

  /** create_replay_delta returns None exactly when the two values are deeply equal. */
  lemma {:induction false} KeepIsSame(previous: Option<Value>, next: Value, before: Option<Value>)
    requires WellFormed(next) && WellFormedOption(previous)
    ensures Create(previous, next, before).Keep? <==> !Changed(previous, next)
    decreases next, 1, 0
  {
    if previous.Some? {
      SameScalarIsSame(previous.value, next);
      if previous.value.Arr? && next.Arr? {
        if FloatArrays(previous.value, next) {
          KeepFloats(previous.value, next, before);
        } else {
          ItemChangesCount(previous.value, next, before, 0);
          NoItemChanged(previous.value, next, 0);
        }
      } else if previous.value.Obj? && next.Obj? {
        MemberChangesCount(previous.value, next, before, 0);
        NoMemberChanged(previous.value, next);
      }
    }
  }

  lemma KeepFloats(previous: Value, next: Value, before: Option<Value>)
    requires FloatArrays(previous, next)
    ensures CreateFloats(previous, next, before).Keep? <==> Same(previous, next)
  {
    forall i | 0 <= i < |next.items|
      ensures SameScalar(next.items[i], previous.items[i]) <==> Same(previous.items[i], next.items[i]) {
      assert Exact(previous.items[i]) && Exact(next.items[i]);
    }
  }

  lemma {:induction false} ItemChangesCount(previous: Value, next: Value, before: Option<Value>, i: nat)
    requires WellFormed(next) && WellFormed(previous) && previous.Arr? && next.Arr? && i <= |next.items|
    ensures |ItemChanges(previous, next, before, i)| == ChangedItems(previous, next, i)
    decreases next, 0, |next.items| - i
  {
    if i < |next.items| {
      KeepIsSame(Element(Some(previous), i), next.items[i], Element(before, i));
      ItemChangesCount(previous, next, before, i + 1);
    }
  }

  lemma {:induction false} NoItemChanged(previous: Value, next: Value, i: nat)
    requires next.Arr? && i <= |next.items|
    ensures ChangedItems(previous, next, i) == 0 <==>
      forall j :: i <= j < |next.items| ==> !Changed(Element(Some(previous), j), next.items[j])
    decreases |next.items| - i
  {
    if i < |next.items| {
      NoItemChanged(previous, next, i + 1);
    }
  }

  lemma {:induction false} MemberChangesCount(previous: Value, next: Value, before: Option<Value>, i: nat)
    requires WellFormed(next) && WellFormed(previous) && previous.Obj? && next.Obj? && i <= |next.keys|
    ensures |MemberChanges(previous, next, before, i)| == ChangedMembers(previous, next, i)
    decreases next, 0, |next.keys| - i
  {
    if i < |next.keys| {
      var key := next.keys[i];
      assert key in next.vals;
      KeepIsSame(Member(Some(previous), key), next.vals[key], Member(before, key));
      MemberChangesCount(previous, next, before, i + 1);
    }
  }

  lemma {:induction false} NoMemberFrom(previous: Value, next: Value, i: nat)
    requires next.Obj? && Ordered(next.keys, next.vals) && i <= |next.keys|
    ensures ChangedMembers(previous, next, i) == 0 <==>
      forall j :: i <= j < |next.keys| ==> !Changed(Member(Some(previous), next.keys[j]), next.vals[next.keys[j]])
    decreases |next.keys| - i
  {
    if i < |next.keys| {
      NoMemberFrom(previous, next, i + 1);
    }
  }

  lemma NoMemberChanged(previous: Value, next: Value)
    requires WellFormed(previous) && WellFormed(next) && previous.Obj? && next.Obj?
    ensures Deleted(previous.keys, next.vals) == [] && ChangedMembers(previous, next, 0) == 0 <==> Same(previous, next)
  {
    DeletedFacts(previous.keys, next.vals);
    NoMemberFrom(previous, next, 0);
    if Deleted(previous.keys, next.vals) == [] && ChangedMembers(previous, next, 0) == 0 {
      UnchangedIsSame(previous, next);
    }
    if Same(previous, next) {
      SameIsUnchanged(previous, next);
    }
  }

  lemma UnchangedIsSame(previous: Value, next: Value)
    requires WellFormed(previous) && WellFormed(next) && previous.Obj? && next.Obj?
    requires forall k :: k in previous.keys ==> k in next.vals
    requires forall j :: 0 <= j < |next.keys| ==>
      !Changed(Member(Some(previous), next.keys[j]), next.vals[next.keys[j]])
    ensures Same(previous, next)
  {
    forall k | k in next.vals ensures k in previous.vals && Same(previous.vals[k], next.vals[k]) {
      assert k in next.keys;
      var j :| 0 <= j < |next.keys| && next.keys[j] == k;
      assert !Changed(Member(Some(previous), next.keys[j]), next.vals[next.keys[j]]);
    }
    forall k | k in previous.vals ensures k in next.vals {
      assert k in previous.keys;
    }
  }

  lemma HeadIsMember(s: seq<string>)
    ensures s == [] || exists k :: k in s
  {
    assert s == [] || s[0] in s;
  }

  lemma SameIsUnchanged(previous: Value, next: Value)
    requires WellFormed(previous) && WellFormed(next) && previous.Obj? && next.Obj? && Same(previous, next)
    ensures Deleted(previous.keys, next.vals) == [] && ChangedMembers(previous, next, 0) == 0
  {
    DeletedFacts(previous.keys, next.vals);
    var deleted := Deleted(previous.keys, next.vals);
    forall k ensures k !in deleted {
      assert k in previous.keys <==> k in previous.vals;
    }
    HeadIsMember(deleted);
    NoMemberFrom(previous, next, 0);
    forall j | 0 <= j < |next.keys| ensures !Changed(Member(Some(previous), next.keys[j]), next.vals[next.keys[j]]) {
      assert next.keys[j] in next.vals;
    }
  }

  // ----- writing the tree makes the calls of the one-stage writer -----

  /** Writing the created tree does not raise: neither on a number narrowed there, nor on the
      history of a dense array, which is indexed without a test of its length. */
  predicate Writes(previous: Option<Value>, next: Value, before: Option<Value>)
    decreases next
  {
    if previous.None? then Writable(next)
    else if !Changed(previous, next) then true
    else
      match (previous.value, next)
      case (Num(p), Num(n)) => NumberNarrows(p, n, before)
      case (Arr(_), Arr(items)) =>
        FloatArrays(previous.value, next)
        || forall i :: 0 <= i < |items| && (Dense(previous.value, next) || Changed(Element(previous, i), items[i])) ==>
             && (Dense(previous.value, next) ==> DenseHistory(PYTHON, before, i).Ok?)
             && Writes(Element(previous, i), items[i], Element(before, i))
      case (Obj(_, _), Obj(_, vals)) =>
        forall k :: k in vals && Changed(Member(previous, k), vals[k]) ==>
          Writes(Member(previous, k), vals[k], Member(before, k))
      case _ => Writable(next)
  }

  predicate DenseWrites(previous: Value, next: Value, before: Option<Value>, i: nat)
    requires next.Arr?
  {
    forall j :: i <= j < |next.items| ==>
      DenseHistory(PYTHON, before, j).Ok? && Writes(Element(Some(previous), j), next.items[j], Element(before, j))
  }

  lemma DenseWritesCons(previous: Value, next: Value, before: Option<Value>, i: nat)
    requires next.Arr? && i < |next.items|
    ensures DenseWrites(previous, next, before, i) <==>
      && DenseHistory(PYTHON, before, i).Ok?
      && Writes(Element(Some(previous), i), next.items[i], Element(before, i))
      && DenseWrites(previous, next, before, i + 1)
  {
    hide Writes, DenseHistory;
  }

  predicate SparseWrites(previous: Value, next: Value, before: Option<Value>, i: nat)
    requires next.Arr?
  {
    forall j :: i <= j < |next.items| && Changed(Element(Some(previous), j), next.items[j]) ==>
      Writes(Element(Some(previous), j), next.items[j], Element(before, j))
  }

  lemma SparseWritesCons(previous: Value, next: Value, before: Option<Value>, i: nat)
    requires next.Arr? && i < |next.items|
    ensures SparseWrites(previous, next, before, i) <==>
      && (Changed(Element(Some(previous), i), next.items[i]) ==>
          Writes(Element(Some(previous), i), next.items[i], Element(before, i)))
      && SparseWrites(previous, next, before, i + 1)
  {
    hide Writes, Changed;
  }

  predicate MembersWrites(previous: Value, next: Value, before: Option<Value>, i: nat)
    requires next.Obj? && Ordered(next.keys, next.vals)
  {
    forall j :: i <= j < |next.keys| && Changed(Member(Some(previous), next.keys[j]), next.vals[next.keys[j]]) ==>
      Writes(Member(Some(previous), next.keys[j]), next.vals[next.keys[j]], Member(before, next.keys[j]))
  }

  lemma MembersWritesCons(previous: Value, next: Value, before: Option<Value>, i: nat)
    requires next.Obj? && WellFormed(next) && i < |next.keys|
    ensures next.keys[i] in next.vals && WellFormed(next.vals[next.keys[i]]) && Ordered(next.keys, next.vals)
    ensures MembersWrites(previous, next, before, i) <==>
      && (Changed(Member(Some(previous), next.keys[i]), next.vals[next.keys[i]]) ==>
        Writes(Member(Some(previous), next.keys[i]), next.vals[next.keys[i]], Member(before, next.keys[i])))
      && MembersWrites(previous, next, before, i + 1)
  {
    hide Writes, Changed;
  }

  lemma DenseWritesShape(previous: Value, next: Value, before: Option<Value>)
    requires previous.Arr? && next.Arr? && Changed(Some(previous), next) && !FloatArrays(previous, next)
    requires Dense(previous, next)
    ensures Writes(Some(previous), next, before) == DenseWrites(previous, next, before, 0)
  {
    hide Changed, FloatArrays, Dense, Element, DenseHistory;
  }

  lemma SparseWritesShape(previous: Value, next: Value, before: Option<Value>)
    requires previous.Arr? && next.Arr? && Changed(Some(previous), next) && !FloatArrays(previous, next)
    requires !Dense(previous, next)
    ensures Writes(Some(previous), next, before) == SparseWrites(previous, next, before, 0)
  {
    hide Changed, FloatArrays, Dense, Element;
  }

  lemma ObjectWritesByKey(previous: Value, next: Value, before: Option<Value>)
    requires WellFormed(next) && previous.Obj? && next.Obj? && Changed(Some(previous), next)
    ensures Ordered(next.keys, next.vals)
    ensures Writes(Some(previous), next, before) <==>
      forall k :: k in next.vals && Changed(Member(Some(previous), k), next.vals[k]) ==>
        Writes(Member(Some(previous), k), next.vals[k], Member(before, k))
  {
    hide Changed;
  }

  lemma ObjectWritesShape(previous: Value, next: Value, before: Option<Value>)
    requires WellFormed(next) && previous.Obj? && next.Obj? && Changed(Some(previous), next)
    ensures Ordered(next.keys, next.vals)
    ensures Writes(Some(previous), next, before) == MembersWrites(previous, next, before, 0)
  {
    ObjectWritesByKey(previous, next, before);
    hide Writes, Changed, WellFormed;
    if MembersWrites(previous, next, before, 0) {
      forall k | k in next.vals && Changed(Member(Some(previous), k), next.vals[k])
        ensures Writes(Member(Some(previous), k), next.vals[k], Member(before, k))
      {
        assert k in next.keys;
        var j :| 0 <= j < |next.keys| && next.keys[j] == k;
        assert Changed(Member(Some(previous), next.keys[j]), next.vals[next.keys[j]]);
      }
    }
  }

  lemma LeafWrites(previous: Option<Value>, next: Value, before: Option<Value>)
    ensures !Changed(previous, next) ==> Writes(previous, next, before)
    ensures Changed(previous, next) && previous.Some? && previous.value.Num? && next.Num? ==>
      Writes(previous, next, before) == NumberNarrows(previous.value.bits, next.bits, before)
    ensures Changed(previous, next) && previous.Some? && FloatArrays(previous.value, next) ==>
      Writes(previous, next, before)
    ensures
      Changed(previous, next)
      && (previous.Some? ==>
            && !(previous.value.Num? && next.Num?)
            && !(previous.value.Arr? && next.Arr?)
            && !(previous.value.Obj? && next.Obj?)) ==>
      Writes(previous, next, before) == Writable(next)
  {
    hide Same, NumberNarrows, Writable;
  }

  /** The calls of the created tree, or none when writing it raises. */
  ghost function Expected(previous: Option<Value>, next: Value, before: Option<Value>): Option<seq<Op>>
    requires WellFormed(next)
  {
    if Writes(previous, next, before) then Some(DeltaOps(previous, next, before)) else None
  }

  lemma PythonCandidateAgrees(mode: Mode, residuals: seq<nat>)
    ensures PythonCandidate(mode, residuals) == CandidateFor(mode, residuals)
  {
    ThreeQuarterRule(2 + PackedLength(|residuals|, WidestBits(residuals)), VaruintBytesTotal(residuals));
  }

  lemma PythonChoice(previous: Value, next: Value, before: Option<Value>)
    requires FloatArrays(previous, next)
    ensures
      var offered := Offered(before, |next.items|);
      var candidates := seq(offered,
                            m requires 0 <= m < offered => PythonCandidate(m,
                                FloatResiduals(m, previous, next, before)));
      SortStable(candidates)[0] == FloatChoice(previous, next, before)
  {
    var offered := Offered(before, |next.items|);
    var candidates := seq(offered,
                          m requires 0 <= m < offered => PythonCandidate(m, FloatResiduals(m, previous, next, before)));
    var expected := Candidates(offered, HistoryBits(before, previous), BitsOf(previous), BitsOf(next));
    forall m | 0 <= m < offered ensures candidates[m] == expected[m] {
      PythonCandidateAgrees(m, FloatResiduals(m, previous, next, before));
    }
    assert candidates == expected;
    SortSelectsCheapest(candidates);
  }

  lemma KindMode(c: Candidate)
    ensures !c.packed ==> KindOf(c) != DENSE_FLOAT32_BITPACKED && ModeOfTag(KindOf(c)) == c.mode
    ensures c.packed ==> KindOf(c) == DENSE_FLOAT32_BITPACKED
  {
  }

  function ChosenStep(previous: Value, next: Value, before: Option<Value>): Step
    requires FloatArrays(previous, next)
  {
    var c := FloatChoice(previous, next, before);
    FloatArrayStep(KindOf(c), c.mode, c.width, next, FloatResiduals(c.mode, previous, next, before))
  }

  lemma CreatedFloats(previous: Value, next: Value, before: Option<Value>)
    requires FloatArrays(previous, next) && !Same(previous, next)
    ensures CreateFloats(previous, next, before) == ChosenStep(previous, next, before)
  {
    KeepFloats(previous, next, before);
    PythonChoice(previous, next, before);
  }

  lemma ChosenStepWritten(previous: Value, next: Value, before: Option<Value>)
    requires FloatArrays(previous, next) && HistoryNarrows(previous, before, |next.items|)
    ensures WriteFloats(previous, ChosenStep(previous, next, before), before)
      == Some(FloatArrayOps(previous, next, before))
  {
    var c := FloatChoice(previous, next, before);
    FloatChoiceFacts(previous, next, before);
    KindMode(c);
    if c.packed {
      var residuals := FloatResiduals(c.mode, previous, next, before);
      PackedFour(c, residuals);
    } else {
      ResidualsNarrow(c.mode, previous, next, before);
    }
  }

  /** A history that is offered at all extrapolates to numbers that can be narrowed. */
  predicate HistoryNarrows(previous: Value, before: Option<Value>, count: nat)
    requires ExactArray(previous)
  {
    before.Some? && before.value.Arr? && |before.value.items| == count == |previous.items| ==>
      && ScanNarrows(before.value.items, 0)
      && (ExactArray(before.value) ==> !PredictionsRaiseFrom(BitsOf(before.value), BitsOf(previous), 0))
  }

  lemma BitsExact(v: Value)
    requires ExactArray(v)
    ensures AllExactBits(BitsOf(v))
  {
    hide Floats.ExactF32;
  }

  lemma ResidualsNarrow(mode: Mode, previous: Value, next: Value, before: Option<Value>)
    requires FloatArrays(previous, next) && HistoryNarrows(previous, before, |next.items|)
    requires mode >= 2 ==> FloatHistory(before, |next.items|)
    ensures WriteResiduals(mode, HistoryBits(before, previous), BitsOf(previous), BitsOf(next), 0)
      == Some(FloatResiduals(mode, previous, next, before))
  {
    BitsExact(previous);
    BitsExact(next);
    if FloatHistory(before, |next.items|) {
      BitsExact(before.value);
    }
    var residuals := FloatResiduals(mode, previous, next, before);
    assert residuals[0..] == residuals;
    hide Floats.ExactF32, PredictionsRaiseFrom, ScanNarrows, AllExactBits;
    ResidualsWritten(mode, HistoryBits(before, previous), BitsOf(previous), BitsOf(next), 0);
  }

  lemma PackedFour(c: Candidate, residuals: seq<nat>)
    requires c.packed && c.width < 256
    ensures [Byte(KindOf(c))] + PayloadOps(c, residuals)
      == [Byte(KindOf(c)), Byte(c.mode), Byte(c.width), Raw(PackedBytes(residuals, c.width))]
  {
  }

  lemma FloatsAgree(previous: Value, next: Value, before: Option<Value>)
    requires FloatArrays(previous, next) && !Same(previous, next) && HistoryNarrows(previous, before, |next.items|)
    ensures CreateFloats(previous, next, before) == ChosenStep(previous, next, before)
    ensures WriteFloats(previous, CreateFloats(previous, next, before), before)
      == Some(FloatArrayOps(previous, next, before))
  {
    hide *;
    CreatedFloats(previous, next, before);
    ChosenStepWritten(previous, next, before);
  }

  lemma {:induction false} CreateItemsAt(previous: Value, next: Value, before: Option<Value>, i: nat, j: nat)
    requires WellFormed(next) && next.Arr? && i <= j < |next.items|
    ensures |CreateItems(previous, next, before, i)| == |next.items| - i
    ensures WellFormed(next.items[j])
    ensures CreateItems(previous, next, before, i)[j - i]
      == Create(Element(Some(previous), j), next.items[j], Element(before, j))
    decreases j - i
  {
    CreateItemsLength(previous, next, before, i);
    if i < j {
      CreateItemsAt(previous, next, before, i + 1, j);
    }
  }

  lemma {:induction false} CreateItemsLength(previous: Value, next: Value, before: Option<Value>, i: nat)
    requires WellFormed(next) && next.Arr? && i <= |next.items|
    ensures |CreateItems(previous, next, before, i)| == |next.items| - i
    decreases |next.items| - i
  {
    if i < |next.items| {
      CreateItemsLength(previous, next, before, i + 1);
    }
  }

  lemma DenseCons(previous: Value, next: Value, before: Option<Value>, step: Step, i: nat)
    requires WellFormed(next) && next.Arr? && i < |next.items|
    requires step.DenseStep? && |step.steps| == |next.items|
    ensures WellFormed(next.items[i])
    ensures WriteDense(Some(previous), step, before, i) ==
      if DenseHistory(PYTHON, before, i).Err? then None
      else Then(WriteStep(Element(Some(previous), i), step.steps[i], Element(before, i)),
                WriteDense(Some(previous), step, before, i + 1))
  {
  }

  lemma {:induction false} DenseAgrees(previous: Value, next: Value, before: Option<Value>, step: Step, i: nat)
    requires WellFormed(next) && WellFormed(previous) && previous.Arr? && next.Arr? && i <= |next.items|
    requires step.DenseStep? && step.steps == CreateItems(previous, next, before, 0) && |step.steps| == |next.items|
    requires ItemsBuild(previous, next, before, i)
    ensures WriteDense(Some(previous), step, before, i) ==
      if DenseWrites(previous, next, before, i) then Some(DenseOps(previous, next, before, i)) else None
    decreases next, 0, |next.items| - i
  {
    hide *;
    if i == |next.items| {
      DenseEnd(previous, next, before, step);
    } else {
      CreateItemsAt(previous, next, before, 0, i);
      WellFormedElement(previous, i);
      DenseCons(previous, next, before, step, i);
      DenseOpsCons(previous, next, before, i);
      DenseWritesCons(previous, next, before, i);
      ItemsBuildCons(previous, next, before, i);
      TreeAgrees(Element(Some(previous), i), next.items[i], Element(before, i));
      ExpectedParts(Element(Some(previous), i), next.items[i], Element(before, i));
      DenseAgrees(previous, next, before, step, i + 1);
      ThenParts(WriteStep(Element(Some(previous), i), step.steps[i], Element(before, i)),
                WriteDense(Some(previous), step, before, i + 1));
    }
  }

  lemma DenseEnd(previous: Value, next: Value, before: Option<Value>, step: Step)
    requires WellFormed(next) && next.Arr? && step.DenseStep? && |step.steps| == |next.items|
    ensures WriteDense(Some(previous), step, before, |next.items|) == Some([])
    ensures DenseOps(previous, next, before, |next.items|) == []
    ensures DenseWrites(previous, next, before, |next.items|)
  {
  }

  lemma WellFormedElement(v: Value, i: nat)
    requires WellFormed(v)
    ensures WellFormedOption(Element(Some(v), i))
  {
  }

  lemma WellFormedMember(v: Value, key: string)
    requires WellFormed(v)
    ensures WellFormedOption(Member(Some(v), key))
  {
  }

  lemma ExpectedParts(previous: Option<Value>, next: Value, before: Option<Value>)
    requires WellFormed(next)
    ensures Expected(previous, next, before) == if Writes(previous, next, before)
      then Some(DeltaOps(previous, next, before)) else None
  {
  }

  lemma ThenParts(a: Option<seq<Op>>, b: Option<seq<Op>>)
    ensures Then(a, b) == if a.Some? && b.Some? then Some(a.value + b.value) else None
  {
  }

  lemma ItemSkipped(previous: Value, next: Value, before: Option<Value>, i: nat)
    requires WellFormed(next) && WellFormed(previous) && previous.Arr? && next.Arr? && i < |next.items|
    requires !Changed(Element(Some(previous), i), next.items[i])
    ensures ItemChanges(previous, next, before, i) == ItemChanges(previous, next, before, i + 1)
    ensures SparseOps(previous, next, before, i) == SparseOps(previous, next, before, i + 1)
    ensures SparseWrites(previous, next, before, i) == SparseWrites(previous, next, before, i + 1)
  {
    KeepIsSame(Element(Some(previous), i), next.items[i], Element(before, i));
    var ops := SparseOps(previous, next, before, i + 1);
    assert [] + ops == ops;
    var changes := ItemChanges(previous, next, before, i + 1);
    assert [] + changes == changes;
    SparseWritesCons(previous, next, before, i);
  }

  lemma ItemTaken(previous: Value, next: Value, before: Option<Value>, i: nat)
    requires WellFormed(next) && WellFormed(previous) && previous.Arr? && next.Arr? && i < |next.items|
    requires Changed(Element(Some(previous), i), next.items[i])
    ensures WellFormed(next.items[i])
    ensures ItemChanges(previous, next, before, i)
      == [ItemChange(i, Create(Element(Some(previous), i), next.items[i], Element(before, i)))]
        + ItemChanges(previous, next, before, i + 1)
  {
    KeepIsSame(Element(Some(previous), i), next.items[i], Element(before, i));
  }

  lemma WriteItemsCons(previous: Value, before: Option<Value>, step: Step, j: nat, item: ItemChange)
    requires step.ArrayStep? && j < |step.items| && step.items[j] == item
    ensures WriteItems(Some(previous), step, before, j)
      == Then(Then(Some([Varuint(item.index)]),
                   WriteStep(Element(Some(previous), item.index), item.step, Element(before, item.index))),
           WriteItems(Some(previous), step, before, j + 1))
  {
  }

  lemma SliceCons<T>(s: seq<T>, j: nat, head: T, tail: seq<T>)
    requires j <= |s| && s[j..] == [head] + tail
    ensures j < |s| && s[j] == head && s[j + 1..] == tail
  {
    assert s[j..][0] == s[j] && s[j..][1..] == s[j + 1..];
  }

  lemma ItemsEnd(previous: Value, next: Value, before: Option<Value>, step: Step, j: nat)
    requires WellFormed(next) && next.Arr? && step.ArrayStep? && j <= |step.items|
    requires step.items[j..] == ItemChanges(previous, next, before, |next.items|)
    ensures WriteItems(Some(previous), step, before, j) == Some([])
    ensures SparseOps(previous, next, before, |next.items|) == []
    ensures SparseWrites(previous, next, before, |next.items|)
  {
    assert |step.items[j..]| == 0;
  }

  lemma PairThen(head: seq<Op>, mid: Option<seq<Op>>, tail: Option<seq<Op>>)
    ensures Then(Then(Some(head), mid), tail) ==
      if mid.Some? && tail.Some? then Some(head + (mid.value + tail.value)) else None
  {
    if mid.Some? && tail.Some? {
      assert head + mid.value + tail.value == head + (mid.value + tail.value);
    }
  }

  lemma {:induction false} ItemsAgree(previous: Value, next: Value, before: Option<Value>, step: Step, j: nat, i: nat)
    requires WellFormed(next) && WellFormed(previous) && previous.Arr? && next.Arr? && i <= |next.items|
    requires step.ArrayStep? && j <= |step.items| && step.items[j..] == ItemChanges(previous, next, before, i)
    requires ItemsBuild(previous, next, before, i)
    ensures WriteItems(Some(previous), step, before, j) ==
      if SparseWrites(previous, next, before, i) then Some(SparseOps(previous, next, before, i)) else None
    decreases next, 0, |next.items| - i
  {
    hide *;
    if i == |next.items| {
      ItemsEnd(previous, next, before, step, j);
    } else if !Changed(Element(Some(previous), i), next.items[i]) {
      ItemsBuildCons(previous, next, before, i);
      ItemSkipped(previous, next, before, i);
      ItemsAgree(previous, next, before, step, j, i + 1);
    } else {
      ItemTaken(previous, next, before, i);
      var created := Create(Element(Some(previous), i), next.items[i], Element(before, i));
      SliceCons(step.items, j, ItemChange(i, created), ItemChanges(previous, next, before, i + 1));
      WriteItemsCons(previous, before, step, j, ItemChange(i, created));
      SparseOpsCons(previous, next, before, i);
      SparseWritesCons(previous, next, before, i);
      ItemsBuildCons(previous, next, before, i);
      WellFormedElement(previous, i);
      TreeAgrees(Element(Some(previous), i), next.items[i], Element(before, i));
      ExpectedParts(Element(Some(previous), i), next.items[i], Element(before, i));
      ItemsAgree(previous, next, before, step, j + 1, i + 1);
      PairThen([Varuint(i)], WriteStep(Element(Some(previous), i), created, Element(before, i)),
               WriteItems(Some(previous), step, before, j + 1));
    }
  }

  lemma MemberSkipped(previous: Value, next: Value, before: Option<Value>, i: nat)
    requires WellFormed(next) && WellFormed(previous) && previous.Obj? && next.Obj? && i < |next.keys|
    requires next.keys[i] in next.vals && WellFormed(next.vals[next.keys[i]])
    requires !Changed(Member(Some(previous), next.keys[i]), next.vals[next.keys[i]])
    ensures MemberChanges(previous, next, before, i) == MemberChanges(previous, next, before, i + 1)
  {
    KeepIsSame(Member(Some(previous), next.keys[i]), next.vals[next.keys[i]], Member(before, next.keys[i]));
    var changes := MemberChanges(previous, next, before, i + 1);
    assert [] + changes == changes;
  }

  lemma MemberTaken(previous: Value, next: Value, before: Option<Value>, i: nat)
    requires WellFormed(next) && WellFormed(previous) && previous.Obj? && next.Obj? && i < |next.keys|
    requires next.keys[i] in next.vals && WellFormed(next.vals[next.keys[i]])
    requires Changed(Member(Some(previous), next.keys[i]), next.vals[next.keys[i]])
    ensures MemberChanges(previous, next, before, i)
      == [MemberChange(next.keys[i],
                       Create(Member(Some(previous), next.keys[i]), next.vals[next.keys[i]],
                              Member(before, next.keys[i])))]
         + MemberChanges(previous, next, before, i + 1)
  {
    KeepIsSame(Member(Some(previous), next.keys[i]), next.vals[next.keys[i]], Member(before, next.keys[i]));
  }

  lemma WriteMembersCons(previous: Value, before: Option<Value>, step: Step, j: nat, member: MemberChange)
    requires step.ObjectStep? && j < |step.members| && step.members[j] == member
    ensures WriteMembers(Some(previous), step, before, j)
      == Then(Then(Some([Text(member.key)]),
                   WriteStep(Member(Some(previous), member.key), member.step, Member(before, member.key))),
           WriteMembers(Some(previous), step, before, j + 1))
  {
  }

  lemma MembersEnd(previous: Value, next: Value, before: Option<Value>, step: Step, j: nat)
    requires WellFormed(next) && next.Obj? && step.ObjectStep? && j <= |step.members|
    requires step.members[j..] == MemberChanges(previous, next, before, |next.keys|)
    ensures Ordered(next.keys, next.vals)
    ensures WriteMembers(Some(previous), step, before, j) == Some([])
    ensures MemberDeltaOps(previous, next, before, |next.keys|) == []
    ensures MembersWrites(previous, next, before, |next.keys|)
  {
    assert |step.members[j..]| == 0;
  }

  lemma {:induction false} MembersAgree(previous: Value, next: Value, before: Option<Value>, step: Step, j: nat, i: nat)
    requires WellFormed(next) && WellFormed(previous) && previous.Obj? && next.Obj? && i <= |next.keys|
    requires Ordered(next.keys, next.vals)
    requires step.ObjectStep? && j <= |step.members| && step.members[j..] == MemberChanges(previous, next, before, i)
    requires MembersBuild(previous, next, before, i)
    ensures WriteMembers(Some(previous), step, before, j) ==
      if MembersWrites(previous, next, before, i) then Some(MemberDeltaOps(previous, next, before, i)) else None
    decreases next, 0, |next.keys| - i
  {
    hide *;
    if i == |next.keys| {
      MembersEnd(previous, next, before, step, j);
    } else {
      MembersWritesCons(previous, next, before, i);
      MembersBuildCons(previous, next, before, i);
      var key := next.keys[i];
      if !Changed(Member(Some(previous), key), next.vals[key]) {
        MemberSkipped(previous, next, before, i);
        MemberUnchanged(previous, next, before, i);
        MembersAgree(previous, next, before, step, j, i + 1);
      } else {
        MemberTaken(previous, next, before, i);
        var created := Create(Member(Some(previous), key), next.vals[key], Member(before, key));
        SliceCons(step.members, j, MemberChange(key, created), MemberChanges(previous, next, before, i + 1));
        WriteMembersCons(previous, before, step, j, MemberChange(key, created));
        MemberDeltaOpsCons(previous, next, before, i);
        WellFormedMember(previous, key);
        TreeAgrees(Member(Some(previous), key), next.vals[key], Member(before, key));
        ExpectedParts(Member(Some(previous), key), next.vals[key], Member(before, key));
        MembersAgree(previous, next, before, step, j + 1, i + 1);
        PairThen([Text(key)], WriteStep(Member(Some(previous), key), created, Member(before, key)),
                 WriteMembers(Some(previous), step, before, j + 1));
      }
    }
  }

  // ----- the theorem -----

  lemma KeepWritten(previous: Option<Value>, next: Value, before: Option<Value>)
    requires WellFormed(next) && WellFormedOption(previous) && !Changed(previous, next)
    ensures WriteStep(previous, Create(previous, next, before), before) == Some([Byte(DELTA_SAME)])
  {
    KeepIsSame(previous, next, before);
  }

  lemma NumberWritten(previous: Value, next: Value, before: Option<Value>)
    requires WellFormed(next) && WellFormed(previous) && Changed(Some(previous), next) && previous.Num? && next.Num?
    ensures WriteStep(Some(previous), Create(Some(previous), next, before), before) ==
      if NumberNarrows(previous.bits, next.bits, before)
        then Some(NumberDeltaOps(previous.bits, next.bits, NumberOf(before))) else None
  {
    NumberDeltaWritten(previous.bits, next.bits, before);
    hide NumberNarrows, NumberDeltaOps, WriteNumberDelta;
  }

  lemma CreateOfFloats(previous: Value, next: Value, before: Option<Value>)
    requires WellFormed(next) && FloatArrays(previous, next)
    ensures Create(Some(previous), next, before) == CreateFloats(previous, next, before)
  {
    hide Readable, DeltaOps, CreateFloats, CreateItems, ItemChanges, MemberChanges, Same, WriteStep;
  }

  lemma WriteStepOfFloats(previous: Value, next: Value, before: Option<Value>)
    requires FloatArrays(previous, next)
    ensures
      var step := ChosenStep(previous, next, before);
      step.FloatArrayStep? && step.values == next
        && WriteStep(Some(previous), step, before) == WriteFloats(previous, step, before)
  {
    hide FloatArrays, WriteFloats, FloatChoice, FloatResiduals, Readable, DeltaOps, Create;
  }

  lemma FloatsWritten(previous: Value, next: Value, before: Option<Value>)
    requires WellFormed(next) && !Same(previous, next) && FloatArrays(previous, next)
    requires HistoryNarrows(previous, before, |next.items|)
    ensures WriteStep(Some(previous), Create(Some(previous), next, before), before)
      == Some(FloatArrayOps(previous, next, before))
  {
    hide *;
    CreateOfFloats(previous, next, before);
    FloatsAgree(previous, next, before);
    WriteStepOfFloats(previous, next, before);
  }

  lemma ChangedParts(previous: Value, next: Value)
    ensures Changed(Some(previous), next) <==> !Same(previous, next)
  {
  }

  lemma ReplaceWritten(previous: Option<Value>, next: Value, before: Option<Value>)
    requires WellFormed(next) && Changed(previous, next)
    requires previous.Some? ==>
      !(previous.value.Num? && next.Num?) && !(previous.value.Arr? && next.Arr?) && !(previous.value.Obj? && next.Obj?)
    ensures WriteStep(previous, Create(previous, next, before), before) ==
      if Writable(next) then Some([Byte(DELTA_REPLACE)] + ValueOps(next)) else None
  {
    ValueWritten(next);
    if previous.Some? {
      SameScalarIsSame(previous.value, next);
    }
    hide Writable, ValueOps, WriteValue;
  }

  lemma ArrayCreated(previous: Value, next: Value, before: Option<Value>)
    requires WellFormed(next) && WellFormed(previous) && Changed(Some(previous), next)
    requires previous.Arr? && next.Arr? && !FloatArrays(previous, next)
    ensures Create(Some(previous), next, before) ==
      if Dense(previous, next) then DenseStep(CreateItems(previous, next, before, 0))
      else ArrayStep(|next.items|, ItemChanges(previous, next, before, 0))
    ensures |ItemChanges(previous, next, before, 0)| == ChangedItems(previous, next, 0)
  {
    KeepIsSame(Some(previous), next, before);
    ItemChangesCount(previous, next, before, 0);
  }

  lemma DenseWritten(previous: Value, next: Value, before: Option<Value>)
    requires BuildNarrows(Some(previous), next, before)
    requires WellFormed(next) && WellFormed(previous) && Changed(Some(previous), next)
    requires previous.Arr? && next.Arr? && !FloatArrays(previous, next) && Dense(previous, next)
    ensures WriteStep(Some(previous), Create(Some(previous), next, before), before)
      == Expected(Some(previous), next, before)
    decreases next, 0, |next.items| + 1
  {
    hide *;
    ArrayCreated(previous, next, before);
    CreateItemsLength(previous, next, before, 0);
    var step := DenseStep(CreateItems(previous, next, before, 0));
    WriteDenseStep(Some(previous), step, before);
    ArrayBuilds(previous, next, before);
    DenseAgrees(previous, next, before, step, 0);
    GuardedRoom();
    DenseCaseShape(GUARDED, previous, next, before);
    DenseWritesShape(previous, next, before);
    ExpectedParts(Some(previous), next, before);
    ThenParts(Some([Byte(DELTA_DENSE_ARRAY)]), WriteDense(Some(previous), step, before, 0));
  }

  lemma WriteDenseStep(previous: Option<Value>, step: Step, before: Option<Value>)
    requires step.DenseStep?
    ensures WriteStep(previous, step, before)
      == Then(Some([Byte(DELTA_DENSE_ARRAY)]), WriteDense(previous, step, before, 0))
  {
  }

  lemma SparseWritten(previous: Value, next: Value, before: Option<Value>)
    requires BuildNarrows(Some(previous), next, before)
    requires WellFormed(next) && WellFormed(previous) && Changed(Some(previous), next)
    requires previous.Arr? && next.Arr? && !FloatArrays(previous, next) && !Dense(previous, next)
    ensures WriteStep(Some(previous), Create(Some(previous), next, before), before)
      == Expected(Some(previous), next, before)
    decreases next, 0, |next.items| + 1
  {
    hide *;
    ArrayCreated(previous, next, before);
    var changes := ItemChanges(previous, next, before, 0);
    var step := ArrayStep(|next.items|, changes);
    assert changes[0..] == changes;
    WriteArrayStep(Some(previous), step, before);
    ArrayBuilds(previous, next, before);
    ItemsAgree(previous, next, before, step, 0, 0);
    GuardedRoom();
    SparseCaseShape(GUARDED, previous, next, before);
    SparseWritesShape(previous, next, before);
    ExpectedParts(Some(previous), next, before);
    ThreeFirst(Byte(DELTA_ARRAY), Varuint(|next.items|), Varuint(|changes|), SparseOps(previous, next, before, 0));
    ThenParts(Some([Byte(DELTA_ARRAY), Varuint(|next.items|), Varuint(|changes|)]),
              WriteItems(Some(previous), step, before, 0));
  }

  lemma WriteArrayStep(previous: Option<Value>, step: Step, before: Option<Value>)
    requires step.ArrayStep?
    ensures WriteStep(previous, step, before)
      == Then(Some([Byte(DELTA_ARRAY), Varuint(step.length), Varuint(|step.items|)]),
              WriteItems(previous, step, before, 0))
  {
  }

  lemma ThreeFirst(a: Op, b: Op, c: Op, rest: seq<Op>)
    ensures [a, b, c] + rest == [a] + ([b] + ([c] + rest))
  {
  }

  lemma ObjectCreated(previous: Value, next: Value, before: Option<Value>)
    requires WellFormed(next) && WellFormed(previous) && Changed(Some(previous), next) && previous.Obj? && next.Obj?
    ensures Ordered(next.keys, next.vals)
    ensures Create(Some(previous), next, before)
      == ObjectStep(Deleted(previous.keys, next.vals), MemberChanges(previous, next, before, 0))
    ensures |MemberChanges(previous, next, before, 0)| == ChangedMembers(previous, next, 0)
  {
    KeepIsSame(Some(previous), next, before);
    MemberChangesCount(previous, next, before, 0);
  }

  lemma ObjectWritten(previous: Value, next: Value, before: Option<Value>)
    requires BuildNarrows(Some(previous), next, before)
    requires WellFormed(next) && WellFormed(previous) && Changed(Some(previous), next) && previous.Obj? && next.Obj?
    ensures WriteStep(Some(previous), Create(Some(previous), next, before), before)
      == Expected(Some(previous), next, before)
    decreases next, 0, |next.keys| + 1
  {
    hide *;
    ObjectCreated(previous, next, before);
    var deleted := Deleted(previous.keys, next.vals);
    var changes := MemberChanges(previous, next, before, 0);
    var step := ObjectStep(deleted, changes);
    assert changes[0..] == changes;
    WriteObjectStep(Some(previous), step, before);
    ObjectBuilds(previous, next, before);
    MembersAgree(previous, next, before, step, 0, 0);
    GuardedRoom();
    ObjectCaseShape(GUARDED, previous, next, before);
    ObjectWritesShape(previous, next, before);
    ExpectedParts(Some(previous), next, before);
    var members := WriteMembers(Some(previous), step, before, 0);
    ThenParts(Some([Varuint(|changes|)]), members);
    ThenParts(Some([Byte(DELTA_OBJECT), Varuint(|deleted|)] + TextOps(deleted)),
              Then(Some([Varuint(|changes|)]), members));
    TwoThen(Byte(DELTA_OBJECT), Varuint(|deleted|), TextOps(deleted),
            [Varuint(|changes|)] + MemberDeltaOps(previous, next, before, 0));
  }

  lemma WriteObjectStep(previous: Option<Value>, step: Step, before: Option<Value>)
    requires step.ObjectStep?
    ensures WriteStep(previous, step, before)
      == Then(Some([Byte(DELTA_OBJECT), Varuint(|step.deletions|)] + TextOps(step.deletions)),
           Then(Some([Varuint(|step.members|)]), WriteMembers(previous, step, before, 0)))
  {
  }

  /** Writing the tree, once it has been built, makes exactly the calls of the one-stage writer, or
      raises exactly when `Writes` says so. */
  lemma {:induction false} TreeAgrees(previous: Option<Value>, next: Value, before: Option<Value>)
    requires WellFormed(next) && WellFormedOption(previous) && BuildNarrows(previous, next, before)
    ensures WriteStep(previous, Create(previous, next, before), before) == Expected(previous, next, before)
    decreases next, 1, 0
  {
    hide *;
    GuardedRoom();
    ExpectedParts(previous, next, before);
    PreviousWellFormed(previous);
    LeafWrites(previous, next, before);
    if !Changed(previous, next) {
      SameShape(GUARDED, previous, next, before);
      KeepWritten(previous, next, before);
    } else if previous.Some? && previous.value.Num? && next.Num? {
      NumberShape(GUARDED, previous.value, next, before);
      NumberWritten(previous.value, next, before);
    } else if previous.Some? && previous.value.Arr? && next.Arr? {
      if FloatArrays(previous.value, next) {
        FloatShape(GUARDED, previous.value, next, before);
        ChangedParts(previous.value, next);
        FloatsBuild(previous.value, next, before);
        FloatsWritten(previous.value, next, before);
      } else if Dense(previous.value, next) {
        DenseWritten(previous.value, next, before);
      } else {
        SparseWritten(previous.value, next, before);
      }
    } else if previous.Some? && previous.value.Obj? && next.Obj? {
      ObjectWritten(previous.value, next, before);
    } else {
      ReplaceShape(GUARDED, previous, next, before);
      ReplaceWritten(previous, next, before);
    }
  }

  lemma GuardedRoom()
    ensures !Exhausted(GUARDED.room)
  {
  }

  lemma PreviousWellFormed(previous: Option<Value>)
    requires WellFormedOption(previous)
    ensures previous.Some? ==> WellFormed(previous.value)
  {
  }

  // ----- building the tree, with what raises there -----

  /** The test of the two lists does not raise: the previous one first, the next one only if every
      number of the previous one is exact. */
  predicate FloatTestNarrows(previous: Value, next: Value)
    requires previous.Arr? && next.Arr?
  {
    |previous.items| == |next.items| > 0 ==>
      ScanNarrows(previous.items, 0) && (ExactArray(previous) ==> ScanNarrows(next.items, 0))
  }

  /** Building the tree does not raise. Lists are tested for exact numbers at every depth, changed
      or not, and the extrapolations of a changed list are narrowed whether they are chosen or not. */
  predicate BuildNarrows(previous: Option<Value>, next: Value, before: Option<Value>)
    decreases next
  {
    previous.Some? ==>
      match (previous.value, next)
      case (Arr(_), Arr(items)) =>
        && FloatTestNarrows(previous.value, next)
        && if FloatArrays(previous.value, next) then Same(previous.value, next)
             || HistoryNarrows(previous.value, before, |items|)
           else forall i :: 0 <= i < |items| ==> BuildNarrows(Element(previous, i), items[i], Element(before, i))
      case (Obj(_, _), Obj(_, vals)) => forall k :: k in vals ==>
        BuildNarrows(Member(previous, k), vals[k], Member(before, k))
      case _ => true
  }

  predicate ItemsBuild(previous: Value, next: Value, before: Option<Value>, i: nat)
    requires next.Arr?
  {
    forall j :: i <= j < |next.items| ==> BuildNarrows(Element(Some(previous), j), next.items[j], Element(before, j))
  }

  lemma ItemsBuildCons(previous: Value, next: Value, before: Option<Value>, i: nat)
    requires next.Arr? && i < |next.items|
    ensures ItemsBuild(previous, next, before, i) <==>
      BuildNarrows(Element(Some(previous), i), next.items[i], Element(before, i))
        && ItemsBuild(previous, next, before, i + 1)
  {
    hide BuildNarrows;
  }

  predicate MembersBuild(previous: Value, next: Value, before: Option<Value>, i: nat)
    requires next.Obj? && Ordered(next.keys, next.vals)
  {
    forall j :: i <= j < |next.keys| ==>
      BuildNarrows(Member(Some(previous), next.keys[j]), next.vals[next.keys[j]], Member(before, next.keys[j]))
  }

  lemma MembersBuildCons(previous: Value, next: Value, before: Option<Value>, i: nat)
    requires next.Obj? && Ordered(next.keys, next.vals) && i < |next.keys|
    ensures next.keys[i] in next.vals
    ensures MembersBuild(previous, next, before, i) <==>
      && BuildNarrows(Member(Some(previous), next.keys[i]), next.vals[next.keys[i]], Member(before, next.keys[i]))
      && MembersBuild(previous, next, before, i + 1)
  {
    hide BuildNarrows;
    assert next.keys[i] in next.keys;
  }

  lemma ArrayBuilds(previous: Value, next: Value, before: Option<Value>)
    requires previous.Arr? && next.Arr? && !FloatArrays(previous, next)
    ensures BuildNarrows(Some(previous), next, before)
      == (FloatTestNarrows(previous, next) && ItemsBuild(previous, next, before, 0))
  {
    hide FloatArrays, FloatTestNarrows;
  }

  lemma ObjectBuildsByKey(previous: Value, next: Value, before: Option<Value>)
    requires previous.Obj? && next.Obj?
    ensures BuildNarrows(Some(previous), next, before) <==>
      forall k :: k in next.vals ==> BuildNarrows(Member(Some(previous), k), next.vals[k], Member(before, k))
  {
  }

  lemma ObjectBuilds(previous: Value, next: Value, before: Option<Value>)
    requires WellFormed(next) && previous.Obj? && next.Obj?
    ensures Ordered(next.keys, next.vals)
    ensures BuildNarrows(Some(previous), next, before) == MembersBuild(previous, next, before, 0)
  {
    ObjectBuildsByKey(previous, next, before);
    assert Ordered(next.keys, next.vals);
    hide BuildNarrows, WellFormed;
    if MembersBuild(previous, next, before, 0) {
      forall k | k in next.vals ensures BuildNarrows(Member(Some(previous), k), next.vals[k], Member(before, k)) {
        assert k in next.keys;
        var j :| 0 <= j < |next.keys| && next.keys[j] == k;
      }
    }
    if BuildNarrows(Some(previous), next, before) {
      forall j | 0 <= j < |next.keys|
        ensures BuildNarrows(Member(Some(previous), next.keys[j]), next.vals[next.keys[j]],
                             Member(before, next.keys[j]))
      {
        assert next.keys[j] in next.keys;
      }
    }
  }

  lemma FloatsBuild(previous: Value, next: Value, before: Option<Value>)
    requires FloatArrays(previous, next) && !Same(previous, next)
    ensures BuildNarrows(Some(previous), next, before)
      == (FloatTestNarrows(previous, next) && HistoryNarrows(previous, before, |next.items|))
  {
    hide FloatTestNarrows, HistoryNarrows, Same;
  }

  // ----- the tree as the source builds it -----

  /** The test that two lists are equally long, not empty and exact throughout. */
  function FloatTest(previous: Value, next: Value): Option<bool>
    requires previous.Arr? && next.Arr?
  {
    if |previous.items| != |next.items| || next.items == [] then Some(false)
    else
      match AllExactTest(previous.items, 0)
      case None => None
      case Some(exact) => if exact then AllExactTest(next.items, 0) else Some(false)
  }

  /** How many modes the history offers. */
  function OfferedTest(before: Option<Value>, count: nat): Option<nat> {
    if before.None? || !before.value.Arr? || |before.value.items| != count then Some(2)
    else
      match AllExactTest(before.value.items, 0)
      case None => None
      case Some(exact) => Some(if exact then 4 else 2)
  }

  /** The residuals of every mode offered, from mode m on. */
  function BuildResiduals(previous: Value, next: Value, before: Option<Value>, offered: nat,
                          m: nat): Option<seq<seq<nat>>>
    requires FloatArrays(previous, next) && m <= offered <= 4
    decreases offered - m
  {
    if m == offered then Some([])
    else
      match WriteResiduals(m, HistoryBits(before, previous), BitsOf(previous), BitsOf(next), 0)
      case None => None
      case Some(residuals) =>
        match BuildResiduals(previous, next, before, offered, m + 1)
        case None => None
        case Some(rest) => Some([residuals] + rest)
  }

  function BuildFloats(previous: Value, next: Value, before: Option<Value>): Option<Step>
    requires FloatArrays(previous, next)
  {
    if forall i :: 0 <= i < |next.items| ==> SameScalar(next.items[i], previous.items[i]) then Some(Keep)
    else
      match OfferedTest(before, |next.items|)
      case None => None
      case Some(offered) =>
        match BuildResiduals(previous, next, before, offered, 0)
        case None => None
        case Some(all) => Selected(all, next)
  }

  function CandidatesOf(all: seq<seq<nat>>): (c: seq<Candidate>)
    requires |all| <= 4
    ensures |c| == |all|
    ensures forall m :: 0 <= m < |all| ==> c[m] == PythonCandidate(m, all[m]) && c[m].mode == m
  {
    seq(|all|, m requires 0 <= m < |all| => PythonCandidate(m, all[m]))
  }

  function Selected(all: seq<seq<nat>>, next: Value): Option<Step> {
    if all == [] || |all| > 4 then None
    else
      SortSelectsCheapest(CandidatesOf(all));
      var c := SortStable(CandidatesOf(all))[0];
      Some(FloatArrayStep(KindOf(c), c.mode, c.width, next, all[c.mode]))
  }

  function Build(previous: Option<Value>, next: Value, before: Option<Value>): Option<Step>
    requires WellFormed(next)
    decreases next, 1, 0
  {
    if previous.None? then Some(ReplaceStep(next))
    else if SameScalar(previous.value, next) then Some(Keep)
    else if previous.value.Num? && next.Num? then Some(NumberStep(next.bits))
    else if previous.value.Arr? && next.Arr? then
      match FloatTest(previous.value, next)
      case None => None
      case Some(floats) =>
        if floats && FloatArrays(previous.value, next) then BuildFloats(previous.value, next, before)
        else
          match BuildItems(previous.value, next, before, 0)
          case None => None
          case Some(steps) => Some(ListStep(previous.value, next, steps))
    else if previous.value.Obj? && next.Obj? then
      var deletions := Deleted(previous.value.keys, next.vals);
      match BuildMembers(previous.value, next, before, 0)
      case None => None
      case Some(changes) => Some(if deletions == [] && changes == [] then Keep else ObjectStep(deletions, changes))
    else Some(ReplaceStep(next))
  }

  function ListStep(previous: Value, next: Value, steps: seq<Step>): Step
    requires previous.Arr? && next.Arr?
  {
    var changes := ChangesOf(steps, 0);
    if |previous.items| == |next.items| && changes == [] then Keep
    else if |previous.items| == |next.items| && |changes| as real > |next.items| as real / 2.0 then DenseStep(steps)
    else ArrayStep(|next.items|, changes)
  }

  /** The steps that are not None, each with its index. */
  function ChangesOf(steps: seq<Step>, i: nat): seq<ItemChange> {
    if steps == [] then []
    else
      (if steps[0].Keep? then [] else [ItemChange(i, steps[0])])
      + ChangesOf(steps[1..], i + 1)
  }

  function BuildItems(previous: Value, next: Value, before: Option<Value>, i: nat): Option<seq<Step>>
    requires WellFormed(next) && next.Arr? && i <= |next.items|
    decreases next, 0, |next.items| - i
  {
    if i == |next.items| then Some([])
    else
      match Build(Element(Some(previous), i), next.items[i], Element(before, i))
      case None => None
      case Some(step) =>
        match BuildItems(previous, next, before, i + 1)
        case None => None
        case Some(rest) => Some([step] + rest)
  }

  function BuildMembers(previous: Value, next: Value, before: Option<Value>, i: nat): Option<seq<MemberChange>>
    requires WellFormed(next) && next.Obj? && i <= |next.keys|
    decreases next, 0, |next.keys| - i
  {
    if i == |next.keys| then Some([])
    else
      var key := next.keys[i];
      match Build(Member(Some(previous), key), next.vals[key], Member(before, key))
      case None => None
      case Some(step) =>
        match BuildMembers(previous, next, before, i + 1)
        case None => None
        case Some(rest) => Some((if step.Keep? then [] else [MemberChange(key, step)]) + rest)
  }

  lemma FloatTestIs(previous: Value, next: Value)
    requires previous.Arr? && next.Arr?
    ensures FloatTest(previous, next) == if FloatTestNarrows(previous, next) then Some(FloatArrays(previous, next))
      else None
  {
    AllExactTestIs(previous.items, 0);
    AllExactTestIs(next.items, 0);
    hide AllExactTest, ScanNarrows, Exact;
  }

  lemma OfferedTestIs(previous: Value, before: Option<Value>, count: nat)
    requires ExactArray(previous) && |previous.items| == count
    ensures HistoryNarrows(previous, before, count) ==> OfferedTest(before, count) == Some(Offered(before, count))
    ensures OfferedTest(before, count).Some? ==>
      && OfferedTest(before, count).value == Offered(before, count)
      && (HistoryNarrows(previous, before, count) <==>
           (FloatHistory(before, count) ==> !PredictionsRaiseFrom(BitsOf(before.value), BitsOf(previous), 0)))
  {
    if before.Some? && before.value.Arr? {
      AllExactTestIs(before.value.items, 0);
    }
    hide AllExactTest, ScanNarrows, Exact, PredictionsRaiseFrom;
  }

  /** The residuals of the modes from m on. */
  ghost predicate AllResiduals(all: seq<seq<nat>>, previous: Value, next: Value, before: Option<Value>, offered: nat,
                               m: nat)
    requires FloatArrays(previous, next) && m <= offered <= 4
  {
    |all| == offered - m && forall k :: 0 <= k < |all| ==> all[k] == FloatResiduals(m + k, previous, next, before)
  }

  lemma AllResidualsCons(all: seq<seq<nat>>, rest: seq<seq<nat>>, previous: Value, next: Value, before: Option<Value>,
                         offered: nat, m: nat)
    requires FloatArrays(previous, next) && m < offered <= 4
    requires AllResiduals(rest, previous, next, before, offered, m + 1)
    requires all == [FloatResiduals(m, previous, next, before)] + rest
    ensures AllResiduals(all, previous, next, before, offered, m)
  {
    hide FloatArrays, FloatResiduals;
    forall k | 0 <= k < |all| ensures all[k] == FloatResiduals(m + k, previous, next, before) {
      if k > 0 {
        assert all[k] == rest[k - 1];
      }
    }
  }

  lemma BuildResidualsParts(previous: Value, next: Value, before: Option<Value>, offered: nat, m: nat)
    requires FloatArrays(previous, next) && m <= offered <= 4
    ensures m == offered ==>
      BuildResiduals(previous, next, before, offered, m) == Some([])
      && AllResiduals([], previous, next, before, offered, m)
    ensures m < offered ==>
      BuildResiduals(previous, next, before, offered, m) ==
        match WriteResiduals(m, HistoryBits(before, previous), BitsOf(previous), BitsOf(next), 0)
        case None => None
        case Some(residuals) =>
          match BuildResiduals(previous, next, before, offered, m + 1)
          case None => None
          case Some(rest) => Some([residuals] + rest)
  {
    hide FloatArrays, WriteResiduals, FloatResiduals;
  }

  lemma {:induction false} ResidualsBuilt(previous: Value, next: Value, before: Option<Value>, offered: nat, m: nat)
    requires FloatArrays(previous, next) && m <= offered == Offered(before, |next.items|)
    requires HistoryNarrows(previous, before, |next.items|)
    ensures offered <= 4 && BuildResiduals(previous, next, before, offered, m).Some?
    ensures AllResiduals(BuildResiduals(previous, next, before, offered, m).value, previous, next, before, offered, m)
    decreases offered - m
  {
    assert offered <= 4 && (m >= 2 && m < offered ==> FloatHistory(before, |next.items|));
    hide *;
    BuildResidualsParts(previous, next, before, offered, m);
    if m < offered {
      ResidualsNarrow(m, previous, next, before);
      ResidualsBuilt(previous, next, before, offered, m + 1);
      AllResidualsCons(BuildResiduals(previous, next, before, offered, m).value,
                       BuildResiduals(previous, next, before, offered, m + 1).value,
                       previous, next, before, offered, m);
    }
  }

  lemma ResidualsRaise(previous: Value, next: Value, before: Option<Value>)
    requires FloatArrays(previous, next) && FloatHistory(before, |next.items|)
    requires PredictionsRaiseFrom(BitsOf(before.value), BitsOf(previous), 0)
    ensures WriteResiduals(3, HistoryBits(before, previous), BitsOf(previous), BitsOf(next), 0) == None
  {
    BitsExact(previous);
    BitsExact(next);
    BitsExact(before.value);
    hide ExactArray, PredictionsRaiseFrom, AllExactBits;
    ResidualsWritten(3, HistoryBits(before, previous), BitsOf(previous), BitsOf(next), 0);
  }

  lemma FourRaise(previous: Value, next: Value, before: Option<Value>)
    requires FloatArrays(previous, next)
    requires WriteResiduals(3, HistoryBits(before, previous), BitsOf(previous), BitsOf(next), 0) == None
    ensures BuildResiduals(previous, next, before, 4, 0) == None
  {
    hide WriteResiduals, FloatArrays;
    assert BuildResiduals(previous, next, before, 4, 3) == None;
    assert BuildResiduals(previous, next, before, 4, 2) == None;
    assert BuildResiduals(previous, next, before, 4, 1) == None;
  }

  lemma SelectedParts(all: seq<seq<nat>>, next: Value)
    requires 0 < |all| <= 4
    ensures
      var c := SortStable(CandidatesOf(all))[0];
      c.mode < |all| && Selected(all, next) == Some(FloatArrayStep(KindOf(c), c.mode, c.width, next, all[c.mode]))
  {
    SortSelectsCheapest(CandidatesOf(all));
    hide SortStable, Cheapest, PythonCandidate;
  }

  lemma SameCandidates(previous: Value, next: Value, before: Option<Value>, all: seq<seq<nat>>)
    requires FloatArrays(previous, next) && AllResiduals(all, previous, next, before, Offered(before, |next.items|), 0)
    ensures 0 < |all| == Offered(before, |next.items|) <= 4
    ensures CandidatesOf(all)
      == seq(|all|, m requires 0 <= m < |all| => PythonCandidate(m, FloatResiduals(m, previous, next, before)))
    ensures forall m :: 0 <= m < |all| ==> all[m] == FloatResiduals(m, previous, next, before)
  {
    forall m | 0 <= m < |all| ensures all[m] == FloatResiduals(m, previous, next, before) {
      assert all[m] == FloatResiduals(0 + m, previous, next, before);
    }
    hide FloatArrays, FloatResiduals, PythonCandidate, AllResiduals;
  }

  /** The selection made with the residuals at hand is the one of the specification. */
  lemma SelectedIs(previous: Value, next: Value, before: Option<Value>, all: seq<seq<nat>>)
    requires FloatArrays(previous, next) && AllResiduals(all, previous, next, before, Offered(before, |next.items|), 0)
    ensures Selected(all, next) == Some(ChosenStep(previous, next, before))
  {
    SameCandidates(previous, next, before, all);
    SelectedParts(all, next);
    hide FloatArrays, FloatResiduals, PythonCandidate, SortStable, Cheapest, FloatChoice, Selected, AllResiduals,
      Offered, CandidatesOf;
    PythonChoice(previous, next, before);
  }

  lemma FloatsBuilt(previous: Value, next: Value, before: Option<Value>)
    requires FloatArrays(previous, next)
    ensures BuildFloats(previous, next, before) ==
      if Same(previous, next)
        || HistoryNarrows(previous, before, |next.items|) then Some(CreateFloats(previous, next, before)) else None
  {
    var count := |next.items|;
    FloatArraysLength(previous, next);
    KeepFloats(previous, next, before);
    if Same(previous, next) {
      BuildFloatsParts(previous, next, before);
    } else {
      CreatedFloats(previous, next, before);
      BuildFloatsParts(previous, next, before);
      OfferedTestIs(previous, before, count);
      hide *;
      if HistoryNarrows(previous, before, count) {
        var offered := Offered(before, count);
        ResidualsBuilt(previous, next, before, offered, 0);
        SelectedIs(previous, next, before, BuildResiduals(previous, next, before, offered, 0).value);
      } else if OfferedTest(before, count).Some? {
        OfferedFour(before, count);
        ResidualsRaise(previous, next, before);
        FourRaise(previous, next, before);
      }
    }
  }

  lemma OfferedFour(before: Option<Value>, count: nat)
    requires FloatHistory(before, count)
    ensures Offered(before, count) == 4
  {
  }

  lemma BuildFloatsParts(previous: Value, next: Value, before: Option<Value>)
    requires FloatArrays(previous, next)
    ensures CreateFloats(previous, next, before).Keep? ==> BuildFloats(previous, next, before) == Some(Keep)
    ensures !CreateFloats(previous, next, before).Keep? ==>
      BuildFloats(previous, next, before) ==
        match OfferedTest(before, |next.items|)
        case None => None
        case Some(offered) =>
          match BuildResiduals(previous, next, before, offered, 0)
          case None => None
          case Some(all) => Selected(all, next)
  {
    hide FloatArrays, OfferedTest, BuildResiduals, Selected, PythonCandidate, SortStable;
  }

  lemma {:induction false} ChangesOfItems(previous: Value, next: Value, before: Option<Value>, i: nat)
    requires WellFormed(next) && next.Arr? && i <= |next.items|
    ensures ChangesOf(CreateItems(previous, next, before, i), i) == ItemChanges(previous, next, before, i)
    decreases |next.items| - i
  {
    if i < |next.items| {
      var steps := CreateItems(previous, next, before, i);
      assert steps[1..] == CreateItems(previous, next, before, i + 1);
      hide Create, WellFormed;
      ChangesOfItems(previous, next, before, i + 1);
    }
  }

  lemma ListCreated(previous: Value, next: Value, before: Option<Value>)
    requires WellFormed(next) && previous.Arr? && next.Arr? && !FloatArrays(previous, next)
    ensures Create(Some(previous), next, before) == ListStep(previous, next, CreateItems(previous, next, before, 0))
  {
    ChangesOfItems(previous, next, before, 0);
    hide WellFormed, FloatArrays, CreateItems, ItemChanges, ChangesOf;
  }

  lemma BuildCases(previous: Option<Value>, next: Value, before: Option<Value>)
    requires WellFormed(next)
    ensures previous.Some? && previous.value.Arr? && next.Arr? ==>
      Build(previous, next, before) ==
        match FloatTest(previous.value, next)
        case None => None
        case Some(floats) =>
          if floats && FloatArrays(previous.value, next) then BuildFloats(previous.value, next, before)
          else
            match BuildItems(previous.value, next, before, 0)
            case None => None
            case Some(steps) => Some(ListStep(previous.value, next, steps))
    ensures previous.Some? && previous.value.Obj? && next.Obj? ==>
      Build(previous, next, before) ==
        match BuildMembers(previous.value, next, before, 0)
        case None => None
        case Some(changes) =>
          var deletions := Deleted(previous.value.keys, next.vals);
          Some(if deletions == [] && changes == [] then Keep else ObjectStep(deletions, changes))
    ensures !(previous.Some? && ((previous.value.Arr? && next.Arr?) || (previous.value.Obj? && next.Obj?))) ==>
      Build(previous, next, before) == Some(Create(previous, next, before)) && BuildNarrows(previous, next, before)
  {
    hide FloatTest, FloatArrays, BuildFloats, BuildItems, BuildMembers, ListStep, WellFormed, CreateFloats,
      CreateItems, ItemChanges,
      MemberChanges, Deleted;
  }

  /** Building the tree gives the tree of the specification, or raises exactly when `BuildNarrows`
      says so. */
  lemma {:induction false} BuildAgrees(previous: Option<Value>, next: Value, before: Option<Value>)
    requires WellFormed(next) && WellFormedOption(previous)
    ensures Build(previous, next, before) == if BuildNarrows(previous, next, before)
      then Some(Create(previous, next, before)) else None
    decreases next, 1, 0
  {
    hide *;
    BuildCases(previous, next, before);
    PreviousWellFormed(previous);
    if previous.Some? && previous.value.Arr? && next.Arr? {
      FloatTestIs(previous.value, next);
      if FloatArrays(previous.value, next) {
        FloatsBuilt(previous.value, next, before);
        CreateOfFloats(previous.value, next, before);
        FloatsBuildNarrows(previous.value, next, before);
      } else {
        ArrayBuilds(previous.value, next, before);
        ListCreated(previous.value, next, before);
        ItemsBuilt(previous.value, next, before, 0);
      }
    } else if previous.Some? && previous.value.Obj? && next.Obj? {
      ObjectBuilds(previous.value, next, before);
      MembersBuilt(previous.value, next, before, 0);
      ObjectCreate(previous.value, next, before);
    }
  }

  lemma FloatsBuildNarrows(previous: Value, next: Value, before: Option<Value>)
    requires FloatArrays(previous, next)
    ensures BuildNarrows(Some(previous), next, before) ==
      (FloatTestNarrows(previous, next) && (Same(previous, next) || HistoryNarrows(previous, before, |next.items|)))
  {
    hide FloatTestNarrows, HistoryNarrows, Same;
  }

  lemma ObjectCreate(previous: Value, next: Value, before: Option<Value>)
    requires WellFormed(next) && previous.Obj? && next.Obj?
    ensures
      var deletions, changes := Deleted(previous.keys, next.vals), MemberChanges(previous, next, before, 0);
      Create(Some(previous), next, before) == if deletions == [] && changes == [] then Keep
        else ObjectStep(deletions, changes)
  {
    hide WellFormed, MemberChanges, Deleted, CreateFloats;
  }

  lemma {:induction false} ItemsBuilt(previous: Value, next: Value, before: Option<Value>, i: nat)
    requires WellFormed(next) && WellFormed(previous) && previous.Arr? && next.Arr? && i <= |next.items|
    ensures BuildItems(previous, next, before, i) ==
      if ItemsBuild(previous, next, before, i) then Some(CreateItems(previous, next, before, i)) else None
    decreases next, 0, |next.items| - i
  {
    hide *;
    BuildItemsParts(previous, next, before, i);
    if i < |next.items| {
      ItemsBuildCons(previous, next, before, i);
      WellFormedElement(previous, i);
      BuildAgrees(Element(Some(previous), i), next.items[i], Element(before, i));
      ItemsBuilt(previous, next, before, i + 1);
    }
  }

  lemma BuildItemsParts(previous: Value, next: Value, before: Option<Value>, i: nat)
    requires WellFormed(next) && next.Arr? && i <= |next.items|
    ensures i == |next.items| ==>
      BuildItems(previous, next, before, i) == Some([]) && CreateItems(previous, next, before, i) == []
        && ItemsBuild(previous, next, before, i)
    ensures i < |next.items| ==>
      var step, rest := Build(Element(Some(previous), i), next.items[i], Element(before, i)),
        BuildItems(previous, next, before, i + 1);
      && WellFormed(next.items[i])
      && BuildItems(previous, next, before, i)
           == (if step.Some? && rest.Some? then Some([step.value] + rest.value) else None)
      && CreateItems(previous, next, before, i)
        == [Create(Element(Some(previous), i), next.items[i], Element(before, i))]
          + CreateItems(previous, next, before, i + 1)
  {
    hide Build, Create, BuildNarrows;
  }

  lemma {:induction false} MembersBuilt(previous: Value, next: Value, before: Option<Value>, i: nat)
    requires WellFormed(next) && WellFormed(previous) && previous.Obj? && next.Obj? && Ordered(next.keys, next.vals)
    requires i <= |next.keys|
    ensures BuildMembers(previous, next, before, i) ==
      if MembersBuild(previous, next, before, i) then Some(MemberChanges(previous, next, before, i)) else None
    decreases next, 0, |next.keys| - i
  {
    hide *;
    BuildMembersParts(previous, next, before, i);
    if i < |next.keys| {
      MembersBuildCons(previous, next, before, i);
      WellFormedMember(previous, next.keys[i]);
      BuildAgrees(Member(Some(previous), next.keys[i]), next.vals[next.keys[i]], Member(before, next.keys[i]));
      MembersBuilt(previous, next, before, i + 1);
    }
  }

  lemma BuildMembersParts(previous: Value, next: Value, before: Option<Value>, i: nat)
    requires WellFormed(next) && next.Obj? && Ordered(next.keys, next.vals) && i <= |next.keys|
    ensures i == |next.keys| ==>
      && BuildMembers(previous, next, before, i) == Some([]) && MemberChanges(previous, next, before, i) == []
      && MembersBuild(previous, next, before, i)
    ensures i < |next.keys| ==>
      var key := next.keys[i];
      && key in next.vals && WellFormed(next.vals[key])
      && var step, rest := Build(Member(Some(previous), key), next.vals[key], Member(before, key)),
           BuildMembers(previous, next, before, i + 1);
         var created := Create(Member(Some(previous), key), next.vals[key], Member(before, key));
      && BuildMembers(previous, next, before, i) ==
           (if step.Some? && rest.Some?
            then Some((if step.value.Keep? then [] else [MemberChange(key, step.value)]) + rest.value) else None)
      && MemberChanges(previous, next, before, i) ==
           (if created.Keep? then [] else [MemberChange(key, created)]) + MemberChanges(previous, next, before, i + 1)
  {
    hide Build, Create, BuildNarrows;
  }

  // ----- one step, both stages -----

  /** create_replay_delta, then _write_delta. */
  ghost function EncodeStep(previous: Option<Value>, next: Value, before: Option<Value>): Option<seq<Op>>
    requires WellFormed(next)
  {
    match Build(previous, next, before)
    case None => None
    case Some(step) => WriteStep(previous, step, before)
  }

  /** The two stages make exactly the calls of the one-stage writer, or raise exactly when a number
      narrowed on the way is beyond the binary32 range or a dense array meets a shorter history. */
  lemma StepAgrees(previous: Option<Value>, next: Value, before: Option<Value>)
    requires WellFormed(next) && WellFormedOption(previous)
    ensures EncodeStep(previous, next, before) ==
      if BuildNarrows(previous, next, before)
        && Writes(previous, next, before) then Some(DeltaOps(previous, next, before)) else None
  {
    BuildAgrees(previous, next, before);
    if BuildNarrows(previous, next, before) {
      TreeAgrees(previous, next, before);
    }
    hide Build, WriteStep, BuildNarrows, Writes, DeltaOps, Create;
  }
}
