/** The aligned-key writer: objects with the same key order are compared slot by slot, the
    changed slots are kept in a bit mask, and values known to differ are not compared again. */
module OrderedDelta {
  import opened Base
  import opened Floats
  import opened Values
  import opened Wire
  import opened Delta
  import opened Buffers
  import opened ViewerWriter
  import FloatDelta

  // ----- equality over aligned slots -----

  /** Slots with equal keys are compared directly; only a misplaced key is looked up. */
  predicate SlotSame(a: Value, b: Value)
    requires WellFormed(a) && WellFormed(b)
    decreases a
  {
    match (a, b)
    case (Obj(ka, va), Obj(kb, vb)) =>
      |ka| == |kb| && forall i :: 0 <= i < |ka| ==>
        (KeyAt(a, i);
         KeyAt(b, i);
         if ka[i] == kb[i] then SlotSame(va[ka[i]], vb[kb[i]]) else ka[i] in vb && SlotSame(va[ka[i]], vb[ka[i]]))
    case (Arr(x), Arr(y)) => |x| == |y| && forall i :: 0 <= i < |x| ==> SlotSame(x[i], y[i])
    case _ => !(a.Arr? && b.Arr?) && !(a.Obj? && b.Obj?) && a == b
  }

  lemma KeyAt(v: Value, i: nat)
    requires WellFormed(v) && v.Obj? && i < |v.keys|
    ensures v.keys[i] in v.vals && WellFormed(v.vals[v.keys[i]])
  {
    assert v.keys[i] in v.keys;
  }

  function Elements(s: seq<string>): set<string> {
    set k | k in s
  }

  lemma {:induction false} DistinctCount(s: seq<string>)
    requires NoDuplicates(s)
    ensures |Elements(s)| == |s|
  {
    if s != [] {
      DistinctCount(s[1..]);
      assert s[0] !in s[1..];
      assert Elements(s) == Elements(s[1..]) + {s[0]};
    }
  }

  lemma SmallerSet(a: set<string>, b: set<string>)
    requires a <= b && |a| == |b|
    ensures a == b
  {
    if a != b {
      var k :| k in b && k !in a;
      assert a <= b - {k};
      SubsetSize(a, b - {k});
    }
  }

  lemma {:induction false} SubsetSize(a: set<string>, b: set<string>)
    requires a <= b
    ensures |a| <= |b|
  {
    if a != {} {
      var k :| k in a;
      SubsetSize(a - {k}, b - {k});
    }
  }

  /** As many keys, and all of them present, means the same keys. */
  lemma SameKeys(a: Value, b: Value)
    requires WellFormed(a) && WellFormed(b) && a.Obj? && b.Obj?
    requires |a.keys| == |b.keys| && forall i :: 0 <= i < |a.keys| ==> a.keys[i] in b.vals
    ensures a.vals.Keys == b.vals.Keys
  {
    DistinctCount(a.keys);
    DistinctCount(b.keys);
    assert Elements(a.keys) == a.vals.Keys && Elements(b.keys) == b.vals.Keys;
    SmallerSet(a.vals.Keys, b.vals.Keys);
  }

  lemma KeyCounts(a: Value, b: Value)
    requires WellFormed(a) && WellFormed(b) && a.Obj? && b.Obj? && a.vals.Keys == b.vals.Keys
    ensures |a.keys| == |b.keys|
  {
    DistinctCount(a.keys);
    DistinctCount(b.keys);
    assert Elements(a.keys) == a.vals.Keys && Elements(b.keys) == b.vals.Keys;
  }

  /** The aligned comparison decides deep equality. */
  lemma {:induction false} SlotSameIsSame(a: Value, b: Value)
    requires WellFormed(a) && WellFormed(b)
    ensures SlotSame(a, b) <==> Same(a, b)
    decreases a
  {
    match (a, b)
    case (Arr(x), Arr(y)) =>
      if |x| == |y| {
        forall i | 0 <= i < |x| ensures SlotSame(x[i], y[i]) <==> Same(x[i], y[i]) {
          SlotSameIsSame(x[i], y[i]);
        }
      }
    case (Obj(ka, va), Obj(kb, vb)) =>
      forall k | k in va && k in vb ensures SlotSame(va[k], vb[k]) <==> Same(va[k], vb[k]) {
        SlotSameIsSame(va[k], vb[k]);
      }
      if SlotSame(a, b) {
        SlotsCover(a, b);
      }
      if Same(a, b) {
        KeyCounts(a, b);
        forall i | 0 <= i < |ka| ensures ka[i] in va && ka[i] in vb {
          KeyAt(a, i);
        }
      }
    case _ =>
  }

  lemma SlotsCover(a: Value, b: Value)
    requires WellFormed(a) && WellFormed(b) && a.Obj? && b.Obj? && SlotSame(a, b)
    ensures a.vals.Keys == b.vals.Keys
    ensures forall k :: k in a.vals ==> SlotSame(a.vals[k], b.vals[k])
  {
    forall i | 0 <= i < |a.keys| ensures a.keys[i] in b.vals {
      KeyAt(a, i);
      KeyAt(b, i);
    }
    SameKeys(a, b);
    forall k | k in a.vals ensures SlotSame(a.vals[k], b.vals[k]) {
      assert k in a.keys;
      var i :| 0 <= i < |a.keys| && a.keys[i] == k;
    }
  }

  // ----- the changed mask -----

  const SLOTS: nat := 64

  predicate Bit(mask: nat, i: nat) {
    Unshift(mask, i) % 2 == 1
  }

  function CountOnes(mask: nat): nat {
    if mask == 0 then 0 else mask % 2 + CountOnes(mask / 2)
  }

  /** Setting the lowest bit above the mask. */
  lemma {:induction false} SetBit(mask: nat, i: nat)
    requires mask < Pow2(i)
    ensures
      var mask' := Or(mask, Shift(1, i));
      && mask' < Pow2(i + 1)
      && CountOnes(mask') == CountOnes(mask) + 1
      && !Bit(mask, i)
      && forall k: nat :: Bit(mask', k) <==> (k == i || Bit(mask, k))
  {
    if i == 0 {
      assert Or(0, 1) == 1 && CountOnes(1) == 1;
      forall k: nat ensures Bit(1, k) <==> k == 0 || Bit(0, k) {
        if k > 0 {
          assert Unshift(1, k) == Unshift(0, k - 1) && Unshift(0, k) == Unshift(0, k - 1);
        }
      }
    } else {
      var low, mask' := mask / 2, Or(mask, Shift(1, i));
      SetBit(low, i - 1);
      OrParts(mask, Shift(1, i));
      assert Shift(1, i) / 2 == Shift(1, i - 1) && Shift(1, i) % 2 == 0;
      assert mask' / 2 == Or(low, Shift(1, i - 1)) && mask' % 2 == mask % 2;
      forall k: nat ensures Bit(mask', k) <==> k == i || Bit(mask, k) {
        if k > 0 {
          assert Bit(mask', k) <==> Bit(mask' / 2, k - 1);
          assert Bit(mask, k) <==> Bit(low, k - 1);
        } else {
          assert Unshift(mask', k) == mask' && Unshift(mask, k) == mask;
        }
      }
    }
  }

  lemma {:induction false} BitAbove(mask: nat, i: nat)
    requires mask < Pow2(i)
    ensures !Bit(mask, i)
  {
    if i > 0 {
      BitAbove(mask / 2, i - 1);
    }
  }

  predicate SlotChanged(previous: Value, next: Value, i: nat)
    requires next.Obj? && i < |next.keys| && next.keys[i] in next.vals
  {
    Changed(Member(Some(previous), next.keys[i]), next.vals[next.keys[i]])
  }

  /** The mask has a bit for every changed slot before i and counts them. */
  ghost predicate Masked(previous: Value, next: Value, i: nat, mask: nat)
    requires next.Obj? && Ordered(next.keys, next.vals) && i <= |next.keys|
  {
    && mask < Pow2(i)
    && (forall k :: 0 <= k < i ==> next.keys[k] in next.vals && (Bit(mask, k) <==> SlotChanged(previous, next, k)))
    && CountOnes(mask) + ChangedMembers(previous, next, i) == ChangedMembers(previous, next, 0)
  }

  lemma MaskedNext(previous: Value, next: Value, i: nat, mask: nat)
    requires next.Obj? && Ordered(next.keys, next.vals) && i < |next.keys| && Masked(previous, next, i, mask)
    ensures next.keys[i] in next.vals
    ensures Masked(previous, next, i + 1, if SlotChanged(previous, next, i) then Or(mask, Shift(1, i)) else mask)
  {
    assert next.keys[i] in next.keys;
    SetBit(mask, i);
    BitAbove(mask, i);
    hide Bit, Or, Shift, CountOnes, Same;
    if !SlotChanged(previous, next, i) {
      assert !Bit(mask, i);
    }
  }

  /** Both objects have the same keys in the same order, few enough for the mask. */
  predicate Aligned(previous: Value, next: Value) {
    previous.Obj? && next.Obj? && |previous.keys| == |next.keys| <= SLOTS
      && forall i :: 0 <= i < |previous.keys| ==> previous.keys[i] == next.keys[i]
  }

  lemma {:induction false} NothingDeleted(keys: seq<string>, vals: map<string, Value>)
    requires forall k :: k in keys ==> k in vals
    ensures Deleted(keys, vals) == []
  {
    if keys != [] {
      assert keys[0] in keys;
      NothingDeleted(keys[1..], vals);
    }
  }

  lemma AlignedShape(previous: Value, next: Value, before: Option<Value>)
    requires WellFormed(previous) && WellFormed(next) && Aligned(previous, next)
    ensures Ordered(next.keys, next.vals)
    ensures ObjectOps(previous, next, before) == [Byte(DELTA_OBJECT)] + ([Varuint(0)]
      + ([Varuint(ChangedMembers(previous, next, 0))] + MemberDeltaOps(previous, next, before, 0)))
    ensures forall i :: 0 <= i < |next.keys| ==> next.keys[i] in previous.vals && next.keys[i] in next.vals
  {
    hide MemberDeltaOps, ChangedMembers;
    assert previous.keys == next.keys;
    forall i | 0 <= i < |next.keys| ensures next.keys[i] in previous.vals && next.keys[i] in next.vals {
      KeyAt(previous, i);
      KeyAt(next, i);
    }
    NothingDeleted(previous.keys, next.vals);
    var rest := [Varuint(ChangedMembers(previous, next, 0))] + MemberDeltaOps(previous, next, before, 0);
    assert [] + rest == rest;
  }

  lemma ChangedSlot(previous: Value, next: Value, i: nat)
    requires WellFormed(previous) && WellFormed(next) && Aligned(previous, next) && i < |next.keys|
    ensures previous.keys[i] == next.keys[i] && next.keys[i] in previous.vals && next.keys[i] in next.vals
    ensures WellFormed(previous.vals[next.keys[i]]) && WellFormed(next.vals[next.keys[i]])
    ensures Member(Some(previous), next.keys[i]) == Some(previous.vals[next.keys[i]])
    ensures SlotChanged(previous, next, i) <==> !SlotSame(previous.vals[next.keys[i]], next.vals[next.keys[i]])
  {
    KeyAt(previous, i);
    KeyAt(next, i);
    SlotSameIsSame(previous.vals[next.keys[i]], next.vals[next.keys[i]]);
  }

  method FindMask(previous: Value, next: Value) returns (mask: nat)
    requires WellFormed(previous) && WellFormed(next) && Aligned(previous, next) && Ordered(next.keys, next.vals)
    ensures Masked(previous, next, |next.keys|, mask)
  {
    AlignedStart(previous, next);
    hide *;
    mask := 0;
    for i := 0 to |next.keys|
      invariant Masked(previous, next, i, mask)
    {
      ChangedSlot(previous, next, i);
      MaskedNext(previous, next, i, mask);
      if !SlotSame(previous.vals[previous.keys[i]], next.vals[next.keys[i]]) {
        mask := Or(mask, Shift(1, i));
      }
    }
  }

  lemma AlignedStart(previous: Value, next: Value)
    requires next.Obj? && Ordered(next.keys, next.vals) && Aligned(previous, next)
    ensures previous.Obj? && |previous.keys| == |next.keys| && Masked(previous, next, 0, 0)
  {
  }

  lemma MaskedEnd(previous: Value, next: Value, mask: nat, i: nat)
    requires next.Obj? && Ordered(next.keys, next.vals) && Masked(previous, next, |next.keys|, mask)
    ensures CountOnes(mask) == ChangedMembers(previous, next, 0)
    ensures i < |next.keys| ==> next.keys[i] in next.vals && (Bit(mask, i) <==> SlotChanged(previous, next, i))
  {
  }

  // ----- the writer -----

  /** Sound only for a caller that has found the values to differ when it says so. */
  method Write(writer: BinaryWriter, previous: Option<Value>, next: Value, before: Option<Value>) returns (a: Attempt)
    requires writer.Valid() && WellFormed(next) && WellFormedOption(previous)
    modifies writer
    ensures writer.Valid()
    ensures a.Done? ==> writer.calls == old(writer.calls) + DeltaOps(previous, next, before)
    ensures a.Raised? ==> !Safe([], old(writer.calls) + DeltaOps(previous, next, before))
  {
    a := WriteInner(writer, previous, next, before, false);
  }

  method WriteInner(writer: BinaryWriter, previous: Option<Value>, next: Value, before: Option<Value>,
                    changedKnown: bool) returns (a: Attempt)
    requires writer.Valid() && WellFormed(next) && WellFormedOption(previous)
    requires changedKnown ==> Changed(previous, next)
    modifies writer
    ensures writer.Valid()
    ensures a.Done? ==> writer.calls == old(writer.calls) + DeltaOps(previous, next, before)
    ensures a.Raised? ==> !Safe([], old(writer.calls) + DeltaOps(previous, next, before))
    decreases next, 2
  {
    hide *;
    DeltaOpsShape(previous, next, before);
    SomeWellFormed(previous);
    ChangedBySlots(previous, next);
    ghost var goal := writer.calls + DeltaOps(previous, next, before);
    var handled;
    handled, a := FloatDelta.Write(writer, previous, next, before);
    if handled {
      return;
    }
    if !changedKnown && previous.Some? && SlotSame(previous.value, next) {
      writer.Byte(DELTA_SAME);
      return;
    }
    if previous.Some? && Aligned(previous.value, next) {
      a := WriteAligned(writer, previous.value, next, before, goal);
    } else if previous.Some? && previous.value.Arr? && next.Arr? && !FloatArrays(previous.value, next) {
      a := WriteItemDeltas(writer, previous.value, next, before, goal);
    } else {
      a := WriteDelta(writer, previous, next, before);
    }
  }

  lemma ChangedBySlots(previous: Option<Value>, next: Value)
    requires WellFormed(next) && WellFormedOption(previous)
    ensures Changed(previous, next) <==> previous.None? || !SlotSame(previous.value, next)
    ensures previous.Some? && Aligned(previous.value, next) ==> previous.value.Obj? && next.Obj?
  {
    if previous.Some? {
      SlotSameIsSame(previous.value, next);
    }
  }

  method WriteAligned(writer: BinaryWriter, previous: Value, next: Value, before: Option<Value>, ghost goal: seq<Op>)
    returns (a: Attempt)
    requires writer.Valid() && WellFormed(next) && WellFormed(previous) && Aligned(previous, next) && previous.Obj?
    requires next.Obj?
    requires writer.calls + ObjectOps(previous, next, before) == goal
    modifies writer
    ensures writer.Valid()
    ensures a.Done? ==> writer.calls == goal
    ensures a.Raised? ==> !Safe([], goal)
    decreases next, 1
  {
    hide *;
    AlignedShape(previous, next, before);
    var mask := FindMask(previous, next);
    MaskedEnd(previous, next, mask, 0);
    ghost var members := MemberDeltaOps(previous, next, before, 0);
    Next(writer.calls, [Byte(DELTA_OBJECT)], [Varuint(0)] + ([Varuint(CountOnes(mask))] + members), goal);
    writer.Byte(DELTA_OBJECT);
    Next(writer.calls, [Varuint(0)], [Varuint(CountOnes(mask))] + members, goal);
    a := writer.Varuint(0);
    if a.Raised? {
      return;
    }
    Next(writer.calls, [Varuint(CountOnes(mask))], members, goal);
    a := writer.Varuint(CountOnes(mask));
    if a.Raised? {
      return;
    }
    a := WriteMaskedSlots(writer, previous, next, before, mask, goal);
  }

  method WriteMaskedSlots(writer: BinaryWriter, previous: Value, next: Value, before: Option<Value>, mask: nat,
                          ghost goal: seq<Op>) returns (a: Attempt)
    requires writer.Valid() && WellFormed(next) && WellFormed(previous) && Aligned(previous, next) && previous.Obj?
    requires next.Obj?
    requires Ordered(next.keys, next.vals) && Masked(previous, next, |next.keys|, mask)
    requires writer.calls + MemberDeltaOps(previous, next, before, 0) == goal
    modifies writer
    ensures writer.Valid()
    ensures a.Done? ==> writer.calls == goal
    ensures a.Raised? ==> !Safe([], goal)
    decreases next, 0
  {
    hide *;
    for i := 0 to |next.keys|
      invariant writer.Valid() && writer.calls + MemberDeltaOps(previous, next, before, i) == goal
    {
      MemberDeltaOpsStep(previous, next, before, i);
      ChangedSlot(previous, next, i);
      MaskedEnd(previous, next, mask, i);
      SlotChangedParts(previous, next, i);
      var key := next.keys[i];
      if Bit(mask, i) {
        ghost var step, rest :=
          DeltaOps(Member(Some(previous), key), next.vals[key], Member(before, key)),
          MemberDeltaOps(previous, next, before, i + 1);
        Next(writer.calls, [Text(key)], step + rest, goal);
        a := writer.String(key);
        if a.Raised? {
          return;
        }
        Next(writer.calls, step, rest, goal);
        SomeWellFormed(Some(previous.vals[key]));
        a := WriteInner(writer, Some(previous.vals[key]), next.vals[key], Member(before, key), true);
        if a.Raised? {
          return;
        }
      }
    }
    MemberDeltaOpsStep(previous, next, before, |next.keys|);
    Last(writer.calls, goal);
    return Done;
  }

  lemma SlotChangedParts(previous: Value, next: Value, i: nat)
    requires next.Obj? && i < |next.keys| && next.keys[i] in next.vals
    ensures SlotChanged(previous, next, i) <==> Changed(Member(Some(previous), next.keys[i]), next.vals[next.keys[i]])
  {
  }

  method WriteItemDeltas(writer: BinaryWriter, previous: Value, next: Value, before: Option<Value>,
                         ghost goal: seq<Op>) returns (a: Attempt)
    requires writer.Valid() && WellFormed(next) && WellFormed(previous) && previous.Arr? && next.Arr?
    requires writer.calls + ArrayOps(previous, next, before) == goal
    modifies writer
    ensures writer.Valid()
    ensures a.Done? ==> writer.calls == goal
    ensures a.Raised? ==> !Safe([], goal)
    decreases next, 1
  {
    ArrayOpsShape(previous, next, before);
    hide *;
    ChangedCount(previous, next);
    var changed := FindChangedBySlots(previous, next);
    if |previous.items| == |next.items| && |changed| > |next.items| / 2 {
      Next(writer.calls, [Byte(DELTA_DENSE_ARRAY)], DenseOps(previous, next, before, 0), goal);
      writer.Byte(DELTA_DENSE_ARRAY);
      a := WriteDense(writer, previous, next, before, changed, goal);
    } else {
      SparseIsListed(previous, next, before, 0);
      Next(writer.calls, [Byte(DELTA_ARRAY)],
           [Varuint(|next.items|)] + ([Varuint(|changed|)] + SparseOps(previous, next, before, 0)), goal);
      writer.Byte(DELTA_ARRAY);
      Next(writer.calls, [Varuint(|next.items|)], [Varuint(|changed|)] + SparseOps(previous, next, before, 0), goal);
      a := writer.Varuint(|next.items|);
      if a.Raised? {
        return;
      }
      Next(writer.calls, [Varuint(|changed|)], SparseOps(previous, next, before, 0), goal);
      a := writer.Varuint(|changed|);
      if a.Raised? {
        return;
      }
      a := WriteListedItems(writer, previous, next, before, changed, goal);
    }
  }

  lemma ItemSlots(previous: Value, next: Value, i: nat)
    requires WellFormed(previous) && WellFormed(next) && previous.Arr? && next.Arr? && i < |next.items|
    ensures WellFormed(next.items[i]) && (i < |previous.items| ==> WellFormed(previous.items[i]))
    ensures Element(Some(previous), i) == if i < |previous.items| then Some(previous.items[i]) else None
    ensures Changed(Element(Some(previous), i), next.items[i]) <==>
      i >= |previous.items| || !SlotSame(previous.items[i], next.items[i])
  {
    if i < |previous.items| {
      SlotSameIsSame(previous.items[i], next.items[i]);
    }
  }

  method FindChangedBySlots(previous: Value, next: Value) returns (changed: seq<nat>)
    requires WellFormed(previous) && WellFormed(next) && previous.Arr? && next.Arr?
    ensures changed == ChangedIndexes(previous, next, 0)
  {
    hide *;
    changed := [];
    for i := 0 to |next.items|
      invariant changed + ChangedIndexes(previous, next, i) == ChangedIndexes(previous, next, 0)
    {
      ItemSlots(previous, next, i);
      ChangedIndexesStep(previous, next, i);
      if i >= |previous.items| || !SlotSame(previous.items[i], next.items[i]) {
        changed := changed + [i];
      }
    }
    ChangedIndexesStep(previous, next, |next.items|);
  }

  lemma UnchangedOps(previous: Option<Value>, next: Value, before: Option<Value>)
    requires WellFormed(next)
    ensures !Changed(previous, next) ==> DeltaOps(previous, next, before) == [Byte(DELTA_SAME)]
  {
  }

  /** The next listed index is due exactly at a changed item. */
  lemma DueAt(previous: Value, next: Value, changed: seq<nat>, j: nat, i: nat)
    requires next.Arr? && i < |next.items| && j <= |changed| && changed[j..] == ChangedIndexes(previous, next, i)
    ensures Changed(Element(Some(previous), i), next.items[i]) <==> j < |changed| && changed[j] == i
    ensures Changed(Element(Some(previous), i), next.items[i]) ==>
      changed[j + 1..] == ChangedIndexes(previous, next, i + 1)
    ensures !Changed(Element(Some(previous), i), next.items[i]) ==>
      changed[j..] == ChangedIndexes(previous, next, i + 1)
  {
    hide Changed;
    ChangedIndexesStep(previous, next, i);
    ChangedIndexesFacts(previous, next, i + 1);
    if Changed(Element(Some(previous), i), next.items[i]) {
      assert changed[j..][0] == i && changed[j..][1..] == changed[j + 1..];
    } else if j < |changed| {
      assert changed[j..][0] == changed[j];
    }
  }

  method WriteDense(writer: BinaryWriter, previous: Value, next: Value, before: Option<Value>, changed: seq<nat>,
                    ghost goal: seq<Op>) returns (a: Attempt)
    requires writer.Valid() && WellFormed(next) && WellFormed(previous) && next.Arr?
    requires changed == ChangedIndexes(previous, next, 0)
    requires writer.calls + DenseOps(previous, next, before, 0) == goal
    modifies writer
    ensures writer.Valid()
    ensures a.Done? ==> writer.calls == goal
    ensures a.Raised? ==> !Safe([], goal)
    decreases next, 0
  {
    hide *;
    WellFormedParts(previous);
    var j := 0;
    for i := 0 to |next.items|
      invariant writer.Valid() && writer.calls + DenseOps(previous, next, before, i) == goal
      invariant 0 <= j <= |changed| && changed[j..] == ChangedIndexes(previous, next, i)
    {
      DenseOpsStep(previous, next, before, i);
      DueAt(previous, next, changed, j, i);
      Next(writer.calls, DeltaOps(Element(Some(previous), i), next.items[i], Element(before, i)),
           DenseOps(previous, next, before, i + 1), goal);
      if j < |changed| && changed[j] == i {
        j := j + 1;
        a := WriteInner(writer, Element(Some(previous), i), next.items[i], Element(before, i), true);
        if a.Raised? {
          return;
        }
      } else {
        UnchangedOps(Element(Some(previous), i), next.items[i], Element(before, i));
        writer.Byte(DELTA_SAME);
      }
    }
    DenseOpsStep(previous, next, before, |next.items|);
    Last(writer.calls, goal);
    return Done;
  }

  lemma {:induction false} ListedAreChanged(previous: Value, next: Value, i: nat, j: nat)
    requires next.Arr? && i <= |next.items| && j < |ChangedIndexes(previous, next, i)|
    ensures
      var k := ChangedIndexes(previous, next, i)[j];
      k < |next.items| && Changed(Element(Some(previous), k), next.items[k])
    decreases |next.items| - i
  {
    hide Changed;
    ChangedIndexesStep(previous, next, i);
    if i < |next.items| {
      if !Changed(Element(Some(previous), i), next.items[i]) {
        ListedAreChanged(previous, next, i + 1, j);
      } else if j > 0 {
        ListedAreChanged(previous, next, i + 1, j - 1);
      }
    }
  }

  method WriteListedItems(writer: BinaryWriter, previous: Value, next: Value, before: Option<Value>,
                          changed: seq<nat>, ghost goal: seq<Op>) returns (a: Attempt)
    requires writer.Valid() && WellFormed(next) && WellFormed(previous) && next.Arr? && InRange(next, changed)
    requires changed == ChangedIndexes(previous, next, 0)
    requires writer.calls + ListedItems(previous, next, before, changed) == goal
    modifies writer
    ensures writer.Valid()
    ensures a.Done? ==> writer.calls == goal
    ensures a.Raised? ==> !Safe([], goal)
    decreases next, 0
  {
    hide *;
    WellFormedParts(previous);
    assert changed[0..] == changed;
    for j := 0 to |changed|
      invariant writer.Valid() && InRange(next, changed[j..])
      invariant writer.calls + ListedItems(previous, next, before, changed[j..]) == goal
    {
      ListedItemsStep(previous, next, before, changed, j);
      ListedAreChanged(previous, next, 0, j);
      var i := changed[j];
      ghost var step, rest :=
        DeltaOps(Element(Some(previous), i), next.items[i], Element(before, i)),
        ListedItems(previous, next, before, changed[j + 1..]);
      Next(writer.calls, [Varuint(i)], step + rest, goal);
      a := writer.Varuint(i);
      if a.Raised? {
        return;
      }
      Next(writer.calls, step, rest, goal);
      a := WriteInner(writer, Element(Some(previous), i), next.items[i], Element(before, i), true);
      if a.Raised? {
        return;
      }
    }
    ListedItemsStep(previous, next, before, changed, |changed|);
    Last(writer.calls, goal);
    return Done;
  }
}
