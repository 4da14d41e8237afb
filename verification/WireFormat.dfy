/** The encoding spelled out in bytes: which byte stands for what, in what order, for every value and
    every step between ticks. The encoder puts exactly these bytes on the wire. */
module WireFormat {
  import opened Base
  import opened Floats
  import opened Values
  import opened Utf8
  import opened Wire
  import opened Delta
  import P = Packing
  import R = Residuals
  import V = ViewerWriter
  import W = WriterRange

  /** Bytes, and the strings a reader knows behind them. */
  datatype Spelled = Spelled(bytes: seq<byte>, strings: seq<string>)

  function Join(a: Spelled, b: Spelled): Spelled {
    Spelled(a.bytes + b.bytes, b.strings)
  }

  function Count(n: nat): seq<byte> {
    VaruintBytes(n)
  }

  /** A string: twice its number when it is known, and otherwise one more than twice its length in
      bytes, and the bytes. */
  function Name(strings: seq<string>, s: string): Spelled {
    if s in strings then Spelled(Count(2 * IndexOf(strings, s)), strings)
    else Spelled(Count(2 * |Encode(s)| + 1) + Encode(s), strings + [s])
  }

  function Names(strings: seq<string>, keys: seq<string>): Spelled
    decreases |keys|
  {
    if keys == [] then Spelled([], strings)
    else
      var first := Name(strings, keys[0]);
      Join(first, Names(first.strings, keys[1..]))
  }

  // ----- whole values -----

  function NumberBytes(x: F64): seq<byte> {
    if SafeInteger(x) then [3, if ToInt(x) < 0 then 1 else 0] + Count(if ToInt(x) < 0 then -ToInt(x) else ToInt(x))
    else if ExactF32(x) && x != 0x8000_0000_0000_0000 then [4] + P.LittleEndian(Narrow(x), 4)
    else [5] + P.LittleEndian(x, 8)
  }

  function ValueBytes(strings: seq<string>, v: Value): Spelled
    requires WellFormed(v)
    decreases v, 1, 0
  {
    match v
    case Null => Spelled([0], strings)
    case Bool(b) => Spelled([if b then 2 else 1], strings)
    case Num(x) => Spelled(NumberBytes(x), strings)
    case Str(text) => Join(Spelled([6], strings), Name(strings, text))
    case Arr(items) => Join(Spelled([7] + Count(|items|), strings), ItemBytes(strings, v, 0))
    case Obj(keys, _) => Join(Spelled([8] + Count(|keys|), strings), MemberBytes(strings, v, 0))
  }

  function ItemBytes(strings: seq<string>, v: Value, i: nat): Spelled
    requires WellFormed(v) && v.Arr? && i <= |v.items|
    decreases v, 0, |v.items| - i
  {
    if i == |v.items| then Spelled([], strings)
    else
      var first := ValueBytes(strings, v.items[i]);
      Join(first, ItemBytes(first.strings, v, i + 1))
  }

  function MemberBytes(strings: seq<string>, v: Value, i: nat): Spelled
    requires WellFormed(v) && v.Obj? && i <= |v.keys|
    decreases v, 0, |v.keys| - i
  {
    if i == |v.keys| then Spelled([], strings)
    else
      var key := Name(strings, v.keys[i]);
      var member := ValueBytes(key.strings, v.vals[v.keys[i]]);
      Join(key, Join(member, MemberBytes(member.strings, v, i + 1)))
  }

  // ----- numbers after numbers -----

  /** A signed number as a count: 0, -1, 1, -2, 2 and so on. */
  function Fold(d: int): nat {
    if d < 0 then -2 * d - 1 else 2 * d
  }

  /** The signed 32-bit number that differs from d by a multiple of 2^32. */
  function Wrapped(d: int): int {
    (d + 0x8000_0000) % 0x1_0000_0000 - 0x8000_0000
  }

  /** What the four modes write of a binary32 number: its difference by bits from the number before,
      its distance from that number, and its distance from two extrapolations of the two before. */
  function Off(mode: nat, before: F64, previous: F64, next: F64): nat {
    if mode == 0 then Xor(Narrow(previous), Narrow(next))
    else if mode == 1 then Fold(Wrapped(Narrow(next) - Narrow(previous)))
    else if mode == 2 then Fold(Wrapped(Narrow(next) - (2 * Narrow(previous) - Narrow(before))))
    else Fold(Wrapped(Narrow(next) - Narrow(Minus(Twice(previous), before))))
  }

  /** The position of the first least number. */
  function FirstLeast(costs: seq<nat>): (k: nat)
    requires costs != []
    ensures k < |costs|
    ensures forall j :: 0 <= j < |costs| ==> costs[k] <= costs[j]
    ensures forall j :: 0 <= j < k ==> costs[k] < costs[j]
  {
    var n := |costs| - 1;
    if n == 0 then 0
    else
      var k := FirstLeast(costs[..n]);
      assert forall j :: 0 <= j < n ==> costs[..n][j] == costs[j];
      if costs[n] < costs[k] then n else k
  }

  function XorBytes(previous: F64, next: F64): seq<byte> {
    var x := Xor(previous, next);
    var zeros := ZeroBytes(x, 7);
    var length := SignificantLength(Unshift(x, 8 * zeros));
    Xor64(previous, next);
    ZeroBytesBound(x, 7);
    UnshiftShrinks(x, 8 * zeros);
    SignificantLengthBound(Unshift(x, 8 * zeros));
    [16 * zeros + (length - 1)] + P.LittleEndian(Unshift(x, 8 * zeros), length)
  }

  /** How many bytes each of the modes offered would take. */
  function Lengths(offered: nat, before: F64, previous: F64, next: F64): (lengths: seq<nat>)
    ensures |lengths| == offered
    ensures forall m :: 0 <= m < offered ==> lengths[m] == |Count(Off(m, before, previous, next))|
  {
    seq(offered, m requires 0 <= m < offered => |Count(Off(m, before, previous, next))|)
  }

  function ModeBytes(mode: nat, before: F64, previous: F64, next: F64): seq<byte> {
    [match mode case 0 => 5 case 1 => 9 case 2 => 13 case _ => 14] + Count(Off(mode, before, previous, next))
  }

  /** A small integer step, the shortest of the float32 modes offered, or the bits that differ. The
      two extrapolating modes are offered when the number before last is a binary32 number too. */
  function NumberStepBytes(previous: F64, next: F64, before: Option<F64>): seq<byte> {
    if SafeInteger(previous) && SafeInteger(next) && SmallStep(ToInt(next) - ToInt(previous)) then
      [6] + Count(Fold(ToInt(next) - ToInt(previous)))
    else if ExactF32(previous) && ExactF32(next) then
      if before.Some? && ExactF32(before.value) then
        ModeBytes(FirstLeast(Lengths(4, before.value, previous, next)), before.value, previous, next)
      else ModeBytes(FirstLeast(Lengths(2, previous, previous, next)), previous, previous, next)
    else [4] + XorBytes(previous, next)
  }

  predicate SmallStep(d: int) {
    -4_503_599_627_370_495 <= d <= 4_503_599_627_370_495
  }

  // ----- arrays of numbers after arrays of numbers -----

  /** What one mode writes of every item. */
  function Offs(mode: nat, before: seq<F64>, previous: seq<F64>, next: seq<F64>): (offs: seq<nat>)
    requires |before| == |previous| == |next|
    ensures |offs| == |next|
    ensures forall i :: 0 <= i < |offs| ==> offs[i] == Off(mode, before[i], previous[i], next[i])
  {
    seq(|next|, i requires 0 <= i < |next| => Off(mode, before[i], previous[i], next[i]))
  }

  function Counts(values: seq<nat>): seq<byte> {
    if values == [] then [] else Count(values[0]) + Counts(values[1..])
  }

  /** The bits that the widest of the values takes. */
  function Width(values: seq<nat>): nat {
    if values == [] then 0 else Max(BitLen(values[0]), Width(values[1..]))
  }

  /** Packing side by side takes two bytes and the bits, rounded up, and is chosen when it saves a
      quarter. */
  predicate Packs(values: seq<nat>) {
    4 * (2 + (|values| * Width(values) + 7) / 8) <= 3 * |Counts(values)|
  }

  function Cost(values: seq<nat>): nat {
    if Packs(values) then 2 + (|values| * Width(values) + 7) / 8 else |Counts(values)|
  }

  function Costs(offered: nat, before: seq<F64>, previous: seq<F64>, next: seq<F64>): (costs: seq<nat>)
    requires |before| == |previous| == |next|
    ensures |costs| == offered
    ensures forall m :: 0 <= m < offered ==> costs[m] == Cost(Offs(m, before, previous, next))
  {
    seq(offered, m requires 0 <= m < offered => Cost(Offs(m, before, previous, next)))
  }

  function FloatBytes(mode: nat, before: seq<F64>, previous: seq<F64>, next: seq<F64>): seq<byte>
    requires |before| == |previous| == |next| && mode < 4
  {
    var offs := Offs(mode, before, previous, next);
    OffsNarrow(mode, before, previous, next);
    if Packs(offs) then [15, mode, Width(offs)] + P.PackedBytes(offs, Width(offs))
    else [match mode case 0 => 10 case 1 => 8 case 2 => 11 case _ => 12] + Counts(offs)
  }

  /** One list of binary32 numbers after another of the same length, in the cheapest mode offered. The
      two extrapolating modes are offered when the list before last is of that kind and length too. */
  function FloatStepBytes(previous: Value, next: Value, before: Option<Value>): seq<byte>
    requires FloatLists(previous, next)
  {
    var p, n := BitsOf(previous), BitsOf(next);
    if before.Some? && ExactArray(before.value) && |before.value.items| == |n| then
      FloatBytes(FirstLeast(Costs(4, BitsOf(before.value), p, n)), BitsOf(before.value), p, n)
    else FloatBytes(FirstLeast(Costs(2, p, p, n)), p, p, n)
  }

  predicate FloatLists(previous: Value, next: Value) {
    ExactArray(previous) && ExactArray(next) && 0 < |previous.items| == |next.items|
  }

  // ----- one value after another -----

  predicate Differs(previous: Option<Value>, next: Value) {
    previous.Some? ==> !Same(previous.value, next)
  }

  function DifferentItems(previous: Value, next: Value): set<nat>
    requires next.Arr?
  {
    set i: nat | 0 <= i < |next.items| && Differs(Element(Some(previous), i), next.items[i])
  }

  function DifferentMembers(previous: Value, next: Value): set<string>
    requires next.Obj?
  {
    set k | k in next.vals && Differs(Member(Some(previous), k), next.vals[k])
  }

  /** The keys that are gone, in their old order. */
  function Gone(keys: seq<string>, next: map<string, Value>): seq<string> {
    if keys == [] then []
    else
      var last := keys[|keys| - 1];
      Gone(keys[..|keys| - 1], next) + (if last in next then [] else [last])
  }

  /** A step from one value to the next, with the value before last for the extrapolations: nothing, a
      new value, a number, a list of numbers, every item, some items, or some members. */
  function StepBytes(strings: seq<string>, previous: Option<Value>, next: Value, before: Option<Value>): Spelled
    requires WellFormed(next)
    decreases next, 2, 0
  {
    if previous.None? then Join(Spelled([1], strings), ValueBytes(strings, next))
    else if Same(previous.value, next) then Spelled([0], strings)
    else
      match (previous.value, next)
      case (Num(p), Num(n)) => Spelled(NumberStepBytes(p, n, NumberOf(before)), strings)
      case (Arr(_), Arr(_)) => ListStepBytes(strings, previous.value, next, before)
      case (Obj(_, _), Obj(_, _)) => ObjectStepBytes(strings, previous.value, next, before)
      case _ => Join(Spelled([1], strings), ValueBytes(strings, next))
  }

  function ListStepBytes(strings: seq<string>, previous: Value, next: Value, before: Option<Value>): Spelled
    requires WellFormed(next) && previous.Arr? && next.Arr?
    decreases next, 1, 0
  {
    var n, changes := |next.items|, |DifferentItems(previous, next)|;
    if FloatLists(previous, next) then Spelled(FloatStepBytes(previous, next, before), strings)
    else if |previous.items| == n && 2 * changes > n then
      Join(Spelled([7], strings), AllItemBytes(strings, previous, next, before, 0))
    else Join(Spelled([3] + (Count(n) + Count(changes)), strings), SomeItemBytes(strings, previous, next, before, 0))
  }

  function ObjectStepBytes(strings: seq<string>, previous: Value, next: Value, before: Option<Value>): Spelled
    requires WellFormed(next) && previous.Obj? && next.Obj?
    decreases next, 1, 0
  {
    var gone := Gone(previous.keys, next.vals);
    var names := Names(strings, gone);
    Join(Spelled([2] + Count(|gone|), strings),
         Join(names, Join(Spelled(Count(|DifferentMembers(previous, next)|), names.strings),
                          SomeMemberBytes(names.strings, previous, next, before, 0))))
  }

  /** Every item from i on, changed or not. */
  function AllItemBytes(strings: seq<string>, previous: Value, next: Value, before: Option<Value>, i: nat): Spelled
    requires WellFormed(next) && next.Arr? && i <= |next.items|
    decreases next, 0, |next.items| - i
  {
    if i == |next.items| then Spelled([], strings)
    else
      var step := StepBytes(strings, Element(Some(previous), i), next.items[i], Element(before, i));
      Join(step, AllItemBytes(step.strings, previous, next, before, i + 1))
  }

  /** The changed items from i on, each behind its index. */
  function SomeItemBytes(strings: seq<string>, previous: Value, next: Value, before: Option<Value>, i: nat): Spelled
    requires WellFormed(next) && next.Arr? && i <= |next.items|
    decreases next, 0, |next.items| - i
  {
    if i == |next.items| then Spelled([], strings)
    else if Differs(Element(Some(previous), i), next.items[i]) then
      var step := StepBytes(strings, Element(Some(previous), i), next.items[i], Element(before, i));
      Join(Spelled(Count(i), strings), Join(step, SomeItemBytes(step.strings, previous, next, before, i + 1)))
    else SomeItemBytes(strings, previous, next, before, i + 1)
  }

  /** The changed members from the i-th on, each behind its name. */
  function SomeMemberBytes(strings: seq<string>, previous: Value, next: Value, before: Option<Value>, i: nat): Spelled
    requires WellFormed(next) && next.Obj? && i <= |next.keys|
    decreases next, 0, |next.keys| - i
  {
    if i == |next.keys| then Spelled([], strings)
    else
      var key := next.keys[i];
      if Differs(Member(Some(previous), key), next.vals[key]) then
        var name := Name(strings, key);
        var step := StepBytes(name.strings, Member(Some(previous), key), next.vals[key], Member(before, key));
        Join(name, Join(step, SomeMemberBytes(step.strings, previous, next, before, i + 1)))
      else SomeMemberBytes(strings, previous, next, before, i + 1)
  }

  // ----- chunks -----

  /** The ticks from i on, each a step from the tick before. */
  function TickBytes(strings: seq<string>, ticks: seq<Value>, i: nat): Spelled
    requires 1 <= i <= |ticks| && AllWellFormed(ticks)
    decreases |ticks| - i
  {
    if i == |ticks| then Spelled([], strings)
    else
      var step := StepBytes(strings, Some(ticks[i - 1]), ticks[i], if i == 1 then None else Some(ticks[i - 2]));
      Join(step, TickBytes(step.strings, ticks, i + 1))
  }

  /** A chunk: the letters HSRD, the version, the number of the first tick, how many there are, the first
      tick and the steps to the others. */
  function ChunkBytes(ticks: seq<Value>, first: nat): seq<byte>
    requires ticks != [] && AllWellFormed(ticks)
  {
    var tick := ValueBytes([], ticks[0]);
    [0x48, 0x53, 0x52, 0x44, 1]
      + (Count(first) + (Count(|ticks|) + (tick.bytes + TickBytes(tick.strings, ticks, 1).bytes)))
  }

  // ----- the encoder's calls, in bytes -----

  function Emitted(strings: seq<string>, ops: seq<Op>): Spelled {
    Spelled(Emit(strings, ops), Table(strings, ops))
  }

  lemma EmittedJoin(strings: seq<string>, a: seq<Op>, b: seq<Op>)
    ensures Emitted(strings, a + b) == Join(Emitted(strings, a), Emitted(Table(strings, a), b))
    ensures Emitted(strings, a).strings == Table(strings, a)
  {
    Append(strings, a, b);
  }

  lemma EmittedNone(strings: seq<string>)
    ensures Emitted(strings, []) == Spelled([], strings)
  {
  }

  lemma EmittedByte(strings: seq<string>, b: byte, rest: seq<Op>)
    ensures Emitted(strings, [Byte(b)] + rest) == Join(Spelled([b], strings), Emitted(strings, rest))
  {
    Front(strings, Byte(b), rest);
  }

  lemma EmittedCount(strings: seq<string>, n: nat, rest: seq<Op>)
    ensures Emitted(strings, [Varuint(n)] + rest) == Join(Spelled(Count(n), strings), Emitted(strings, rest))
  {
    Front(strings, Varuint(n), rest);
  }

  lemma EmittedName(strings: seq<string>, s: string, rest: seq<Op>)
    ensures Emitted(strings, [Text(s)] + rest)
      == Join(Name(strings, s), Emitted(Name(strings, s).strings, rest))
  {
    Front(strings, Text(s), rest);
    hide Emit, Table, Encode;
  }

  lemma EmittedRaw(strings: seq<string>, bs: seq<byte>)
    ensures Emitted(strings, [Raw(bs)]) == Spelled(bs, strings)
  {
    One(strings, Raw(bs));
  }

  lemma JoinBytes(a: seq<byte>, b: seq<byte>, strings: seq<string>, c: Spelled)
    ensures Join(Spelled(a, strings), Join(Spelled(b, strings), c)) == Join(Spelled(a + b, strings), c)
    ensures Join(Spelled(a, strings), Spelled(b, strings)) == Spelled(a + b, strings)
    ensures Join(c, Spelled([], c.strings)) == c
  {
    assert a + (b + c.bytes) == (a + b) + c.bytes;
    assert c.bytes + [] == c.bytes;
  }

  // ----- whole values -----

  lemma CountSpelled(strings: seq<string>, tag: byte, n: nat)
    ensures Emitted(strings, [Byte(tag), Varuint(n)]) == Spelled([tag] + Count(n), strings)
  {
    assert [Byte(tag), Varuint(n)] == [Byte(tag)] + [Varuint(n)];
    EmittedByte(strings, tag, [Varuint(n)]);
    One(strings, Varuint(n));
    hide Emit, Table;
  }

  lemma IntegerSpelled(strings: seq<string>, sign: byte, n: nat)
    ensures Emitted(strings, [Byte(3), Byte(sign), Varuint(n)]) == Spelled([3, sign] + Count(n), strings)
  {
    assert [Byte(3), Byte(sign), Varuint(n)] == [Byte(3)] + [Byte(sign), Varuint(n)];
    hide Emitted, Count;
    EmittedByte(strings, 3, [Byte(sign), Varuint(n)]);
    CountSpelled(strings, sign, n);
    assert [3] + ([sign] + Count(n)) == [3, sign] + Count(n);
  }

  lemma RawSpelled(strings: seq<string>, tag: byte, raw: seq<byte>)
    ensures Emitted(strings, [Byte(tag), Raw(raw)]) == Spelled([tag] + raw, strings)
  {
    assert [Byte(tag), Raw(raw)] == [Byte(tag)] + [Raw(raw)];
    hide Emitted;
    EmittedByte(strings, tag, [Raw(raw)]);
    EmittedRaw(strings, raw);
  }

  lemma NumberSpelled(strings: seq<string>, x: F64)
    ensures Emitted(strings, NumberOps(x)) == Spelled(NumberBytes(x), strings)
  {
    hide SafeInteger, ToInt, ExactF32, Narrow, P.LittleEndian, Emitted, Count;
    if SafeInteger(x) {
      IntegerSpelled(strings, if ToInt(x) < 0 then 1 else 0, Abs(ToInt(x)));
    } else if ExactF32(x) && !NegativeZero(x) {
      RawSpelled(strings, 4, P.LittleEndian(Narrow(x), 4));
    } else {
      RawSpelled(strings, 5, P.LittleEndian(x, 8));
    }
  }

  lemma {:induction false} ValueSpelled(strings: seq<string>, v: Value)
    requires WellFormed(v)
    ensures Emitted(strings, ValueOps(v)) == ValueBytes(strings, v)
    decreases v, 1, 0
  {
    match v
    case Null =>
      One(strings, Byte(0));
    case Bool(b) =>
      One(strings, Byte(if b then 2 else 1));
    case Num(x) =>
      NumberSpelled(strings, x);
      hide NumberOps, NumberBytes, Emitted;
    case Str(text) => TextSpelled(strings, text);
    case Arr(items) => ListSpelled(strings, v);
    case Obj(keys, _) => ObjectSpelled(strings, v);
  }

  lemma TextSpelled(strings: seq<string>, text: string)
    ensures Emitted(strings, ValueOps(Str(text))) == ValueBytes(strings, Str(text))
  {
    assert ValueOps(Str(text)) == [Byte(6)] + ([Text(text)] + []);
    hide Emitted, ValueOps, Name;
    EmittedByte(strings, 6, [Text(text)] + []);
    EmittedName(strings, text, []);
    EmittedNone(Name(strings, text).strings);
    JoinBytes([], [], strings, Name(strings, text));
  }

  lemma {:induction false} ListSpelled(strings: seq<string>, v: Value)
    requires WellFormed(v) && v.Arr?
    ensures Emitted(strings, ValueOps(v)) == ValueBytes(strings, v)
    decreases v, 0, |v.items| + 1
  {
    var rest := ItemOps(v, 0);
    assert ValueOps(v) == [Byte(7)] + ([Varuint(|v.items|)] + rest);
    assert ValueBytes(strings, v) == Join(Spelled([7] + Count(|v.items|), strings), ItemBytes(strings, v, 0));
    hide Emitted, ValueOps, ItemOps, ValueBytes, ItemBytes, WellFormed, Count;
    ItemsSpelled(strings, v, 0);
    EmittedByte(strings, 7, [Varuint(|v.items|)] + rest);
    EmittedCount(strings, |v.items|, rest);
    JoinBytes([7], Count(|v.items|), strings, ItemBytes(strings, v, 0));
  }

  lemma {:induction false} ItemsSpelled(strings: seq<string>, v: Value, i: nat)
    requires WellFormed(v) && v.Arr? && i <= |v.items|
    ensures Emitted(strings, ItemOps(v, i)) == ItemBytes(strings, v, i)
    decreases v, 0, |v.items| - i
  {
    EmittedNone(strings);
    if i < |v.items| {
      assert ItemOps(v, i) == ValueOps(v.items[i]) + ItemOps(v, i + 1);
      assert WellFormed(v.items[i]);
      ValueSpelled(strings, v.items[i]);
      hide Emitted, ValueOps, ItemOps, ValueBytes, WellFormed;
      EmittedJoin(strings, ValueOps(v.items[i]), ItemOps(v, i + 1));
      ItemsSpelled(Table(strings, ValueOps(v.items[i])), v, i + 1);
    }
  }

  lemma {:induction false} ObjectSpelled(strings: seq<string>, v: Value)
    requires WellFormed(v) && v.Obj?
    ensures Emitted(strings, ValueOps(v)) == ValueBytes(strings, v)
    decreases v, 0, |v.keys| + 1
  {
    var rest := MemberOps(v, 0);
    assert ValueOps(v) == [Byte(8)] + ([Varuint(|v.keys|)] + rest);
    assert ValueBytes(strings, v) == Join(Spelled([8] + Count(|v.keys|), strings), MemberBytes(strings, v, 0));
    hide Emitted, ValueOps, MemberOps, ValueBytes, MemberBytes, WellFormed, Count;
    MembersSpelled(strings, v, 0);
    EmittedByte(strings, 8, [Varuint(|v.keys|)] + rest);
    EmittedCount(strings, |v.keys|, rest);
    JoinBytes([8], Count(|v.keys|), strings, MemberBytes(strings, v, 0));
  }

  lemma MemberStep(v: Value, i: nat)
    requires WellFormed(v) && v.Obj? && i < |v.keys|
    ensures v.keys[i] in v.vals && WellFormed(v.vals[v.keys[i]])
    ensures MemberOps(v, i) == [Text(v.keys[i])] + (ValueOps(v.vals[v.keys[i]]) + MemberOps(v, i + 1))
  {
    assert v.keys[i] in v.keys;
    hide ValueOps;
    var a, b := ValueOps(v.vals[v.keys[i]]), MemberOps(v, i + 1);
    assert [Text(v.keys[i])] + a + b == [Text(v.keys[i])] + (a + b);
  }

  /** A name, and two parts behind it. */
  lemma NamedJoin(strings: seq<string>, key: string, a: seq<Op>, b: seq<Op>)
    ensures
      var name := Name(strings, key);
      Emitted(strings, [Text(key)] + (a + b))
        == Join(name, Join(Emitted(name.strings, a), Emitted(Table(name.strings, a), b)))
  {
    EmittedName(strings, key, a + b);
    EmittedJoin(Name(strings, key).strings, a, b);
    hide Emitted, Name;
  }

  lemma MemberBytesStep(strings: seq<string>, v: Value, i: nat)
    requires WellFormed(v) && v.Obj? && i <= |v.keys|
    ensures i == |v.keys| ==> MemberBytes(strings, v, i) == Spelled([], strings) && MemberOps(v, i) == []
    ensures i < |v.keys| ==>
      && v.keys[i] in v.vals && WellFormed(v.vals[v.keys[i]])
      && var key := Name(strings, v.keys[i]);
         var member := ValueBytes(key.strings, v.vals[v.keys[i]]);
         MemberBytes(strings, v, i) == Join(key, Join(member, MemberBytes(member.strings, v, i + 1)))
  {
    if i < |v.keys| {
      MemberStep(v, i);
    }
    hide ValueBytes, Name, WellFormed, ValueOps;
  }

  lemma {:induction false} MembersSpelled(strings: seq<string>, v: Value, i: nat)
    requires WellFormed(v) && v.Obj? && i <= |v.keys|
    ensures Emitted(strings, MemberOps(v, i)) == MemberBytes(strings, v, i)
    decreases v, 0, |v.keys| - i
  {
    hide *;
    MemberBytesStep(strings, v, i);
    if i == |v.keys| {
      EmittedNone(strings);
    } else {
      MemberStep(v, i);
      var member := v.vals[v.keys[i]];
      var known := Name(strings, v.keys[i]).strings;
      ValueSpelled(known, member);
      NamedJoin(strings, v.keys[i], ValueOps(member), MemberOps(v, i + 1));
      TableAfter(known, ValueOps(member));
      MembersSpelled(Table(known, ValueOps(member)), v, i + 1);
    }
  }

  lemma TableAfter(strings: seq<string>, ops: seq<Op>)
    ensures Emitted(strings, ops).strings == Table(strings, ops)
  {
  }

  // ----- numbers after numbers -----

  lemma DistanceIs(a: U32, b: U32)
    ensures R.ZigZag(R.SignedDifference(a, b)) == Fold(Wrapped(b - a))
  {
  }

  lemma WrappedModulo(d: int, e: int)
    ensures Wrapped(d - e % 0x1_0000_0000) == Wrapped(d - e)
  {
    var k := e / 0x1_0000_0000;
    assert d - e % 0x1_0000_0000 + 0x8000_0000 == (d - e + 0x8000_0000) + k * 0x1_0000_0000;
    ModuloMultiple(d - e + 0x8000_0000, k);
  }

  lemma ModuloMultiple(x: int, k: int)
    ensures (x + k * 0x1_0000_0000) % 0x1_0000_0000 == x % 0x1_0000_0000
  {
    var q := x / 0x1_0000_0000;
    assert x == q * 0x1_0000_0000 + x % 0x1_0000_0000;
    assert x + k * 0x1_0000_0000 == (q + k) * 0x1_0000_0000 + x % 0x1_0000_0000;
  }

  lemma OffIs(mode: R.Mode, before: F64, previous: F64, next: F64)
    ensures Off(mode, before, previous, next) == R.Residual(mode, before, previous, next)
  {
    var predicted := R.Prediction(mode, before, previous);
    DistanceIs(predicted, Narrow(next));
    WrappedModulo(Narrow(next), 2 * Narrow(previous) - Narrow(before));
    hide Narrow, Minus, Twice, R.ZigZag, R.SignedDifference, Fold, Wrapped, Xor;
  }

  lemma LengthIs(mode: R.Mode, before: F64, previous: F64, next: F64)
    ensures |Count(Off(mode, before, previous, next))| == VaruintLength(R.Residual(mode, before, previous, next))
  {
    OffIs(mode, before, previous, next);
    VaruintLengthExact(R.Residual(mode, before, previous, next));
    hide Off, R.Residual, VaruintBytes, VaruintLength;
  }

  /** The cheapest candidate is the one at the first least cost. */
  lemma CheapestIsLeast(candidates: seq<R.Candidate>, costs: seq<nat>)
    requires candidates != [] && |costs| == |candidates|
    requires forall m :: 0 <= m < |costs| ==> costs[m] == candidates[m].bytes
    ensures R.Cheapest(candidates) == candidates[FirstLeast(costs)]
  {
    var i := R.CheapestIsFirstMinimum(candidates);
    var k := FirstLeast(costs);
    assert costs[k] <= costs[i] && candidates[i].bytes <= candidates[k].bytes;
    hide R.Cheapest, FirstLeast;
  }

  lemma ScalarLeast(offered: nat, before: F64, previous: F64, next: F64)
    requires 0 < offered <= 4
    ensures R.Cheapest(ScalarCandidates(offered, before, previous, next)).mode
      == FirstLeast(Lengths(offered, before, previous, next))
  {
    var candidates, lengths :=
      ScalarCandidates(offered, before, previous, next), Lengths(offered, before, previous, next);
    forall m | 0 <= m < offered ensures lengths[m] == candidates[m].bytes {
      LengthIs(m, before, previous, next);
    }
    hide Lengths, ScalarCandidates, R.Cheapest, FirstLeast, Off, Count, R.Residual, VaruintLength;
    CheapestIsLeast(candidates, lengths);
  }

  lemma ModeSpelled(strings: seq<string>, mode: R.Mode, before: F64, previous: F64, next: F64)
    ensures Emitted(strings, [Byte(ScalarTag(mode)), Varuint(R.Residual(mode, before, previous, next))])
      == Spelled(ModeBytes(mode, before, previous, next), strings)
  {
    OffIs(mode, before, previous, next);
    var n := R.Residual(mode, before, previous, next);
    var tag: byte := match mode case 0 => 5 case 1 => 9 case 2 => 13 case _ => 14;
    assert ScalarTag(mode) == tag;
    hide Emitted, Count, Off, R.Residual;
    CountSpelled(strings, tag, n);
  }

  lemma SmallStepSpelled(strings: seq<string>, d: int)
    ensures Emitted(strings, [Byte(6), Varuint(R.ZigZag(d))]) == Spelled([6] + Count(Fold(d)), strings)
  {
    assert R.ZigZag(d) == Fold(d);
    CountSpelled(strings, 6, Fold(d));
    hide Emitted, Count, Fold, R.ZigZag;
  }

  lemma XorSpelled(strings: seq<string>, previous: F64, next: F64)
    ensures Emitted(strings, [Byte(4)] + NumberXorOps(previous, next))
      == Spelled([4] + XorBytes(previous, next), strings)
  {
    var bytes := XorBytes(previous, next);
    assert NumberXorOps(previous, next) == [Byte(bytes[0]), Raw(bytes[1..])];
    hide Emitted, NumberXorOps, XorBytes;
    EmittedByte(strings, 4, [Byte(bytes[0]), Raw(bytes[1..])]);
    RawSpelled(strings, bytes[0], bytes[1..]);
    assert [bytes[0]] + bytes[1..] == bytes;
  }

  lemma IntegerStep(previous: F64, next: F64)
    ensures IntegerDelta(previous, next) <==>
      SafeInteger(previous) && SafeInteger(next) && SmallStep(ToInt(next) - ToInt(previous))
    ensures IntegerDelta(previous, next) ==> ToInt(Minus(next, previous)) == ToInt(next) - ToInt(previous)
  {
    if SafeInteger(previous) && SafeInteger(next) {
      DifferenceGuardExact(next, previous, HALF_SAFE);
    }
    hide SafeInteger, ToInt, Minus, Integral, WholePart;
  }

  lemma NumberStepSpelled(strings: seq<string>, previous: F64, next: F64, before: Option<F64>)
    ensures Emitted(strings, NumberDeltaOps(previous, next, before))
      == Spelled(NumberStepBytes(previous, next, before), strings)
  {
    IntegerStep(previous, next);
    hide IntegerDelta, SafeInteger, ToInt, Minus, ExactF32, Emitted, R.Residual, ScalarTag, ModeBytes, XorBytes, Fold,
      R.ZigZag, SmallStep, R.Cheapest, FirstLeast, Lengths, ScalarCandidates, Count, NumberXorOps;
    if IntegerDelta(previous, next) {
      SmallStepSpelled(strings, ToInt(next) - ToInt(previous));
    } else if ExactF32(previous) && ExactF32(next) {
      var mode, b := ScalarMode(before, previous, next), ScalarHistory(before, previous);
      ScalarLeast(4, b, previous, next);
      ScalarLeast(2, b, previous, next);
      ModeSpelled(strings, mode, b, previous, next);
    } else {
      XorSpelled(strings, previous, next);
    }
  }

  // ----- arrays of numbers after arrays of numbers -----

  lemma OffsAre(mode: R.Mode, before: seq<F64>, previous: seq<F64>, next: seq<F64>)
    requires |before| == |previous| == |next|
    ensures Offs(mode, before, previous, next) == R.ResidualsOf(mode, before, previous, next)
  {
    forall i | 0 <= i < |next|
      ensures Offs(mode, before, previous, next)[i] == R.ResidualsOf(mode, before, previous, next)[i]
    {
      OffIs(mode, before[i], previous[i], next[i]);
    }
    hide Off, R.Residual, Offs, R.ResidualsOf;
  }

  lemma {:induction false} CountsLength(values: seq<nat>)
    ensures |Counts(values)| == R.VaruintBytesTotal(values) && Width(values) == R.WidestBits(values)
  {
    if values != [] {
      CountsLength(values[1..]);
      VaruintLengthExact(values[0]);
      hide BitLen, VaruintBytes, VaruintLength;
    }
  }

  lemma CostIs(mode: R.Mode, values: seq<nat>)
    ensures R.CandidateFor(mode, values) == R.Candidate(mode, Packs(values), Width(values), Cost(values))
  {
    CountsLength(values);
    hide Counts, Width, R.VaruintBytesTotal, R.WidestBits;
  }

  lemma {:induction false} CountsSpelled(strings: seq<string>, values: seq<nat>)
    ensures Emitted(strings, R.VaruintOps(values)) == Spelled(Counts(values), strings)
  {
    if values != [] {
      CountsSpelled(strings, values[1..]);
      hide Emitted, Count;
      EmittedCount(strings, values[0], R.VaruintOps(values[1..]));
    }
  }

  lemma OffsNarrow(mode: R.Mode, before: seq<F64>, previous: seq<F64>, next: seq<F64>)
    requires |before| == |previous| == |next|
    ensures Width(Offs(mode, before, previous, next)) <= 32
  {
    OffsAre(mode, before, previous, next);
    R.ResidualsFit(mode, before, previous, next);
    R.WidestBound(Offs(mode, before, previous, next), 32);
    CountsLength(Offs(mode, before, previous, next));
    hide Offs, R.ResidualsOf, Width, R.WidestBits;
  }

  lemma FloatLeast(offered: nat, before: seq<F64>, previous: seq<F64>, next: seq<F64>)
    requires 0 < offered <= 4 && |before| == |previous| == |next|
    ensures
      var mode := FirstLeast(Costs(offered, before, previous, next));
      && mode < offered
      && R.Cheapest(R.Candidates(offered, before, previous, next))
        == R.CandidateFor(mode, R.ResidualsOf(mode, before, previous, next))
  {
    var candidates, costs := R.Candidates(offered, before, previous, next), Costs(offered, before, previous, next);
    forall m | 0 <= m < offered ensures costs[m] == candidates[m].bytes {
      OffsAre(m, before, previous, next);
      CostIs(m, Offs(m, before, previous, next));
    }
    hide Costs, R.Candidates, R.Cheapest, FirstLeast, Offs, Cost, R.ResidualsOf, R.CandidateFor;
    CheapestIsLeast(candidates, costs);
  }

  lemma PackedSpelled(strings: seq<string>, mode: R.Mode, width: byte, raw: seq<byte>)
    ensures Emitted(strings, [Byte(15), Byte(mode), Byte(width), Raw(raw)]) == Spelled([15, mode, width] + raw, strings)
  {
    assert [Byte(15), Byte(mode), Byte(width), Raw(raw)] == [Byte(15)] + ([Byte(mode)] + [Byte(width), Raw(raw)]);
    hide Emitted;
    EmittedByte(strings, 15, [Byte(mode)] + [Byte(width), Raw(raw)]);
    EmittedByte(strings, mode, [Byte(width), Raw(raw)]);
    RawSpelled(strings, width, raw);
    assert [15] + ([mode] + ([width] + raw)) == [15, mode, width] + raw;
  }

  /** The calls for the candidate of one mode. */
  lemma CandidateSpelled(strings: seq<string>, mode: R.Mode, before: seq<F64>, previous: seq<F64>, next: seq<F64>)
    requires |before| == |previous| == |next|
    ensures
      var residuals := R.ResidualsOf(mode, before, previous, next);
      var c := R.CandidateFor(mode, residuals);
      c.width < 256
      && Emitted(strings, [Byte(R.KindOf(c))] + R.PayloadOps(c, residuals))
        == Spelled(FloatBytes(mode, before, previous, next), strings)
  {
    OffsAre(mode, before, previous, next);
    OffsNarrow(mode, before, previous, next);
    var offs := Offs(mode, before, previous, next);
    CostIs(mode, offs);
    var c := R.CandidateFor(mode, offs);
    hide Emitted, Offs, R.ResidualsOf, R.CandidateFor, Counts, Width, Packs, P.PackedBytes;
    if c.packed {
      var raw := P.PackedBytes(offs, c.width);
      assert [Byte(15)] + [Byte(c.mode), Byte(c.width), Raw(raw)] == [Byte(15), Byte(mode), Byte(c.width), Raw(raw)];
      PackedSpelled(strings, mode, c.width, raw);
    } else {
      EmittedByte(strings, R.DenseTag(mode), R.VaruintOps(offs));
      CountsSpelled(strings, offs);
    }
  }

  lemma FloatStepSpelled(strings: seq<string>, previous: Value, next: Value, before: Option<Value>)
    requires FloatArrays(previous, next)
    ensures FloatLists(previous, next)
    ensures Emitted(strings, FloatArrayOps(previous, next, before))
      == Spelled(FloatStepBytes(previous, next, before), strings)
  {
    var b, p, n := HistoryBits(before, previous), BitsOf(previous), BitsOf(next);
    var offered := Offered(before, |next.items|);
    FloatLeast(offered, b, p, n);
    var mode := FirstLeast(Costs(offered, b, p, n));
    CandidateSpelled(strings, mode, b, p, n);
    FloatChoiceFacts(previous, next, before);
    hide Emitted, R.ResidualsOf, R.CandidateFor, R.PayloadOps, R.KindOf, FloatBytes, Costs, FirstLeast, BitsOf,
      ExactArray,
      R.Cheapest, R.Candidates;
  }

  // ----- one value after another -----

  lemma DiffersIsChanged(previous: Option<Value>, next: Value)
    ensures Differs(previous, next) == Changed(previous, next)
  {
    hide Same;
  }

  lemma {:induction false} ItemsCounted(previous: Value, next: Value, i: nat)
    requires next.Arr? && i <= |next.items|
    ensures |set j: nat | i <= j < |next.items| && Differs(Element(Some(previous), j), next.items[j])|
      == ChangedItems(previous, next, i)
    decreases |next.items| - i
  {
    var here := set j: nat | i <= j < |next.items| && Differs(Element(Some(previous), j), next.items[j]);
    if i < |next.items| {
      ItemsCounted(previous, next, i + 1);
      var rest := set j: nat | i + 1 <= j < |next.items| && Differs(Element(Some(previous), j), next.items[j]);
      hide Same, Element;
      assert here == if Differs(Element(Some(previous), i), next.items[i]) then {i} + rest else rest;
    } else {
      assert here == {};
    }
  }

  lemma OneKeyMore(keys: seq<string>, different: set<string>, i: nat)
    requires NoDuplicates(keys) && i < |keys|
    ensures |set k | k in keys[i..] && k in different|
      == (if keys[i] in different then 1 else 0) + |set k | k in keys[i + 1..] && k in different|
  {
    var here := set k | k in keys[i..] && k in different;
    var later := set k | k in keys[i + 1..] && k in different;
    assert keys[i..] == [keys[i]] + keys[i + 1..];
    assert keys[i] !in keys[i + 1..];
    assert here == if keys[i] in different then {keys[i]} + later else later;
  }

  lemma {:induction false} MembersCounted(previous: Value, next: Value, different: set<string>, i: nat)
    requires next.Obj? && Ordered(next.keys, next.vals) && i <= |next.keys|
    requires forall k :: k in next.vals ==> (k in different <==> Changed(Member(Some(previous), k), next.vals[k]))
    ensures |set k | k in next.keys[i..] && k in different| == ChangedMembers(previous, next, i)
    decreases |next.keys| - i
  {
    if i < |next.keys| {
      var key := next.keys[i];
      assert key in next.keys;
      assert key in different <==> Changed(Member(Some(previous), key), next.vals[key]);
      hide Changed, Member;
      OneKeyMore(next.keys, different, i);
      MembersCounted(previous, next, different, i + 1);
    } else {
      assert (set k | k in next.keys[i..] && k in different) == {};
    }
  }

  lemma MembersCount(previous: Value, next: Value)
    requires next.Obj? && Ordered(next.keys, next.vals)
    ensures |DifferentMembers(previous, next)| == ChangedMembers(previous, next, 0)
  {
    var different := DifferentMembers(previous, next);
    forall k | k in next.vals ensures k in different <==> Changed(Member(Some(previous), k), next.vals[k]) {
      DiffersIsChanged(Member(Some(previous), k), next.vals[k]);
      hide Differs, Changed, Member;
    }
    hide Differs, Member, Changed;
    MembersCounted(previous, next, different, 0);
    assert next.keys[0..] == next.keys;
    assert different == set k | k in next.keys[0..] && k in different;
  }

  lemma {:induction false} GoneIsDeleted(keys: seq<string>, next: map<string, Value>)
    ensures Gone(keys, next) == Deleted(keys, next)
  {
    if keys != [] {
      GoneFront(keys, next);
      GoneIsDeleted(keys[1..], next);
    }
  }

  lemma {:induction false} GoneFront(keys: seq<string>, next: map<string, Value>)
    requires keys != []
    ensures Gone(keys, next) == (if keys[0] in next then [] else [keys[0]]) + Gone(keys[1..], next)
    decreases |keys|
  {
    var n := |keys| - 1;
    if n > 0 {
      GoneFront(keys[..n], next);
      assert keys[..n][1..] == keys[1..][..n - 1];
      assert keys[1..][n - 1] == keys[n];
    }
  }

  lemma JoinAssoc(a: Spelled, b: Spelled, c: Spelled)
    ensures Join(a, Join(b, c)) == Join(Join(a, b), c) && Join(a, b).strings == b.strings
  {
    assert a.bytes + (b.bytes + c.bytes) == (a.bytes + b.bytes) + c.bytes;
  }

  lemma NamesStep(strings: seq<string>, keys: seq<string>, rest: seq<Op>)
    ensures keys == [] ==> TextOps(keys) + rest == rest && Names(strings, keys) == Spelled([], strings)
    ensures keys != [] ==>
      && TextOps(keys) + rest == [Text(keys[0])] + (TextOps(keys[1..]) + rest)
      && Names(strings, keys) == Join(Name(strings, keys[0]), Names(Name(strings, keys[0]).strings, keys[1..]))
  {
    hide Name;
    if keys != [] {
      assert [Text(keys[0])] + TextOps(keys[1..]) + rest == [Text(keys[0])] + (TextOps(keys[1..]) + rest);
    }
  }

  lemma {:induction false} NamesSpelled(strings: seq<string>, keys: seq<string>, rest: seq<Op>)
    ensures
      var names := Names(strings, keys);
      Emitted(strings, TextOps(keys) + rest) == Join(names, Emitted(names.strings, rest))
    decreases |keys|
  {
    NamesStep(strings, keys, rest);
    if keys == [] {
      JoinNone(strings, Emitted(strings, rest));
      hide *;
    } else {
      hide *;
      var name := Name(strings, keys[0]);
      EmittedName(strings, keys[0], TextOps(keys[1..]) + rest);
      NamesSpelled(name.strings, keys[1..], rest);
      var names := Names(name.strings, keys[1..]);
      JoinAssoc(name, names, Emitted(names.strings, rest));
    }
  }

  lemma JoinNone(strings: seq<string>, c: Spelled)
    ensures Join(Spelled([], strings), c) == c
  {
    assert [] + c.bytes == c.bytes;
  }

  lemma ItemsCount(previous: Value, next: Value)
    requires next.Arr?
    ensures |DifferentItems(previous, next)| == ChangedItems(previous, next, 0)
  {
    ItemsCounted(previous, next, 0);
    hide Differs, Element;
    assert DifferentItems(previous, next)
        == set j: nat | 0 <= j < |next.items| && Differs(Element(Some(previous), j), next.items[j]);
  }

  lemma ReplacedSpelled(strings: seq<string>, next: Value)
    requires WellFormed(next)
    ensures Emitted(strings, [Byte(1)] + ValueOps(next)) == Join(Spelled([1], strings), ValueBytes(strings, next))
  {
    ValueSpelled(strings, next);
    hide Emitted, ValueOps, ValueBytes;
    EmittedByte(strings, 1, ValueOps(next));
  }

  lemma SameSpelled(strings: seq<string>)
    ensures Emitted(strings, [Byte(0)]) == Spelled([0], strings)
  {
    One(strings, Byte(0));
  }

  /** What the encoder calls for a step is what the step is spelled as. */
  lemma {:induction false} StepSpelled(strings: seq<string>, previous: Option<Value>, next: Value,
                                       before: Option<Value>)
    requires WellFormed(next) && WellFormedOption(previous)
    ensures Emitted(strings, DeltaOps(previous, next, before)) == StepBytes(strings, previous, next, before)
    decreases next, 2, 0
  {
    V.DeltaOpsShape(previous, next, before);
    DiffersIsChanged(previous, next);
    if previous.None? {
      ReplacedSpelled(strings, next);
      hide ValueOps, ValueBytes, Emitted;
    } else if Same(previous.value, next) {
      SameSpelled(strings);
      hide Emitted;
    } else {
      hide Same, ValueOps, ValueBytes, Emitted, DeltaOps, NumberDeltaOps, NumberStepBytes, ListStepBytes,
        ObjectStepBytes,
        V.ArrayOps, V.ObjectOps, FloatArrayOps, FloatArrays, WellFormed;
      match (previous.value, next) {
        case (Num(p), Num(n)) => NumberStepSpelled(strings, p, n, NumberOf(before));
        case (Arr(_), Arr(_)) => ListStepSpelled(strings, previous.value, next, before);
        case (Obj(_, _), Obj(_, _)) => ObjectStepSpelled(strings, previous.value, next, before);
        case _ => ReplacedSpelled(strings, next);
      }
    }
  }

  lemma SparseHead(strings: seq<string>, n: nat, changes: nat, rest: seq<Op>)
    ensures Emitted(strings, [Byte(3)] + ([Varuint(n)] + ([Varuint(changes)] + rest)))
      == Join(Spelled([3] + (Count(n) + Count(changes)), strings), Emitted(strings, rest))
  {
    hide Emitted, Count;
    EmittedByte(strings, 3, [Varuint(n)] + ([Varuint(changes)] + rest));
    EmittedCount(strings, n, [Varuint(changes)] + rest);
    EmittedCount(strings, changes, rest);
    JoinBytes(Count(n), Count(changes), strings, Emitted(strings, rest));
    JoinBytes([3], Count(n) + Count(changes), strings, Emitted(strings, rest));
  }

  lemma {:induction false} ListStepSpelled(strings: seq<string>, previous: Value, next: Value, before: Option<Value>)
    requires WellFormed(next) && WellFormed(previous) && previous.Arr? && next.Arr?
    ensures
      ListStepBytes(strings, previous, next, before)
      == Emitted(strings, if FloatArrays(previous, next) then FloatArrayOps(previous, next, before)
                          else V.ArrayOps(previous, next, before))
    decreases next, 1, 0
  {
    ItemsCount(previous, next);
    if FloatArrays(previous, next) {
      FloatStepSpelled(strings, previous, next, before);
      hide Emitted, DifferentItems, FloatArrayOps, FloatStepBytes, AllItemBytes, SomeItemBytes, WellFormed, ExactArray;
    } else {
      AllItemsSpelled(strings, previous, next, before, 0);
      SomeItemsSpelled(strings, previous, next, before, 0);
      hide Emitted, DifferentItems, AllItemBytes, SomeItemBytes, DenseOps, SparseOps, WellFormed, ExactArray, Count,
        ChangedItems, Join;
      EmittedByte(strings, 7, DenseOps(previous, next, before, 0));
      SparseHead(strings, |next.items|, |DifferentItems(previous, next)|, SparseOps(previous, next, before, 0));
    }
  }

  lemma {:induction false} ObjectStepSpelled(strings: seq<string>, previous: Value, next: Value, before: Option<Value>)
    requires WellFormed(next) && WellFormed(previous) && previous.Obj? && next.Obj?
    ensures Emitted(strings, V.ObjectOps(previous, next, before)) == ObjectStepBytes(strings, previous, next, before)
    decreases next, 1, 0
  {
    GoneIsDeleted(previous.keys, next.vals);
    MembersCount(previous, next);
    var gone := Gone(previous.keys, next.vals);
    var names := Names(strings, gone);
    SomeMembersSpelled(names.strings, previous, next, before, 0);
    var changes, rest := |DifferentMembers(previous, next)|, MemberDeltaOps(previous, next, before, 0);
    ObjectOpsIs(previous, next, before);
    hide Emitted, V.ObjectOps, DifferentMembers, SomeMemberBytes, MemberDeltaOps, Gone, Deleted, Names,
      WellFormed, Count,
      ChangedMembers, TextOps;
    EmittedByte(strings, 2, [Varuint(|gone|)] + (TextOps(gone) + ([Varuint(changes)] + rest)));
    EmittedCount(strings, |gone|, TextOps(gone) + ([Varuint(changes)] + rest));
    NamesSpelled(strings, gone, [Varuint(changes)] + rest);
    EmittedCount(names.strings, changes, rest);
    JoinBytes([2], Count(|gone|), strings, Emitted(strings, TextOps(gone) + ([Varuint(changes)] + rest)));
  }

  lemma ObjectOpsIs(previous: Value, next: Value, before: Option<Value>)
    requires WellFormed(next) && previous.Obj? && next.Obj?
    ensures Ordered(next.keys, next.vals)
    ensures V.ObjectOps(previous, next, before)
      == [Byte(2)] + ([Varuint(|Deleted(previous.keys, next.vals)|)]
                      + (TextOps(Deleted(previous.keys, next.vals))
                         + ([Varuint(ChangedMembers(previous, next, 0))] + MemberDeltaOps(previous, next, before, 0))))
  {
    hide Deleted, TextOps, MemberDeltaOps, ChangedMembers;
  }

  lemma {:induction false} AllItemsSpelled(strings: seq<string>, previous: Value, next: Value, before: Option<Value>,
                                           i: nat)
    requires WellFormed(next) && WellFormed(previous) && previous.Arr? && next.Arr? && i <= |next.items|
    ensures Emitted(strings, DenseOps(previous, next, before, i)) == AllItemBytes(strings, previous, next, before, i)
    decreases next, 0, |next.items| - i
  {
    V.DenseOpsStep(previous, next, before, i);
    EmittedNone(strings);
    if i < |next.items| {
      ElementWellFormed(previous, i);
      StepSpelled(strings, Element(Some(previous), i), next.items[i], Element(before, i));
      var step, rest := DeltaOps(Element(Some(previous), i), next.items[i], Element(before, i)),
          DenseOps(previous, next, before, i + 1);
      EmittedJoin(strings, step, rest);
      hide Emitted, DeltaOps, DenseOps, StepBytes, WellFormed, Element;
      AllItemsSpelled(Table(strings, step), previous, next, before, i + 1);
    }
  }

  lemma ElementWellFormed(previous: Value, i: nat)
    requires WellFormed(previous)
    ensures WellFormedOption(Element(Some(previous), i))
  {
  }

  lemma MemberWellFormed(previous: Value, key: string)
    requires WellFormed(previous)
    ensures WellFormedOption(Member(Some(previous), key))
  {
  }

  lemma {:induction false} SomeItemsSpelled(strings: seq<string>, previous: Value, next: Value, before: Option<Value>,
                                            i: nat)
    requires WellFormed(next) && WellFormed(previous) && previous.Arr? && next.Arr? && i <= |next.items|
    ensures Emitted(strings, SparseOps(previous, next, before, i)) == SomeItemBytes(strings, previous, next, before, i)
    decreases next, 0, |next.items| - i
  {
    V.SparseOpsStep(previous, next, before, i);
    EmittedNone(strings);
    if i < |next.items| {
      DiffersIsChanged(Element(Some(previous), i), next.items[i]);
      ElementWellFormed(previous, i);
      StepSpelled(strings, Element(Some(previous), i), next.items[i], Element(before, i));
      var step, rest := DeltaOps(Element(Some(previous), i), next.items[i], Element(before, i)),
          SparseOps(previous, next, before, i + 1);
      EmittedCount(strings, i, step + rest);
      EmittedJoin(strings, step, rest);
      hide Emitted, DeltaOps, SparseOps, StepBytes, WellFormed, Element, Changed, Differs;
      SomeItemsSpelled(Table(strings, step), previous, next, before, i + 1);
      SomeItemsSpelled(strings, previous, next, before, i + 1);
    }
  }

  lemma {:induction false} SomeMembersSpelled(strings: seq<string>, previous: Value, next: Value, before: Option<Value>,
                                              i: nat)
    requires WellFormed(next) && WellFormed(previous) && previous.Obj? && next.Obj? && i <= |next.keys|
    ensures Emitted(strings, MemberDeltaOps(previous, next, before, i))
      == SomeMemberBytes(strings, previous, next, before, i)
    decreases next, 0, |next.keys| - i
  {
    V.MemberDeltaOpsStep(previous, next, before, i);
    EmittedNone(strings);
    if i < |next.keys| {
      var key := next.keys[i];
      var name := Name(strings, key);
      DiffersIsChanged(Member(Some(previous), key), next.vals[key]);
      MemberWellFormed(previous, key);
      StepSpelled(name.strings, Member(Some(previous), key), next.vals[key], Member(before, key));
      var step, rest := DeltaOps(Member(Some(previous), key), next.vals[key], Member(before, key)),
          MemberDeltaOps(previous, next, before, i + 1);
      NamedJoin(strings, key, step, rest);
      EmittedJoin(name.strings, step, []);
      hide Emitted, DeltaOps, MemberDeltaOps, StepBytes, WellFormed, Member, Changed, Differs, Name;
      SomeMembersSpelled(Table(name.strings, step), previous, next, before, i + 1);
      SomeMembersSpelled(strings, previous, next, before, i + 1);
    }
  }

  // ----- chunks -----

  lemma TickStep(strings: seq<string>, ticks: seq<Value>, i: nat)
    requires 1 <= i < |ticks| && AllWellFormed(ticks)
    ensures WellFormed(ticks[i]) && WellFormed(ticks[i - 1]) && WellFormedOption(Some(ticks[i - 1]))
    ensures
      var before := if i == 1 then None else Some(ticks[i - 2]);
      var step := StepBytes(strings, Some(ticks[i - 1]), ticks[i], before);
      && TickOps(ticks, i) == DeltaOps(Some(ticks[i - 1]), ticks[i], before) + TickOps(ticks, i + 1)
      && TickBytes(strings, ticks, i) == Join(step, TickBytes(step.strings, ticks, i + 1))
  {
    hide StepBytes, DeltaOps, WellFormed;
  }

  lemma NoTicksLeft(strings: seq<string>, ticks: seq<Value>)
    requires AllWellFormed(ticks) && ticks != []
    ensures Emitted(strings, TickOps(ticks, |ticks|)) == TickBytes(strings, ticks, |ticks|)
  {
    EmittedNone(strings);
  }

  lemma {:induction false} TicksSpelled(strings: seq<string>, ticks: seq<Value>, i: nat)
    requires 1 <= i <= |ticks| && AllWellFormed(ticks)
    ensures Emitted(strings, TickOps(ticks, i)) == TickBytes(strings, ticks, i)
    decreases |ticks| - i
  {
    hide *;
    if i == |ticks| {
      NoTicksLeft(strings, ticks);
    } else {
      TickStep(strings, ticks, i);
      var previous, before := Some(ticks[i - 1]), if i == 1 then None else Some(ticks[i - 2]);
      StepSpelled(strings, previous, ticks[i], before);
      EmittedJoin(strings, DeltaOps(previous, ticks[i], before), TickOps(ticks, i + 1));
      TicksSpelled(Table(strings, DeltaOps(previous, ticks[i], before)), ticks, i + 1);
    }
  }

  /** Whatever the encoder encodes, it puts exactly the spelled bytes on the wire. */
  lemma ChunkSpelled(ticks: seq<Value>, first: nat)
    requires AllWellFormed(ticks) && EncodeChunk(ticks, first).Ok?
    ensures ticks != [] && EncodeChunk(ticks, first) == Ok(ChunkBytes(ticks, first))
  {
    var tick, rest := ValueOps(ticks[0]), TickOps(ticks, 1);
    ValueSpelled([], ticks[0]);
    TicksSpelled(Table([], tick), ticks, 1);
    HeadSpelled(first, |ticks|, tick + rest);
    EmittedJoin([], tick, rest);
    hide Emit, Table, Safe, Count, ValueOps, TickOps, ValueBytes, TickBytes, WellFormed;
  }

  lemma HeadSpelled(first: nat, count: nat, body: seq<Op>)
    ensures Emit([], [Raw([0x48, 0x53, 0x52, 0x44]), Byte(1), Varuint(first), Varuint(count)] + body)
      == [0x48, 0x53, 0x52, 0x44, 1] + (Count(first) + (Count(count) + Emit([], body)))
  {
    var magic := Raw([0x48, 0x53, 0x52, 0x44]);
    assert [magic, Byte(1), Varuint(first), Varuint(count)] + body
        == [magic] + ([Byte(1)] + ([Varuint(first)] + ([Varuint(count)] + body)));
    Front([], magic, [Byte(1)] + ([Varuint(first)] + ([Varuint(count)] + body)));
    Front([], Byte(1), [Varuint(first)] + ([Varuint(count)] + body));
    Front([], Varuint(first), [Varuint(count)] + body);
    Front([], Varuint(count), body);
    hide Emit, Count;
    var tail := Count(first) + (Count(count) + Emit([], body));
    assert [0x48, 0x53, 0x52, 0x44] + ([1] + tail) == [0x48, 0x53, 0x52, 0x44, 1] + tail;
  }

  // ----- single ticks, byte by byte -----

  lemma OneTick(v: Value, tick: Spelled)
    requires WellFormed(v) && ValueBytes([], v) == tick
    ensures ChunkBytes([v], 0) == [0x48, 0x53, 0x52, 0x44, 1, 0, 1] + tick.bytes
  {
    hide ValueBytes, WellFormed;
    assert TickBytes(tick.strings, [v], 1) == Spelled([], tick.strings);
    assert Count(0) == [0] && Count(1) == [1];
    assert [0x48, 0x53, 0x52, 0x44, 1] + ([0] + ([1] + (tick.bytes + [])))
        == [0x48, 0x53, 0x52, 0x44, 1, 0, 1] + tick.bytes;
  }

  /** A tick without texts, lists or members. */
  lemma PlainChunk(v: Value, bytes: seq<byte>)
    requires WellFormed(v) && !v.Arr? && !v.Obj? && !v.Str? && ValueBytes([], v) == Spelled(bytes, [])
    ensures EncodeChunk([v], 0) == Ok([0x48, 0x53, 0x52, 0x44, 1, 0, 1] + bytes)
  {
    PlainOps(v);
    OneTick(v, Spelled(bytes, []));
    hide ValueBytes, EncodeChunk, ValueOps, ChunkBytes;
    W.EncoderAccepts([v], 0);
    ChunkSpelled([v], 0);
  }

  lemma PlainOps(v: Value)
    requires WellFormed(v) && !v.Arr? && !v.Obj? && !v.Str?
    ensures |ValueOps(v)| <= 3 && W.SmallValue(v)
  {
    hide SafeInteger, ExactF32;
  }

  lemma NullChunk()
    ensures EncodeChunk([Null], 0) == Ok([0x48, 0x53, 0x52, 0x44, 1, 0, 1, 0])
  {
    PlainChunk(Null, [0]);
    assert [0x48, 0x53, 0x52, 0x44, 1, 0, 1] + [0] == [0x48, 0x53, 0x52, 0x44, 1, 0, 1, 0];
    hide EncodeChunk;
  }

  lemma BoolChunk(b: bool)
    ensures EncodeChunk([Bool(b)], 0) == Ok([0x48, 0x53, 0x52, 0x44, 1, 0, 1, if b then 2 else 1])
  {
    var tag: byte := if b then 2 else 1;
    PlainChunk(Bool(b), [tag]);
    assert [0x48, 0x53, 0x52, 0x44, 1, 0, 1] + [tag] == [0x48, 0x53, 0x52, 0x44, 1, 0, 1, tag];
    hide EncodeChunk;
  }

  /** A whole number of safe magnitude: a sign byte and the magnitude. */
  lemma IntegerChunk(x: F64)
    requires SafeInteger(x)
    ensures
      var n := ToInt(x);
      EncodeChunk([Num(x)], 0)
        == Ok([0x48, 0x53, 0x52, 0x44, 1, 0, 1, 3, if n < 0 then 1 else 0] + VaruintBytes(if n < 0 then -n else n))
  {
    PlainChunk(Num(x), NumberBytes(x));
    var n := ToInt(x);
    hide SafeInteger, ToInt, EncodeChunk;
    var sign := if n < 0 then 1 else 0;
    assert [0x48, 0x53, 0x52, 0x44, 1, 0, 1] + ([3, sign] + Count(if n < 0 then -n else n))
        == [0x48, 0x53, 0x52, 0x44, 1, 0, 1, 3, sign] + Count(if n < 0 then -n else n);
  }

  /** Any other number: four bytes when they hold it, and otherwise eight. */
  lemma FloatChunk(x: F64)
    requires Finite(x) && !SafeInteger(x)
    ensures EncodeChunk([Num(x)], 0) == Ok([0x48, 0x53, 0x52, 0x44, 1, 0, 1]
      + (if ExactF32(x) && x != 0x8000_0000_0000_0000 then [4] + P.LittleEndian(Narrow(x), 4)
         else [5] + P.LittleEndian(x, 8)))
  {
    PlainChunk(Num(x), NumberBytes(x));
    hide SafeInteger, ExactF32, Narrow, EncodeChunk, P.LittleEndian;
  }

  /** A text: twice its length in bytes, and one, and the bytes. */
  lemma TextChunk(text: string)
    requires 2 * |Encode(text)| + 1 <= SAFE_INTEGER_MAX
    ensures EncodeChunk([Str(text)], 0)
      == Ok([0x48, 0x53, 0x52, 0x44, 1, 0, 1, 6] + (VaruintBytes(2 * |Encode(text)| + 1) + Encode(text)))
  {
    var ticks := [Str(text)];
    assert ValueOps(Str(text)) == [Byte(6), Text(text)];
    var body := Count(2 * |Encode(text)| + 1) + Encode(text);
    assert ValueBytes([], Str(text)) == Spelled([6] + body, [text]) by {
      assert [] + [text] == [text];
      hide Encode;
    }
    OneTick(Str(text), Spelled([6] + body, [text]));
    hide EncodeChunk, Encode, ValueOps, ValueBytes, ChunkBytes;
    W.EncoderAccepts(ticks, 0);
    ChunkSpelled(ticks, 0);
    assert [0x48, 0x53, 0x52, 0x44, 1, 0, 1] + ([6] + body) == [0x48, 0x53, 0x52, 0x44, 1, 0, 1, 6] + body;
  }
}
