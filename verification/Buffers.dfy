/** The writer and reader buffers, updated in place, and the loops that drive them. Each method
    is tied to the call sequences and reader functions of the byte layer. */
module Buffers {
  import opened Base
  import opened Utf8
  import opened Values
  import opened Wire
  import opened Packing

  /** The outcome of a writer step; a raise leaves the rest unwritten. */
  datatype Attempt = Done | Raised

  /** The dictionary numbers exactly the interned strings, in order of first use. */
  ghost predicate Inverse(strings: map<string, nat>, table: seq<string>) {
    && NoDuplicates(table)
    && |strings| == |table|
    && (forall s :: s in strings <==> s in table)
    && (forall i :: 0 <= i < |table| ==> table[i] in strings && strings[table[i]] == i)
  }

  lemma InverseIndex(strings: map<string, nat>, table: seq<string>, s: string)
    requires Inverse(strings, table) && s in table
    ensures s in strings && strings[s] == IndexOf(table, s)
  {
    assert table[IndexOf(table, s)] == s;
  }

  lemma InverseExtended(strings: map<string, nat>, table: seq<string>, s: string)
    requires Inverse(strings, table) && s !in table
    ensures Inverse(strings[s := |strings|], table + [s])
  {
    var table' := table + [s];
    forall i, j | 0 <= i < j < |table'| ensures table'[i] != table'[j] {
      assert table'[i] == table[i];
    }
  }

  /** A safe whole has safe parts. */
  lemma SafeParts(done: seq<Op>, step: seq<Op>, rest: seq<Op>)
    ensures done + (step + rest) == (done + step) + rest
    ensures Safe([], done + (step + rest)) ==> Safe([], done + step)
  {
    assert done + (step + rest) == (done + step) + rest;
    AppendSafe([], done + step, rest);
  }

  /** What the buffer and the dictionary hold after the given calls. */
  ghost predicate Represents(calls: seq<Op>, bytes: seq<byte>, strings: map<string, nat>) {
    && Safe([], calls)
    && bytes == Emit([], calls)
    && Inverse(strings, Table([], calls))
  }

  /** What one further string adds, in terms of the dictionary. */
  lemma StringEffect(calls: seq<Op>, bytes: seq<byte>, strings: map<string, nat>, s: string)
    requires Represents(calls, bytes, strings)
    ensures
      var calls' := calls + [Text(s)];
      if s in strings then
        && (2 * strings[s] <= SAFE_INTEGER_MAX <==> Safe([], calls'))
        && (Safe([], calls') ==> Represents(calls', bytes + VaruintBytes(2 * strings[s]), strings))
      else
        && (2 * |Encode(s)| + 1 <= SAFE_INTEGER_MAX <==> Safe([], calls'))
        && (Safe([], calls') ==>
            Represents(calls', bytes + VaruintBytes(2 * |Encode(s)| + 1) + Encode(s), strings[s := |strings|]))
  {
    var op, table := Text(s), Table([], calls);
    hide Safe, Emit, Table;
    Append([], calls, [op]);
    One(table, op);
    if s in strings {
      InverseIndex(strings, table, s);
      assert EmitOp(table, op) == VaruintBytes(2 * strings[s]);
    } else {
      InverseExtended(strings, table, s);
      assert bytes + (VaruintBytes(2 * |Encode(s)| + 1) + Encode(s))
        == bytes + VaruintBytes(2 * |Encode(s)| + 1) + Encode(s);
    }
  }

  class BinaryWriter {
    var bytes: seq<byte>
    var strings: map<string, nat>
    /** The calls made so far. */
    ghost var calls: seq<Op>

    ghost predicate Valid()
      reads this
    {
      Represents(calls, bytes, strings)
    }

    constructor ()
      ensures Valid() && calls == []
    {
      bytes := [];
      strings := map[];
      calls := [];
    }

    method Byte(b: byte)
      requires Valid()
      modifies this
      ensures Valid() && calls == old(calls) + [Op.Byte(b)]
    {
      var op := Op.Byte(b);
      Append([], calls, [op]);
      One(Table([], calls), op);
      bytes := bytes + [b];
      calls := calls + [op];
    }

    method Bytes(bs: seq<byte>)
      requires Valid()
      modifies this
      ensures Valid() && calls == old(calls) + [Raw(bs)]
    {
      var op := Raw(bs);
      Append([], calls, [op]);
      One(Table([], calls), op);
      bytes := bytes + bs;
      calls := calls + [op];
    }

    /** The range check and the groups of seven bits, lowest first. */
    method Groups(n: nat) returns (a: Attempt)
      modifies this`bytes
      ensures a.Done? <==> n <= 9_007_199_254_740_991
      ensures bytes == if a.Done? then old(bytes) + VaruintBytes(n) else old(bytes)
    {
      if n > SAFE_INTEGER_MAX {
        return Raised;
      }
      var remaining := n;
      ghost var written: seq<byte> := [];
      while remaining >= 128
        invariant bytes == old(bytes) + written
        invariant written + VaruintBytes(remaining) == VaruintBytes(n)
      {
        var b: byte := remaining % 128 + 128;
        assert written + ([b] + VaruintBytes(remaining / 128)) == (written + [b]) + VaruintBytes(remaining / 128);
        assert (old(bytes) + written) + [b] == old(bytes) + (written + [b]);
        bytes := bytes + [b];
        written := written + [b];
        remaining := remaining / 128;
      }
      bytes := bytes + [remaining];
      assert (old(bytes) + written) + [remaining] == old(bytes) + (written + [remaining]);
      return Done;
    }

    method Varuint(n: nat) returns (a: Attempt)
      requires Valid()
      modifies this
      ensures Valid()
      ensures a.Done? <==> Safe([], old(calls) + [Op.Varuint(n)])
      ensures calls == if a.Done? then old(calls) + [Op.Varuint(n)] else old(calls)
    {
      ghost var op := Op.Varuint(n);
      Append([], calls, [op]);
      One(Table([], calls), op);
      a := Groups(n);
      if a.Done? {
        calls := calls + [op];
      }
    }

    method String(s: string) returns (a: Attempt)
      requires Valid()
      modifies this
      ensures Valid()
      ensures a.Done? <==> Safe([], old(calls) + [Text(s)])
      ensures calls == if a.Done? then old(calls) + [Text(s)] else old(calls)
    {
      assert SAFE_INTEGER_MAX == 9_007_199_254_740_991;
      hide *;
      ValidFrom();
      StringEffect(calls, bytes, strings, s);
      if s in strings {
        a := Groups(2 * strings[s]);
      } else {
        var encoded := Encode(s);
        a := Groups(2 * |encoded| + 1);
        if a.Done? {
          bytes := bytes + encoded;
          strings := strings[s := |strings|];
        }
      }
      if a.Done? {
        calls := calls + [Text(s)];
      }
      ValidFrom();
    }

    lemma ValidFrom()
      ensures Represents(calls, bytes, strings) <==> Valid()
    {
    }
  }

  // ----- bit packing through an accumulator -----

  lemma {:induction false} OrDisjoint(a: nat, b: nat, k: nat)
    requires a < Pow2(k)
    ensures Or(a, Shift(b, k)) == a + Shift(b, k)
    decreases k
  {
    if k == 0 {
      OrWithZero(b);
    } else {
      var s := Shift(b, k);
      assert s / 2 == Shift(b, k - 1) && s % 2 == 0;
      OrDisjoint(a / 2, b, k - 1);
      OrParts(a, s);
    }
  }

  lemma {:induction false} OrWithZero(b: nat)
    ensures Or(0, b) == b
  {
    if b > 0 {
      OrWithZero(b / 2);
    }
  }

  lemma {:induction false} FromLittleEndianAppend(bs: seq<byte>, b: byte)
    ensures FromLittleEndian(bs + [b]) == FromLittleEndian(bs) + Shift(b, 8 * |bs|)
  {
    if bs == [] {
      assert [b][1..] == [] && bs + [b] == [b];
    } else {
      assert (bs + [b])[1..] == bs[1..] + [b];
      FromLittleEndianAppend(bs[1..], b);
      ShiftShift(b, 8 * |bs[1..]|, 8);
      EightShift(Shift(b, 8 * |bs[1..]|));
    }
  }

  lemma EightShift(n: nat)
    ensures Shift(n, 8) == 256 * n && Unshift(n, 8) == n / 256 && Low(n, 8) == n % 256
  {
    ShiftIsProduct(n, 8);
    Pow2Values();
    SplitBits(n, 8);
    ShiftIsProduct(Unshift(n, 8), 8);
  }

  /** The bytes written, and the bits still held back, make up the packed values so far. */
  ghost predicate Partial(values: seq<nat>, i: nat, width: nat, written: seq<byte>, acc: nat, bits: nat)
    requires i <= |values|
  {
    && FromLittleEndian(written) + Shift(acc, 8 * |written|) == Pack(values[..i], width)
    && 8 * |written| + bits == i * width
    && acc < Pow2(bits)
  }

  lemma PartialStart(values: seq<nat>, width: nat)
    ensures Partial(values, 0, width, [], 0, 0)
  {
    assert values[..0] == [];
  }

  lemma PartialTake(values: seq<nat>, i: nat, width: nat, written: seq<byte>, acc: nat, bits: nat)
    requires i < |values| && Fits(values, width) && Partial(values, i, width, written, acc, bits)
    ensures Partial(values, i + 1, width, written, Or(acc, Shift(values[i], bits)), bits + width)
  {
    var v := values[i];
    OrDisjoint(acc, v, bits);
    assert values[..i + 1] == values[..i] + [v];
    PackAppend(values[..i], v, width);
    ShiftAdd(acc, Shift(v, bits), 8 * |written|);
    ShiftShift(v, bits, 8 * |written|);
    assert (i + 1) * width == i * width + width;
    ShiftMonotone(v + 1, Pow2(width), bits);
    ShiftAdd(v, 1, bits);
    ShiftPow2(0, bits);
    ShiftPow2(width, bits);
  }

  lemma PartialFlush(values: seq<nat>, i: nat, width: nat, written: seq<byte>, acc: nat, bits: nat)
    requires i <= |values| && Partial(values, i, width, written, acc, bits) && bits >= 8
    ensures Partial(values, i, width, written + [acc % 256], acc / 256, bits - 8)
  {
    var n := |written|;
    FromLittleEndianAppend(written, acc % 256);
    EightShift(acc / 256);
    ShiftAdd(acc % 256, Shift(acc / 256, 8), 8 * n);
    ShiftShift(acc / 256, 8, 8 * n);
    assert acc == acc % 256 + Shift(acc / 256, 8);
    assert 8 * n + 8 == 8 * |written + [acc % 256]|;
    assert acc / 256 < Pow2(bits - 8) by {
      Pow2Values();
      ShiftPow2(bits - 8, 8);
      ShiftIsProduct(Pow2(bits - 8), 8);
    }
  }

  lemma PartialEnd(values: seq<nat>, width: nat, written: seq<byte>, acc: nat, bits: nat)
    requires Partial(values, |values|, width, written, acc, bits) && bits < 8
    ensures acc < 256
    ensures PackedBytes(values, width) == if bits > 0 then written + [acc] else written
  {
    assert values[..|values|] == values;
    Pow2Monotone(bits, 8);
    Pow2Values();
    hide Pow2;
    if bits > 0 {
      FromLittleEndianAppend(written, acc);
      LittleEndianInverts(written + [acc]);
    } else {
      ShiftIsProduct(0, 8 * |written|);
      LittleEndianInverts(written);
    }
  }

  /** Single bytes, one call each. */
  function ByteOps(bs: seq<byte>): seq<Op> {
    if bs == [] then [] else [Op.Byte(bs[0])] + ByteOps(bs[1..])
  }

  lemma {:induction false} ByteOpsEffect(table: seq<string>, bs: seq<byte>)
    ensures Emit(table, ByteOps(bs)) == bs && Table(table, ByteOps(bs)) == table && Safe(table, ByteOps(bs))
  {
    if bs != [] {
      ByteOpsEffect(table, bs[1..]);
      Front(table, Op.Byte(bs[0]), ByteOps(bs[1..]));
      assert [bs[0]] + bs[1..] == bs;
    }
  }

  lemma ByteOpsAppend(bs: seq<byte>, b: byte)
    ensures ByteOps(bs + [b]) == ByteOps(bs) + [Op.Byte(b)]
  {
    if bs == [] {
      assert ByteOps([b]) == [Op.Byte(b)] + ByteOps([]) by {
        assert [b][1..] == [];
      }
    } else {
      assert (bs + [b])[1..] == bs[1..] + [b];
      ByteOpsAppend(bs[1..], b);
    }
  }

  /** Writing bytes one by one is writing them at once. */
  lemma Regrouped(calls: seq<Op>, bs: seq<byte>, bytes: seq<byte>, strings: map<string, nat>)
    requires Represents(calls + ByteOps(bs), bytes, strings)
    ensures Represents(calls + [Raw(bs)], bytes, strings)
  {
    var table := Table([], calls);
    Append([], calls, ByteOps(bs));
    ByteOpsEffect(table, bs);
    Append([], calls, [Raw(bs)]);
    One(table, Raw(bs));
  }

  lemma NextByte(calls: seq<Op>, written: seq<byte>, b: byte)
    ensures calls + ByteOps(written) + [Op.Byte(b)] == calls + ByteOps(written + [b])
  {
    ByteOpsAppend(written, b);
  }

  lemma StartPacking(writer: BinaryWriter)
    ensures writer.calls + ByteOps([]) == writer.calls
  {
  }

  lemma NothingPacked(values: seq<nat>)
    ensures PackedBytes(values, 0) == []
  {
  }

  ghost method Regroup(writer: BinaryWriter, calls: seq<Op>, bs: seq<byte>)
    requires writer.Valid() && writer.calls == calls + ByteOps(bs)
    modifies writer`calls
    ensures writer.Valid() && writer.calls == calls + [Raw(bs)]
  {
    Regrouped(calls, bs, writer.bytes, writer.strings);
    writer.calls := calls + [Raw(bs)];
  }

  /** Values packed through the accumulator, at most seven bits kept back between values. */
  method WritePacked(writer: BinaryWriter, values: seq<nat>, width: nat)
    requires writer.Valid() && Fits(values, width)
    modifies writer
    ensures writer.Valid() && writer.calls == old(writer.calls) + [Raw(PackedBytes(values, width))]
  {
    hide *;
    ghost var calls, written: seq<byte> := writer.calls, [];
    StartPacking(writer);
    NothingPacked(values);
    if width > 0 {
      var accumulator, accumulatorBits := 0, 0;
      PartialStart(values, width);
      for i := 0 to |values|
        invariant writer.Valid() && writer.calls == calls + ByteOps(written)
        invariant Partial(values, i, width, written, accumulator, accumulatorBits) && accumulatorBits < 8
      {
        PartialTake(values, i, width, written, accumulator, accumulatorBits);
        accumulator := Or(accumulator, Shift(values[i], accumulatorBits));
        accumulatorBits := accumulatorBits + width;
        while accumulatorBits >= 8
          invariant writer.Valid() && writer.calls == calls + ByteOps(written)
          invariant Partial(values, i + 1, width, written, accumulator, accumulatorBits)
        {
          PartialFlush(values, i + 1, width, written, accumulator, accumulatorBits);
          NextByte(calls, written, accumulator % 256);
          writer.Byte(accumulator % 256);
          written := written + [accumulator % 256];
          accumulator := accumulator / 256;
          accumulatorBits := accumulatorBits - 8;
        }
      }
      PartialEnd(values, width, written, accumulator, accumulatorBits);
      if accumulatorBits > 0 {
        NextByte(calls, written, accumulator);
        writer.Byte(accumulator % 256);
        written := written + [accumulator];
      }
    }
    Regroup(writer, calls, written);
  }

  // ----- reading -----

  /** Seven further bits at their place. */
  function Accumulate(value: nat, b: byte, factor: nat): nat {
    value + b % 128 * factor
  }

  lemma GroupStep(r: Reader, left: nat, value: nat, factor: nat)
    ensures ReadGroups(r, 0, value, factor) == Err(MalformedInteger)
    ensures left > 0 ==>
      match ReadByte(r)
      case Err(f) => ReadGroups(r, left, value, factor) == Err(f)
      case Ok((b, r1)) =>
        var v := Accumulate(value, b, factor);
        ReadGroups(r, left, value, factor) ==
          if b >= 128 then ReadGroups(r1, left - 1, v, factor * 128)
          else if v > SAFE_INTEGER_MAX then Err(UnsafeInteger)
          else Ok((v, r1))
  {
  }

  class BinaryReader {
    const bytes: seq<byte>
    var offset: nat
    var strings: seq<string>

    ghost predicate Valid()
      reads this
    {
      offset <= |bytes|
    }

    /** The part not read yet, and the strings collected so far. */
    ghost function State(): Reader
      reads this
      requires Valid()
    {
      Reader(bytes[offset..], strings)
    }

    constructor (bytes: seq<byte>)
      ensures Valid() && State() == Reader(bytes, []) && this.bytes == bytes
    {
      this.bytes := bytes;
      offset := 0;
      strings := [];
    }

    method Byte() returns (res: Result<byte>)
      requires Valid()
      modifies this`offset
      ensures Valid()
      ensures match ReadByte(old(State()))
        case Ok((b, r)) => res == Ok(b) && State() == r
        case Err(f) => res == Err(f) && State() == old(State())
    {
      if offset >= |bytes| {
        return Err(UnexpectedEnd);
      }
      assert bytes[offset..][1..] == bytes[offset + 1..];
      res := Ok(bytes[offset]);
      offset := offset + 1;
    }

    method Bytes(length: nat) returns (res: Result<seq<byte>>)
      requires Valid()
      modifies this`offset
      ensures Valid()
      ensures match ReadBytes(old(State()), length)
        case Ok((bs, r)) => res == Ok(bs) && State() == r
        case Err(f) => res == Err(f) && State() == old(State())
    {
      var end := offset + length;
      if end > |bytes| {
        return Err(UnexpectedEnd);
      }
      assert bytes[offset..][..length] == bytes[offset..end];
      assert bytes[offset..][length..] == bytes[end..];
      res := Ok(bytes[offset..end]);
      offset := end;
    }

    method Varuint() returns (res: Result<nat>)
      requires Valid()
      modifies this`offset
      ensures Valid()
      ensures match ReadVaruint(old(State()))
        case Ok((n, r)) => res == Ok(n) && State() == r
        case Err(f) => res == Err(f)
    {
      var value: nat, factor: nat := 0, 1;
      for i := 0 to 8
        invariant Valid()
        invariant ReadVaruint(old(State())) == ReadGroups(State(), 8 - i, value, factor)
      {
        hide ReadVaruint, ReadGroups, ReadByte, Accumulate;
        GroupStep(State(), 8 - i, value, factor);
        var b :- Byte();
        value := Accumulate(value, b, factor);
        if b < 128 {
          if value > SAFE_INTEGER_MAX {
            return Err(UnsafeInteger);
          }
          return Ok(value);
        }
        factor := factor * 128;
      }
      GroupStep(State(), 0, value, factor);
      return Err(MalformedInteger);
    }

    method String() returns (res: Result<string>)
      requires Valid()
      modifies this
      ensures Valid()
      ensures match ReadString(old(State()))
        case Ok((s, r)) => res == Ok(s) && State() == r
        case Err(f) => res == Err(f)
    {
      var token :- Varuint();
      if token % 2 == 0 {
        var index := token / 2;
        if index >= |strings| {
          return Err(BadStringReference);
        }
        return Ok(strings[index]);
      }
      var length := (token - 1) / 2;
      assert length == token / 2;
      var encoded :- Bytes(length);
      match Decode(encoded)
      case None =>
        return Err(NotUtf8);
      case Some(s) =>
        strings := strings + [s];
        return Ok(s);
    }
  }

  /** The values unpacked so far and the bits held over account for the bytes read so far. */
  ghost predicate Unpacking(read: seq<byte>, values: seq<nat>, width: nat, acc: nat, bits: nat) {
    && FromLittleEndian(read) == Pack(values, width) + Shift(acc, |values| * width)
    && 8 * |read| == |values| * width + bits
    && acc < Pow2(bits)
    && Fits(values, width)
  }

  lemma UnpackingStart(width: nat)
    ensures Unpacking([], [], width, 0, 0)
  {
    ShiftIsProduct(0, 0);
  }

  /** A byte lands above the bits held over. */
  lemma HeldByte(acc: nat, b: byte, bits: nat, place: nat)
    requires acc < Pow2(bits)
    ensures Shift(Or(acc, Shift(b, bits)), place) == Shift(acc, place) + Shift(b, bits + place)
    ensures Or(acc, Shift(b, bits)) < Pow2(bits + 8)
  {
    OrDisjoint(acc, b, bits);
    ShiftAdd(acc, Shift(b, bits), place);
    ShiftShift(b, bits, place);
    Pow2Values();
    ShiftMonotone(b + 1, Pow2(8), bits);
    ShiftAdd(b, 1, bits);
    ShiftPow2(0, bits);
    ShiftPow2(8, bits);
  }

  lemma UnpackingByte(read: seq<byte>, b: byte, values: seq<nat>, width: nat, acc: nat, bits: nat)
    requires Unpacking(read, values, width, acc, bits)
    ensures Unpacking(read + [b], values, width, Or(acc, Shift(b, bits)), bits + 8)
  {
    hide Or, Shift, Pow2, FromLittleEndian, Pack, Fits;
    HeldByte(acc, b, bits, |values| * width);
    FromLittleEndianAppend(read, b);
  }

  lemma HeldValue(acc: nat, width: nat, bits: nat, place: nat)
    requires acc < Pow2(bits) && width <= bits
    ensures Low(acc, width) < Pow2(width) && Unshift(acc, width) < Pow2(bits - width)
    ensures Shift(acc, place) == Shift(Low(acc, width), place) + Shift(Unshift(acc, width), width + place)
  {
    SplitBits(acc, width);
    ShiftAdd(Shift(Unshift(acc, width), width), Low(acc, width), place);
    ShiftShift(Unshift(acc, width), width, place);
    UnshiftBound(acc, width, bits);
  }

  lemma OneMore(count: nat, width: nat)
    ensures (count + 1) * width == count * width + width
  {
  }

  lemma UnpackingValue(read: seq<byte>, values: seq<nat>, width: nat, acc: nat, bits: nat)
    requires Unpacking(read, values, width, acc, bits) && bits >= width
    ensures Unpacking(read, values + [Low(acc, width)], width, Unshift(acc, width), bits - width)
  {
    hide Low, Unshift, Shift, Pow2, FromLittleEndian, Pack;
    HeldValue(acc, width, bits, |values| * width);
    PackAppend(values, Low(acc, width), width);
    OneMore(|values|, width);
  }

  lemma UnshiftBound(n: nat, k: nat, bits: nat)
    requires n < Pow2(bits) && k <= bits
    ensures Unshift(n, k) < Pow2(bits - k)
  {
    SplitBits(n, k);
    ShiftPow2(bits - k, k);
    ShiftMonotone(Pow2(bits - k), Unshift(n, k), k);
  }

  lemma {:induction false} UnpackWithRest(values: seq<nat>, rest: nat, width: nat)
    requires Fits(values, width)
    ensures Unpack(Pack(values, width) + Shift(rest, |values| * width), |values|, width) == values
  {
    if values != [] {
      var tail := values[1..];
      UnpackWithRest(tail, rest, width);
      ShiftAdd(Pack(tail, width), Shift(rest, |tail| * width), width);
      ShiftShift(rest, |tail| * width, width);
      assert |tail| * width + width == |values| * width;
      JoinBits(Pack(tail, width) + Shift(rest, |tail| * width), values[0], width);
      assert [values[0]] + tail == values;
    }
  }

  lemma UnpackingEnd(read: seq<byte>, values: seq<nat>, width: nat, acc: nat, bits: nat)
    requires Unpacking(read, values, width, acc, bits) && bits < 8
    ensures |read| == PackedLength(|values|, width)
    ensures Unpack(FromLittleEndian(read), |values|, width) == values
  {
    UnpackWithRest(values, acc, width);
  }

  /** More bits are needed only while the packed bytes are not exhausted. */
  lemma UnpackingShort(read: seq<byte>, values: seq<nat>, count: nat, width: nat, acc: nat, bits: nat)
    requires Unpacking(read, values, width, acc, bits) && bits < width && |values| < count
    ensures |read| < PackedLength(count, width)
  {
    assert (|values| + 1) * width <= count * width;
    assert (|values| + 1) * width == |values| * width + width;
  }

  lemma Zeros(n: nat, count: nat)
    ensures Unpack(n, count, 0) == seq(count, i => 0)
    ensures PackedLength(count, 0) == 0
    decreases count
  {
    if count > 0 {
      Zeros(n, count - 1);
      assert [0] + seq(count - 1, i => 0) == seq(count, i => 0);
    }
  }

  /** Values unpacked through the accumulator, reading a byte only when bits run out. */
  method ReadPackedLoop(reader: BinaryReader, count: nat, width: nat) returns (res: Result<seq<nat>>)
    requires reader.Valid()
    modifies reader`offset
    ensures reader.Valid()
    ensures match ReadPacked(old(reader.State()), count, width)
      case Ok((values, r)) => res == Ok(values) && reader.State() == r
      case Err(f) => res == Err(f)
  {
    ghost var start := reader.offset;
    PackedParts(reader.State(), count, width);
    if width == 0 {
      Zeros(FromLittleEndian([]), count);
      return Ok(seq(count, i => 0));
    }
    var values: seq<nat>, accumulator: nat, accumulatorBits: nat := [], 0, 0;
    ghost var read: seq<byte> := [];
    UnpackingStart(width);
    while |values| < count
      invariant reader.Valid() && |values| <= count && accumulatorBits < 8
      invariant reader.offset == start + |read| && read == reader.bytes[start..reader.offset]
      invariant Unpacking(read, values, width, accumulator, accumulatorBits)
    {
      while accumulatorBits < width
        invariant reader.Valid() && |values| < count && accumulatorBits < width + 8
        invariant reader.offset == start + |read| && read == reader.bytes[start..reader.offset]
        invariant Unpacking(read, values, width, accumulator, accumulatorBits)
        decreases width + 8 - accumulatorBits
      {
        UnpackingShort(read, values, count, width, accumulator, accumulatorBits);
        var b :- reader.Byte();
        UnpackingByte(read, b, values, width, accumulator, accumulatorBits);
        accumulator := Or(accumulator, Shift(b, accumulatorBits));
        accumulatorBits := accumulatorBits + 8;
        read := read + [b];
      }
      UnpackingValue(read, values, width, accumulator, accumulatorBits);
      values := values + [Low(accumulator, width)];
      accumulator := Unshift(accumulator, width);
      accumulatorBits := accumulatorBits - width;
    }
    UnpackingEnd(read, values, width, accumulator, accumulatorBits);
    assert reader.bytes[start..][..|read|] == read;
    assert reader.bytes[start..][|read|..] == reader.bytes[reader.offset..];
    return Ok(values);
  }

  lemma PackedParts(r: Reader, count: nat, width: nat)
    ensures ReadPacked(r, count, width) ==
      if PackedLength(count, width) > |r.bytes| then Err(UnexpectedEnd)
      else Ok((Unpack(FromLittleEndian(r.bytes[..PackedLength(count, width)]), count, width),
               r.(bytes := r.bytes[PackedLength(count, width)..])))
  {
  }
}
