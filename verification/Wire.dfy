/** The byte layer: what a sequence of writer calls puts on the wire, and how the reader takes
    each call back. Writers are specified by the calls they make, so that two writers making
    the same calls write the same bytes and intern the same strings. */
module Wire {
  import opened Base
  import opened Utf8

  /** One call of BinaryWriter: write_byte, write_varuint, write_string or write_bytes. */
  datatype Op =
    | Byte(b: byte)
    | Varuint(n: nat)
    | Text(s: string)
    | Raw(bs: seq<byte>)

  // ----- varints -----

  function VaruintBytes(n: nat): seq<byte> {
    if n < 128 then [n] else [n % 128 + 128] + VaruintBytes(n / 128)
  }

  /** The length the cost comparisons use. */
  function VaruintLength(n: nat): nat {
    Max(1, (BitLen(n) + 6) / 7)
  }

  lemma BitLenSeven(n: nat)
    requires n >= 128
    ensures BitLen(n) == 7 + BitLen(n / 128) && BitLen(n / 128) > 0
  {
    assert n / 2 / 2 / 2 / 2 / 2 / 2 / 2 == n / 128;
    assert BitLen(n / 2) == 1 + BitLen(n / 2 / 2);
    assert BitLen(n / 2 / 2 / 2) == 1 + BitLen(n / 2 / 2 / 2 / 2);
    assert BitLen(n / 2 / 2 / 2 / 2 / 2) == 1 + BitLen(n / 2 / 2 / 2 / 2 / 2 / 2);
  }

  /** The computed cost is the number of bytes written. */
  lemma {:induction false} VaruintLengthExact(n: nat)
    ensures |VaruintBytes(n)| == VaruintLength(n)
  {
    if n >= 128 {
      VaruintLengthExact(n / 128);
      BitLenSeven(n);
    } else {
      BitLenBound(n, 7);
      Pow2Values();
    }
  }

  lemma VaruintAtMost(n: nat, k: nat)
    requires n < Pow2(7 * k) && k > 0
    ensures |VaruintBytes(n)| <= k
  {
    VaruintLengthExact(n);
    BitLenBound(n, 7 * k);
  }

  // ----- writing -----

  function IndexOf(table: seq<string>, s: string): (i: nat)
    requires s in table
    ensures i < |table| && table[i] == s
  {
    if table[0] == s then 0 else 1 + IndexOf(table[1..], s)
  }

  function StringToken(table: seq<string>, s: string): nat {
    if s in table then 2 * IndexOf(table, s) else 2 * |Encode(s)| + 1
  }

  function EmitOp(table: seq<string>, op: Op): seq<byte> {
    match op
    case Byte(b) => [b]
    case Varuint(n) => VaruintBytes(n)
    case Text(s) => VaruintBytes(StringToken(table, s)) + if s in table then [] else Encode(s)
    case Raw(bs) => bs
  }

  /** The string table after the call: a new string takes the next index. */
  function TableOp(table: seq<string>, op: Op): seq<string> {
    if op.Text? && op.s !in table then table + [op.s] else table
  }

  /** The call does not raise: every varint argument is a safe integer. */
  predicate SafeOp(table: seq<string>, op: Op) {
    match op
    case Varuint(n) => n <= SAFE_INTEGER_MAX
    case Text(s) => StringToken(table, s) <= SAFE_INTEGER_MAX
    case _ => true
  }

  function Emit(table: seq<string>, ops: seq<Op>): seq<byte>
    decreases ops
  {
    if ops == [] then [] else EmitOp(table, ops[0]) + Emit(TableOp(table, ops[0]), ops[1..])
  }

  function Table(table: seq<string>, ops: seq<Op>): seq<string>
    decreases ops
  {
    if ops == [] then table else Table(TableOp(table, ops[0]), ops[1..])
  }

  predicate Safe(table: seq<string>, ops: seq<Op>)
    decreases ops
  {
    ops == [] || (SafeOp(table, ops[0]) && Safe(TableOp(table, ops[0]), ops[1..]))
  }

  lemma Front(table: seq<string>, op: Op, more: seq<Op>)
    ensures Emit(table, [op] + more) == EmitOp(table, op) + Emit(TableOp(table, op), more)
    ensures Safe(table, [op] + more) <==> SafeOp(table, op) && Safe(TableOp(table, op), more)
    ensures Table(table, [op] + more) == Table(TableOp(table, op), more)
  {
    assert ([op] + more)[1..] == more;
  }

  lemma {:induction false} AppendTable(table: seq<string>, a: seq<Op>, b: seq<Op>)
    ensures Table(table, a + b) == Table(Table(table, a), b)
    decreases a
  {
    if a == [] {
      assert a + b == b;
    } else {
      AppendTable(TableOp(table, a[0]), a[1..], b);
      assert (a + b)[1..] == a[1..] + b;
    }
  }

  lemma EmitCons(table: seq<string>, a: seq<Op>, b: seq<Op>)
    requires a != []
    ensures Emit(table, a + b) == EmitOp(table, a[0]) + Emit(TableOp(table, a[0]), a[1..] + b)
  {
    assert (a + b)[1..] == a[1..] + b;
  }

  lemma Assoc(x: seq<byte>, y: seq<byte>, z: seq<byte>)
    ensures x + (y + z) == (x + y) + z
  {
  }

  lemma {:induction false} AppendEmit(table: seq<string>, a: seq<Op>, b: seq<Op>)
    ensures Emit(table, a + b) == Emit(table, a) + Emit(Table(table, a), b)
    decreases a
  {
    if a == [] {
      assert a + b == b;
    } else {
      hide EmitOp, TableOp;
      var t := TableOp(table, a[0]);
      EmitCons(table, a, b);
      AppendEmit(t, a[1..], b);
      Assoc(EmitOp(table, a[0]), Emit(t, a[1..]), Emit(Table(table, a), b));
    }
  }

  lemma {:induction false} AppendSafe(table: seq<string>, a: seq<Op>, b: seq<Op>)
    ensures Safe(table, a + b) <==> Safe(table, a) && Safe(Table(table, a), b)
    decreases a
  {
    if a == [] {
      assert a + b == b;
    } else {
      AppendSafe(TableOp(table, a[0]), a[1..], b);
      assert (a + b)[1..] == a[1..] + b;
    }
  }

  lemma Append(table: seq<string>, a: seq<Op>, b: seq<Op>)
    ensures Emit(table, a + b) == Emit(table, a) + Emit(Table(table, a), b)
    ensures Table(table, a + b) == Table(Table(table, a), b)
    ensures Safe(table, a + b) <==> Safe(table, a) && Safe(Table(table, a), b)
  {
    AppendEmit(table, a, b);
    AppendTable(table, a, b);
    AppendSafe(table, a, b);
  }

  lemma One(table: seq<string>, op: Op)
    ensures Emit(table, [op]) == EmitOp(table, op)
    ensures Table(table, [op]) == TableOp(table, op)
    ensures Safe(table, [op]) <==> SafeOp(table, op)
  {
    assert [op][1..] == [];
  }

  // ----- reading -----

  /** What the reader still has in front of it and the strings it has collected. */
  datatype Reader = Reader(bytes: seq<byte>, strings: seq<string>)

  function ReadByte(r: Reader): (res: Result<(byte, Reader)>)
    ensures res.Ok? ==> |res.value.1.bytes| < |r.bytes|
  {
    if r.bytes == [] then Err(UnexpectedEnd)
    else Ok((r.bytes[0], r.(bytes := r.bytes[1..])))
  }

  function ReadBytes(r: Reader, length: nat): (res: Result<(seq<byte>, Reader)>)
    ensures res.Ok? ==> |res.value.0| == length && |res.value.1.bytes| == |r.bytes| - length
  {
    if length > |r.bytes| then Err(UnexpectedEnd)
    else Ok((r.bytes[..length], r.(bytes := r.bytes[length..])))
  }

  /** The reader's loop: at most `left` further groups of seven bits. */
  function ReadGroups(r: Reader, left: nat, value: nat, factor: nat): (res: Result<(nat, Reader)>)
    ensures res.Ok? ==> |res.value.1.bytes| < |r.bytes| && res.value.0 <= SAFE_INTEGER_MAX
    decreases left
  {
    if left == 0 then Err(MalformedInteger)
    else
      var (b, r1) :- ReadByte(r);
      var v := value + b % 128 * factor;
      if b >= 128 then ReadGroups(r1, left - 1, v, factor * 128)
      else if v > SAFE_INTEGER_MAX then Err(UnsafeInteger)
      else Ok((v, r1))
  }

  function ReadVaruint(r: Reader): (res: Result<(nat, Reader)>)
    ensures res.Ok? ==> |res.value.1.bytes| < |r.bytes| && res.value.0 <= SAFE_INTEGER_MAX
  {
    ReadGroups(r, 8, 0, 1)
  }

  function ReadString(r: Reader): (res: Result<(string, Reader)>)
    ensures res.Ok? ==> |res.value.1.bytes| < |r.bytes|
  {
    var (token, r1) :- ReadVaruint(r);
    if token % 2 == 0 then OldString(r1, token / 2) else NewString(r1, token / 2)
  }

  function OldString(r: Reader, index: nat): (res: Result<(string, Reader)>)
    ensures res.Ok? ==> res.value.1 == r
  {
    if index < |r.strings| then Ok((r.strings[index], r)) else Err(BadStringReference)
  }

  function NewString(r: Reader, length: nat): (res: Result<(string, Reader)>)
    ensures res.Ok? ==> |res.value.1.bytes| <= |r.bytes|
  {
    var (encoded, r1) :- ReadBytes(r, length);
    match Decode(encoded)
    case None => Err(NotUtf8)
    case Some(s) => Ok((s, r1.(strings := r1.strings + [s])))
  }

  // ----- reading back what was written -----

  /** The reader positioned before the output of the given calls, its string list in step
      with the writer's table. */
  function At(table: seq<string>, ops: seq<Op>): Reader {
    Reader(Emit(table, ops), table)
  }

  lemma TakeByte(table: seq<string>, b: byte, more: seq<Op>)
    ensures ReadByte(At(table, [Byte(b)] + more)) == Ok((b, At(table, more)))
  {
    Front(table, Byte(b), more);
  }

  lemma TakeRaw(table: seq<string>, bs: seq<byte>, more: seq<Op>)
    ensures ReadBytes(At(table, [Raw(bs)] + more), |bs|) == Ok((bs, At(table, more)))
  {
    Front(table, Raw(bs), more);
  }

  lemma {:induction false} GroupsOfVaruint(n: nat, rest: seq<byte>, strings: seq<string>, left: nat, value: nat,
                                           factor: nat)
    requires |VaruintBytes(n)| <= left
    requires value + n * factor <= SAFE_INTEGER_MAX
    ensures ReadGroups(Reader(VaruintBytes(n) + rest, strings), left, value, factor)
         == Ok((value + n * factor, Reader(rest, strings)))
    decreases n
  {
    var bytes := VaruintBytes(n) + rest;
    if n < 128 {
      assert bytes[1..] == rest;
    } else {
      var q := n / 128;
      var v := value + n % 128 * factor;
      assert bytes[0] == n % 128 + 128 && bytes[1..] == VaruintBytes(q) + rest;
      assert v + q * (factor * 128) == value + n * factor by {
        SplitProduct(n, factor);
      }
      GroupsOfVaruint(q, rest, strings, left - 1, v, factor * 128);
      var r := Reader(bytes, strings);
      assert ReadByte(r) == Ok((bytes[0], Reader(VaruintBytes(q) + rest, strings)));
    }
  }

  lemma SplitProduct(n: nat, factor: nat)
    ensures n % 128 * factor + n / 128 * (factor * 128) == n * factor
  {
    var q, m := n / 128, n % 128;
    assert n == q * 128 + m;
    assert (q * 128 + m) * factor == q * 128 * factor + m * factor;
    assert q * 128 * factor == q * (factor * 128);
  }

  /** Every safe integer is read back: eight groups of seven bits hold 53 bits. */
  lemma ReadWrittenVaruint(n: nat, rest: seq<byte>, strings: seq<string>)
    requires n <= SAFE_INTEGER_MAX
    ensures ReadVaruint(Reader(VaruintBytes(n) + rest, strings)) == Ok((n, Reader(rest, strings)))
  {
    Pow2Values();
    assert Pow2(7 * 8) == 8 * Pow2(53) by {
      ShiftPow2(53, 3);
    }
    VaruintAtMost(n, 8);
    GroupsOfVaruint(n, rest, strings, 8, 0, 1);
  }

  lemma TakeVaruint(table: seq<string>, n: nat, more: seq<Op>)
    requires Safe(table, [Varuint(n)] + more)
    ensures ReadVaruint(At(table, [Varuint(n)] + more)) == Ok((n, At(table, more)))
  {
    Front(table, Varuint(n), more);
    ReadWrittenVaruint(n, Emit(table, more), table);
  }

  lemma ReadNewString(s: string, rest: seq<byte>, strings: seq<string>)
    ensures NewString(Reader(Encode(s) + rest, strings), |Encode(s)|) == Ok((s, Reader(rest, strings + [s])))
  {
    var encoded := Encode(s);
    assert (encoded + rest)[..|encoded|] == encoded && (encoded + rest)[|encoded|..] == rest;
    DecodeEncode(s);
  }

  /** The reader's list and the writer's table stay inverse through every string. */
  lemma TakeString(table: seq<string>, s: string, more: seq<Op>)
    requires Safe(table, [Text(s)] + more)
    ensures ReadString(At(table, [Text(s)] + more)) == Ok((s, At(TableOp(table, Text(s)), more)))
  {
    Front(table, Text(s), more);
    var rest := Emit(TableOp(table, Text(s)), more);
    if s in table {
      TakeOldString(table, s, rest);
    } else {
      TakeNewString(table, s, rest);
    }
  }

  lemma TakeOldString(table: seq<string>, s: string, rest: seq<byte>)
    requires s in table && SafeOp(table, Text(s))
    ensures ReadString(Reader(EmitOp(table, Text(s)) + rest, table)) == Ok((s, Reader(rest, table)))
  {
    var token := StringToken(table, s);
    assert EmitOp(table, Text(s)) + rest == VaruintBytes(token) + rest;
    ReadWrittenVaruint(token, rest, table);
  }

  lemma TakeNewString(table: seq<string>, s: string, rest: seq<byte>)
    requires s !in table && SafeOp(table, Text(s))
    ensures ReadString(Reader(EmitOp(table, Text(s)) + rest, table)) == Ok((s, Reader(rest, table + [s])))
  {
    var token := StringToken(table, s);
    assert EmitOp(table, Text(s)) + rest == VaruintBytes(token) + (Encode(s) + rest);
    ReadWrittenVaruint(token, Encode(s) + rest, table);
    ReadNewString(s, rest, table);
  }
}
