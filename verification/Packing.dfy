/** Little-endian integers and the dense bit packing of residuals. */
module Packing {
  import opened Base
  import opened Wire

  // ----- little-endian integers -----

  function LittleEndian(n: nat, k: nat): (bs: seq<byte>)
    ensures |bs| == k
  {
    if k == 0 then [] else [n % 256] + LittleEndian(n / 256, k - 1)
  }

  function FromLittleEndian(bs: seq<byte>): nat {
    if bs == [] then 0 else bs[0] + 256 * FromLittleEndian(bs[1..])
  }

  lemma {:induction false} FromLittleEndianInverts(n: nat, k: nat)
    requires n < Pow2(8 * k)
    ensures FromLittleEndian(LittleEndian(n, k)) == n
    decreases k
  {
    if k > 0 {
      Pow2Eight(k - 1);
      FromLittleEndianInverts(n / 256, k - 1);
      assert LittleEndian(n, k)[1..] == LittleEndian(n / 256, k - 1);
    }
  }

  lemma Pow2Eight(k: nat)
    ensures Pow2(8 * (k + 1)) == 256 * Pow2(8 * k)
  {
    ShiftPow2(8 * k, 8);
    ShiftIsProduct(Pow2(8 * k), 8);
    Pow2Values();
  }

  /** Bytes are determined by their value and their number. */
  lemma {:induction false} LittleEndianInverts(bs: seq<byte>)
    ensures LittleEndian(FromLittleEndian(bs), |bs|) == bs
    ensures FromLittleEndian(bs) < Pow2(8 * |bs|)
  {
    if bs != [] {
      LittleEndianInverts(bs[1..]);
      Pow2Eight(|bs| - 1);
      var n := FromLittleEndian(bs);
      assert n % 256 == bs[0] && n / 256 == FromLittleEndian(bs[1..]);
      assert [bs[0]] + bs[1..] == bs;
    }
  }

  // ----- bit packing -----

  ghost predicate Fits(values: seq<nat>, width: nat) {
    forall i :: 0 <= i < |values| ==> values[i] < Pow2(width)
  }

  /** The values side by side in one integer, the first in the lowest bits. */
  function Pack(values: seq<nat>, width: nat): nat {
    if values == [] then 0 else Shift(Pack(values[1..], width), width) + values[0]
  }

  function Unpack(n: nat, count: nat, width: nat): (values: seq<nat>)
    ensures |values| == count
    decreases count
  {
    if count == 0 then [] else [Low(n, width)] + Unpack(Unshift(n, width), count - 1, width)
  }

  function PackedLength(count: nat, width: nat): nat {
    (count * width + 7) / 8
  }

  function PackedBytes(values: seq<nat>, width: nat): (bs: seq<byte>)
    ensures |bs| == PackedLength(|values|, width)
  {
    LittleEndian(Pack(values, width), PackedLength(|values|, width))
  }

  lemma {:induction false} PackBound(values: seq<nat>, width: nat)
    requires Fits(values, width)
    ensures Pack(values, width) < Pow2(|values| * width)
  {
    if values != [] {
      var rest := values[1..];
      PackBound(rest, width);
      var n := Pack(rest, width);
      var bound := Pow2(|rest| * width);
      ShiftPow2(|rest| * width, width);
      assert |rest| * width + width == |values| * width;
      ShiftMonotone(n + 1, bound, width);
      ShiftAdd(n, 1, width);
      ShiftPow2(0, width);
    }
  }

  lemma {:induction false} UnpackPack(values: seq<nat>, width: nat)
    requires Fits(values, width)
    ensures Unpack(Pack(values, width), |values|, width) == values
  {
    if values != [] {
      UnpackPack(values[1..], width);
      JoinBits(Pack(values[1..], width), values[0], width);
      assert [values[0]] + values[1..] == values;
    }
  }

  /** A further value lands above the bits already packed. */
  lemma {:induction false} PackAppend(values: seq<nat>, v: nat, width: nat)
    ensures Pack(values + [v], width) == Pack(values, width) + Shift(v, |values| * width)
  {
    if values == [] {
      assert values + [v] == [v];
      ShiftIsProduct(0, width);
    } else {
      var rest := values[1..];
      PackAppend(rest, v, width);
      assert (values + [v])[1..] == rest + [v];
      ShiftAdd(Pack(rest, width), Shift(v, |rest| * width), width);
      ShiftShift(v, |rest| * width, width);
      assert |rest| * width + width == |values| * width;
    }
  }

  function ReadPacked(r: Reader, count: nat, width: nat): (res: Result<(seq<nat>, Reader)>)
    ensures res.Ok? ==> |res.value.0| == count && |res.value.1.bytes| <= |r.bytes|
  {
    var (bs, r1) :- ReadBytes(r, PackedLength(count, width));
    Ok((Unpack(FromLittleEndian(bs), count, width), r1))
  }

  lemma PackedLengthCovers(count: nat, width: nat)
    ensures count * width <= 8 * PackedLength(count, width) < count * width + 8
  {
  }

  /** Unpacking inverts packing and consumes exactly ceil(count * width / 8) bytes. */
  lemma TakePacked(table: seq<string>, values: seq<nat>, width: nat, more: seq<Op>)
    requires Fits(values, width)
    ensures ReadPacked(At(table, [Raw(PackedBytes(values, width))] + more), |values|, width)
         == Ok((values, At(table, more)))
  {
    var bs := PackedBytes(values, width);
    TakeRaw(table, bs, more);
    PackBound(values, width);
    PackedLengthCovers(|values|, width);
    Pow2Monotone(|values| * width, 8 * PackedLength(|values|, width));
    FromLittleEndianInverts(Pack(values, width), PackedLength(|values|, width));
    UnpackPack(values, width);
  }
}
