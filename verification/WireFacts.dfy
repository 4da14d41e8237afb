/** What the parts of the encoding mean, apart from how they are computed: counts by their seven-bit
    groups, numbers by their bytes, packed fields by their place, characters by their six-bit groups,
    rounding by the nearest number, and wide numbers by their fields. */
module WireFacts {
  import opened Base
  import opened Floats
  import opened Wire
  import opened Delta
  import P = Packing
  import U = Utf8

  // ----- counts -----

  /** Seven bits of every byte, the first the lowest. */
  function GroupValue(bytes: seq<byte>): nat {
    if bytes == [] then 0 else bytes[0] % 128 + 128 * GroupValue(bytes[1..])
  }

  /** A count is the shortest list of seven-bit groups with its value, all but the last marked. */
  lemma {:induction false} CountGroups(n: nat)
    ensures
      var bytes := VaruintBytes(n);
      && bytes != [] && GroupValue(bytes) == n
      && (forall i :: 0 <= i < |bytes| ==> (bytes[i] >= 128 <==> i < |bytes| - 1))
      && (|bytes| > 1 ==> bytes[|bytes| - 1] > 0)
  {
    if n >= 128 {
      CountGroups(n / 128);
      var rest := VaruintBytes(n / 128);
      assert VaruintBytes(n)[1..] == rest;
      assert n / 128 > 0;
    }
  }

  /** The first n bytes are a count: the last of them unmarked, the others marked. */
  predicate EndsAt(bytes: seq<byte>, n: nat) {
    1 <= n <= |bytes| && bytes[n - 1] < 128 && forall i :: 0 <= i < n - 1 ==> bytes[i] >= 128
  }

  lemma {:induction false} GroupsRead(r: Reader, left: nat, value: nat, factor: nat, n: nat)
    requires EndsAt(r.bytes, n)
    ensures
      var total := value + factor * GroupValue(r.bytes[..n]);
      ReadGroups(r, left, value, factor) ==
        if n > left then Err(MalformedInteger)
        else if total > SAFE_INTEGER_MAX then Err(UnsafeInteger)
        else Ok((total, r.(bytes := r.bytes[n..])))
    decreases left
  {
    var b := r.bytes[0];
    assert r.bytes[..n][0] == b && r.bytes[..n][1..] == r.bytes[1..][..n - 1];
    if left > 0 {
      if n == 1 {
        assert GroupValue(r.bytes[..n]) == b % 128 + 128 * GroupValue([]);
        assert b % 128 * factor == factor * GroupValue(r.bytes[..n]);
      } else {
        var rest := GroupValue(r.bytes[1..][..n - 1]);
        assert EndsAt(r.bytes[1..], n - 1);
        GroupsRead(r.(bytes := r.bytes[1..]), left - 1, value + b % 128 * factor, factor * 128, n - 1);
        assert b % 128 * factor + factor * 128 * rest == factor * (b % 128 + 128 * rest);
        assert r.bytes[1..][n - 1..] == r.bytes[n..];
      }
    }
  }

  lemma {:induction false} NoCountRead(r: Reader, left: nat, value: nat, factor: nat)
    requires forall i :: 0 <= i < |r.bytes| && i < left ==> r.bytes[i] >= 128
    ensures ReadGroups(r, left, value, factor).Err?
    decreases left
  {
    if left > 0 && r.bytes != [] {
      var rest := r.bytes[1..];
      assert forall i :: 0 <= i < |rest| && i < left - 1 ==> rest[i] == r.bytes[i + 1];
      NoCountRead(r.(bytes := rest), left - 1, value + r.bytes[0] % 128 * factor, factor * 128);
    }
  }

  /** A count is read exactly when it ends within eight bytes and is no more than 2^53 - 1, and then it is
      the value of its groups. */
  lemma CountRead(r: Reader)
    ensures forall n: nat :: EndsAt(r.bytes, n) && n <= 8 && GroupValue(r.bytes[..n]) <= 9_007_199_254_740_991 ==>
      ReadVaruint(r) == Ok((GroupValue(r.bytes[..n]), r.(bytes := r.bytes[n..])))
    ensures ReadVaruint(r).Ok? ==>
      exists n: nat :: EndsAt(r.bytes, n) && n <= 8 && GroupValue(r.bytes[..n]) <= 9_007_199_254_740_991
  {
    forall n: nat | EndsAt(r.bytes, n)
      ensures ReadVaruint(r) ==
        if n > 8 then Err(MalformedInteger)
        else if GroupValue(r.bytes[..n]) > SAFE_INTEGER_MAX then Err(UnsafeInteger)
        else Ok((GroupValue(r.bytes[..n]), r.(bytes := r.bytes[n..])))
    {
      GroupsRead(r, 8, 0, 1, n);
    }
    if forall i :: 0 <= i < |r.bytes| && i < 8 ==> r.bytes[i] >= 128 {
      NoCountRead(r, 8, 0, 1);
    } else {
      var n := FirstUnmarked(r.bytes);
    }
    hide ReadGroups, GroupValue;
  }

  lemma {:induction false} FirstUnmarked(bytes: seq<byte>) returns (n: nat)
    requires exists i :: 0 <= i < |bytes| && bytes[i] < 128
    ensures EndsAt(bytes, n)
  {
    if bytes[0] < 128 {
      n := 1;
    } else {
      var i :| 0 <= i < |bytes| && bytes[i] < 128;
      assert bytes[1..][i - 1] == bytes[i];
      n := FirstUnmarked(bytes[1..]);
      assert forall j :: 1 <= j < n + 1 ==> bytes[j] == bytes[1..][j - 1];
      n := n + 1;
    }
  }

  // ----- bytes and fields -----

  lemma {:induction false} LittleEndianByte(n: nat, k: nat, i: nat)
    requires i < k
    ensures P.LittleEndian(n, k)[i] == Unshift(n, 8 * i) % 256
    decreases k
  {
    if i > 0 {
      LittleEndianByte(n / 256, k - 1, i - 1);
      UnshiftBytes(n, i - 1);
    }
  }

  lemma UnshiftBytes(n: nat, i: nat)
    ensures Unshift(n, 8 * (i + 1)) == Unshift(n / 256, 8 * i)
  {
    var k := 8 * i;
    assert Unshift(n, k + 8) == Unshift(n / 2, k + 7);
    assert Unshift(n / 2, k + 7) == Unshift(n / 2 / 2, k + 6);
    assert Unshift(n / 2 / 2, k + 6) == Unshift(n / 2 / 2 / 2, k + 5);
    assert Unshift(n / 2 / 2 / 2, k + 5) == Unshift(n / 2 / 2 / 2 / 2, k + 4);
    assert Unshift(n / 2 / 2 / 2 / 2, k + 4) == Unshift(n / 2 / 2 / 2 / 2 / 2, k + 3);
    assert Unshift(n / 2 / 2 / 2 / 2 / 2, k + 3) == Unshift(n / 2 / 2 / 2 / 2 / 2 / 2, k + 2);
    assert Unshift(n / 2 / 2 / 2 / 2 / 2 / 2, k + 2) == Unshift(n / 2 / 2 / 2 / 2 / 2 / 2 / 2, k + 1);
    assert Unshift(n / 2 / 2 / 2 / 2 / 2 / 2 / 2, k + 1) == Unshift(n / 2 / 2 / 2 / 2 / 2 / 2 / 2 / 2, k);
    assert n / 2 / 2 / 2 / 2 / 2 / 2 / 2 / 2 == n / 256;
  }

  /** The i-th packed value fills the bits from i * width on, and nothing lies above the last. */
  lemma {:induction false} PackedField(values: seq<nat>, width: nat, i: nat)
    requires P.Fits(values, width) && i < |values|
    ensures Low(Unshift(P.Pack(values, width), i * width), width) == values[i]
    ensures P.Pack(values, width) < Pow2(|values| * width)
  {
    P.PackBound(values, width);
    JoinBits(P.Pack(values[1..], width), values[0], width);
    if i > 0 {
      PackedField(values[1..], width, i - 1);
      assert i * width == width + (i - 1) * width;
      UnshiftUnshift(P.Pack(values, width), width, (i - 1) * width);
    }
  }

  // ----- characters -----

  /** A character takes one byte below 128 and otherwise as few six-bit groups as hold it, behind a first
      byte that says how many bytes there are. */
  lemma CharacterBytes(c: char)
    ensures
      var e, p := U.EncodeChar(c), c as int;
      && |e| == (if p < 0x80 then 1 else if p < 0x800 then 2 else if p < 0x1_0000 then 3 else 4)
      && (forall i :: 1 <= i < |e| ==> 0x80 <= e[i] < 0xC0)
      && (|e| == 1 ==> e[0] == p)
      && (|e| == 2 ==> 0xC0 <= e[0] < 0xE0 && p == 64 * (e[0] as int - 0xC0) + (e[1] as int - 0x80))
      && (|e| == 3 ==>
            0xE0 <= e[0] < 0xF0
            && p == 4096 * (e[0] as int - 0xE0) + 64 * (e[1] as int - 0x80) + (e[2] as int - 0x80))
      && (|e| == 4 ==>
            0xF0 <= e[0] < 0xF8
            && p == 262_144 * (e[0] as int - 0xF0) + 4096 * (e[1] as int - 0x80) + 64 * (e[2] as int - 0x80)
                    + (e[3] as int - 0x80))
  {
  }

  // ----- rounding and widening -----

  /** Rounding takes a nearest number, and of two the even one. */
  lemma HalfEvenNearest(m: nat, k: nat)
    ensures
      var q := HalfEven(m, k);
      && 2 * Abs(m - Shift(q, k)) <= Pow2(k)
      && (2 * Abs(m - Shift(q, k)) == Pow2(k) ==> q % 2 == 0)
  {
    SplitBits(m, k);
    ShiftAdd(Unshift(m, k), 1, k);
    ShiftPow2(0, k);
    hide Shift, Unshift, Low, Pow2;
  }

  /** Widening keeps the sign and the fraction and moves the exponent by 896. */
  lemma WidenFields(sign: nat, exponent: nat, fraction: nat)
    requires sign <= 1 && 0 < exponent < 255 && fraction < 0x80_0000
    ensures Widen(sign * 0x8000_0000 + exponent * 0x80_0000 + fraction)
      == sign * 0x8000_0000_0000_0000 + (exponent + 896) * 0x10_0000_0000_0000 + fraction * 0x2000_0000
  {
    var mag := exponent * 0x80_0000 + fraction;
    NarrowFields(exponent, fraction);
    WideFields(exponent, fraction);
    WidenParts(sign, mag);
    hide Unpack, Round, Widen;
  }

  lemma WidenParts(sign: nat, mag: nat)
    requires sign <= 1 && mag < BINARY32.infinity
    ensures Widen(sign * 0x8000_0000 + mag) == sign * 0x8000_0000_0000_0000 + Round(BINARY64, Unpack(BINARY32, mag))
  {
    hide Unpack, Round;
    if sign == 1 {
      assert Magnitude(BINARY32, 0x8000_0000 + mag) == mag;
    }
  }

  lemma NarrowFields(exponent: nat, fraction: nat)
    requires 0 < exponent < 255 && fraction < 0x80_0000
    ensures Unpack(BINARY32, exponent * 0x80_0000 + fraction) == Dyadic(fraction + 0x80_0000, exponent - 150)
  {
    Pow2Values();
    ShiftIsProduct(exponent, 23);
    JoinBits(exponent, fraction, 23);
    hide Shift, Unshift, Low, Pow2;
  }

  lemma WideFields(exponent: nat, fraction: nat)
    requires 0 < exponent < 255 && fraction < 0x80_0000
    ensures Round(BINARY64, Dyadic(fraction + 0x80_0000, exponent - 150))
      == (exponent + 896) * 0x10_0000_0000_0000 + fraction * 0x2000_0000
  {
    Pow2Values();
    var d := Dyadic(fraction + 0x80_0000, exponent - 150);
    BitLenBound(d.m, 24);
    BitLenBound(d.m, 23);
    assert LastPlace(BINARY64, d) == exponent - 179;
    ShiftIsProduct(d.m, 29);
    assert Pow2(29) == 0x2000_0000 by {
      ShiftPow2(23, 6);
      assert Shift(0x80_0000, 6) == 0x2000_0000;
    }
    ShiftIsProduct(exponent + 895, 52);
    hide BitLen, Pow2, Shift, LastPlace;
  }

  // ----- trimmed differences -----

  lemma {:induction false} TrailingBytes(x: nat, limit: nat)
    ensures Shift(Unshift(x, 8 * ZeroBytes(x, limit)), 8 * ZeroBytes(x, limit)) == x
    ensures ZeroBytes(x, limit) < limit ==> Unshift(x, 8 * ZeroBytes(x, limit)) % 256 != 0
    decreases limit
  {
    if limit > 0 && x % 256 == 0 {
      TrailingBytes(x / 256, limit - 1);
      var z := ZeroBytes(x / 256, limit - 1);
      UnshiftBytes(x, z);
      ShiftShift(Unshift(x / 256, 8 * z), 8 * z, 8);
      ShiftIsProduct(x / 256, 8);
      Pow2Values();
    }
  }

  lemma SignificantBytes(x: nat)
    ensures
      var length := SignificantLength(x);
      x < Pow2(8 * length) && (length > 1 ==> x >= Pow2(8 * (length - 1)))
  {
    var length := SignificantLength(x);
    BitLenBound(x, 8 * length);
    BitLenBound(x, 8 * (length - 1));
  }
}
