/** UTF-8 as RFC 3629 section 3 defines it: shortest forms only, no surrogates. */
module Utf8 {
  import opened Base

  function EncodeChar(c: char): (r: seq<byte>)
    ensures 1 <= |r| <= 4
  {
    var p := c as int;
    if p < 0x80 then [p]
    else if p < 0x800 then [0xC0 + p / 0x40, 0x80 + p % 0x40]
    else if p < 0x1_0000 then
      var q := p / 0x40;
      [0xE0 + q / 0x40, 0x80 + q % 0x40, 0x80 + p % 0x40]
    else
      var q := p / 0x40;
      var r := q / 0x40;
      [0xF0 + r / 0x40, 0x80 + r % 0x40, 0x80 + q % 0x40, 0x80 + p % 0x40]
  }

  function Encode(s: string): seq<byte> {
    if s == "" then [] else EncodeChar(s[0]) + Encode(s[1..])
  }

  predicate Continuation(b: byte) {
    0x80 <= b < 0xC0
  }

  predicate ScalarValue(p: int) {
    0 <= p < 0xD800 || 0xE000 <= p < 0x11_0000
  }

  /** A point assembled from six-bit groups, most significant first. */
  function Groups(first: int, tail: seq<byte>): int {
    if tail == [] then first else 0x40 * Groups(first, tail[..|tail| - 1]) + (tail[|tail| - 1] as int - 0x80)
  }

  /** Accept a point of the given length only in its shortest form. */
  function Accept(p: int, least: int, length: nat): (r: Option<(int, nat)>)
    ensures r.Some? ==> ScalarValue(p) && r.value == (p, length)
  {
    if p >= least && ScalarValue(p) then Some((p, length)) else None
  }

  /** The code point at the front of the bytes and its length; none when ill-formed. */
  function DecodePoint(bs: seq<byte>): (r: Option<(int, nat)>)
    ensures r.Some? ==> ScalarValue(r.value.0) && 1 <= r.value.1 <= |bs|
  {
    if |bs| == 0 then None
    else if bs[0] < 0x80 then Some((bs[0], 1))
    else if bs[0] < 0xC0 then None
    else if bs[0] < 0xE0 then
      if |bs| < 2 || !Continuation(bs[1]) then None
      else Accept(Groups(bs[0] as int - 0xC0, [bs[1]]), 0x80, 2)
    else if bs[0] < 0xF0 then
      if |bs| < 3 || !Continuation(bs[1]) || !Continuation(bs[2]) then None
      else Accept(Groups(bs[0] as int - 0xE0, [bs[1], bs[2]]), 0x800, 3)
    else if bs[0] < 0xF8 then
      if |bs| < 4 || !Continuation(bs[1]) || !Continuation(bs[2]) || !Continuation(bs[3]) then None
      else Accept(Groups(bs[0] as int - 0xF0, [bs[1], bs[2], bs[3]]), 0x1_0000, 4)
    else None
  }

  function Decode(bs: seq<byte>): Option<string> {
    if bs == [] then Some("")
    else
      match DecodePoint(bs)
      case None => None
      case Some((p, n)) =>
        match Decode(bs[n..])
        case None => None
        case Some(rest) => Some([p as char] + rest)
  }

  lemma GroupsOf(first: int, a: byte, b: byte, c: byte)
    ensures Groups(first, [a]) == 0x40 * first + (a as int - 0x80)
    ensures Groups(first, [a, b]) == 0x40 * Groups(first, [a]) + (b as int - 0x80)
    ensures Groups(first, [a, b, c]) == 0x40 * Groups(first, [a, b]) + (c as int - 0x80)
  {
    assert [a][..0] == [];
    assert [a, b][..1] == [a];
    assert [a, b, c][..2] == [a, b];
  }

  lemma DecodePointOfChar(c: char, rest: seq<byte>)
    ensures DecodePoint(EncodeChar(c) + rest) == Some((c as int, |EncodeChar(c)|))
  {
    var p := c as int;
    var e := EncodeChar(c);
    var bs := e + rest;
    assert forall i :: 0 <= i < |e| ==> bs[i] == e[i];
    if p < 0x80 {
    } else if p < 0x800 {
      GroupsOf(e[0] as int - 0xC0, e[1], 0, 0);
    } else if p < 0x1_0000 {
      GroupsOf(e[0] as int - 0xE0, e[1], e[2], 0);
    } else {
      GroupsOf(e[0] as int - 0xF0, e[1], e[2], e[3]);
    }
  }

  /** Every string of scalar values survives its encoding. */
  lemma {:induction false} DecodeEncode(s: string)
    ensures Decode(Encode(s)) == Some(s)
  {
    if s != "" {
      DecodePointOfChar(s[0], Encode(s[1..]));
      assert Encode(s)[|EncodeChar(s[0])|..] == Encode(s[1..]);
      DecodeEncode(s[1..]);
      assert [s[0]] + s[1..] == s;
    }
  }
}
