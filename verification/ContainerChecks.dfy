/** The validator against the format: a first-version container is accepted exactly when its bytes are
    laid out, numbered and hashed as the format says. */
module ContainerChecks {
  import opened Base
  import opened Values
  import opened Decode
  import opened ViewerParts
  import opened Container
  import opened ContainerBytes
  import P = Packing

  /** The chunks number the ticks through, up to the announced count. */
  ghost predicate Numbered(entries: seq<Entry>, count: nat) {
    && (entries == [] ==> count == 0)
    && (entries != [] ==> entries[0].firstTick == 0)
    && (forall k :: 0 <= k < |entries| ==>
          && entries[k].index == k
          && entries[k].firstTick + entries[k].tickCount
            == if k + 1 < |entries| then entries[k + 1].firstTick else count)
  }

  /** The block has the announced digest, and holds a chunk of the announced size, ticks and digest. */
  ghost predicate Hashed(env: Environment, rules: Rules, e: Entry, block: seq<byte>) {
    && env.digest(block) == e.compressedHash
    && var raw := env.decompress(block, e.rawBytes);
      && raw.Some? && |raw.value| == e.rawBytes
      && var decoded := DecodeChunk(rules, raw.value);
        && decoded.Ok? && decoded.value.0 == e.firstTick && |decoded.value.1| == e.tickCount
        && env.tickDigest(decoded.value.1) == e.tickHash
        && forall j :: 0 <= j < |decoded.value.1| ==> env.tickAdmitted(decoded.value.1[j])
  }

  ghost predicate HashedAt(env: Environment, rules: Rules, file: seq<byte>, start: nat, e: Entry) {
    && start + e.offset + e.compressedBytes <= |file|
    && Hashed(env, rules, e, file[start + e.offset..start + e.offset + e.compressedBytes])
  }

  ghost function RawSum(entries: seq<Entry>): nat {
    if entries == [] then 0 else RawSum(entries[..|entries| - 1]) + entries[|entries| - 1].rawBytes
  }

  /** A container of the first version, by its bytes. */
  ghost predicate Sound(env: Environment, rules: Rules, file: seq<byte>, m: Manifest) {
    && Opens(env, file, m)
    && var size, raw := P.FromLittleEndian(file[16..20]), P.FromLittleEndian(file[20..24]);
      && 0 < size <= 16_777_216 && 0 < raw <= 67_108_864
      && m.container == 1 && m.contractTicks == m.tickCount
      && Numbered(m.chunks, m.tickCount) && Laid(file, 32 + size, m.chunks)
      && (forall k :: 0 <= k < |m.chunks| ==> HashedAt(env, rules, file, 32 + size, m.chunks[k]))
      && 32 + raw + RawSum(m.chunks) <= 8_589_934_592
  }

  // ----- numbers and places -----

  lemma {:induction false} NumberedPrefix(entries: seq<Entry>, count: nat, n: nat)
    requires n <= |entries| && Numbered(entries, count)
    ensures TicksBefore(entries, n) == if n < |entries| then entries[n].firstTick else count
  {
    if n > 0 {
      NumberedPrefix(entries, count, n - 1);
      assert entries[n - 1].index == n - 1;
    }
  }

  lemma NumbersAgree(entries: seq<Entry>, count: nat)
    ensures Numbered(entries, count) <==>
      && TicksBefore(entries, |entries|) == count
      && forall i :: 0 <= i < |entries| ==> entries[i].index == i && entries[i].firstTick == TicksBefore(entries, i)
  {
    if Numbered(entries, count) {
      NumberedPrefix(entries, count, |entries|);
      forall i | 0 <= i < |entries| ensures entries[i].firstTick == TicksBefore(entries, i) {
        NumberedPrefix(entries, count, i);
      }
    } else {
      forall k | 0 <= k < |entries|
        ensures TicksBefore(entries, k + 1) == TicksBefore(entries, k) + entries[k].tickCount {
      }
    }
  }

  lemma {:induction false} LaidPrefix(file: seq<byte>, start: nat, entries: seq<Entry>, n: nat)
    requires n <= |entries| && Laid(file, start, entries)
    ensures start + BytesBefore(entries, n) == if n < |entries| then start + entries[n].offset else |file|
  {
    if n > 0 {
      LaidPrefix(file, start, entries, n - 1);
    }
  }

  lemma PlacesAgree(file: seq<byte>, start: nat, entries: seq<Entry>)
    ensures Laid(file, start, entries) <==>
      && start + BytesBefore(entries, |entries|) == |file|
      && forall i :: 0 <= i < |entries| ==> entries[i].offset == BytesBefore(entries, i)
  {
    if Laid(file, start, entries) {
      LaidPrefix(file, start, entries, |entries|);
      forall i | 0 <= i < |entries| ensures entries[i].offset == BytesBefore(entries, i) {
        LaidPrefix(file, start, entries, i);
      }
    } else {
      forall k | 0 <= k < |entries|
        ensures BytesBefore(entries, k + 1) == BytesBefore(entries, k) + entries[k].compressedBytes {
      }
    }
  }

  lemma {:induction false} BeforePrefix(entries: seq<Entry>, e: Entry, i: nat)
    requires i <= |entries|
    ensures RawBefore(entries + [e], i) == RawBefore(entries, i)
  {
    if i > 0 {
      BeforePrefix(entries, e, i - 1);
    }
  }

  lemma {:induction false} RawSumIs(entries: seq<Entry>)
    ensures RawSum(entries) == RawBefore(entries, |entries|)
  {
    if entries != [] {
      var front, e := entries[..|entries| - 1], entries[|entries| - 1];
      assert entries == front + [e];
      RawSumIs(front);
      BeforePrefix(front, e, |front|);
    }
  }

  lemma HoldsIsHashed(env: Environment, rules: Rules, file: seq<byte>, start: nat, e: Entry)
    ensures EntryHolds(env, rules, file, start, e) <==> Hashed(env, rules, e, BlockOf(file, start, e))
  {
    hide DecodeChunk, BlockOf;
  }

  lemma HashesAgree(env: Environment, rules: Rules, file: seq<byte>, start: nat, e: Entry)
    requires start + e.offset + e.compressedBytes <= |file|
    ensures EntryHolds(env, rules, file, start, e) <==> HashedAt(env, rules, file, start, e)
  {
    HoldsIsHashed(env, rules, file, start, e);
    SliceWithin(file, start + e.offset, e.compressedBytes);
    hide Hashed, EntryHolds, Slice;
  }

  // ----- the header -----

  lemma HeaderPlaces(bytes: seq<byte>)
    requires |bytes| == 32
    ensures
      var h := Unpack(bytes);
      && h.magic == bytes[..8] && h.headerBytes == P.FromLittleEndian(bytes[8..10])
      && h.version == P.FromLittleEndian(bytes[10..12]) && h.compression == P.FromLittleEndian(bytes[12..16])
      && h.manifestCompressed == P.FromLittleEndian(bytes[16..20])
      && h.manifestRaw == P.FromLittleEndian(bytes[20..24]) && h.total == P.FromLittleEndian(bytes[24..28])
      && h.reserved == P.FromLittleEndian(bytes[28..32])
  {
    hide P.FromLittleEndian;
    assert bytes[8..][..2] == bytes[8..10];
    assert bytes[8..][2..][..2] == bytes[10..12];
    assert bytes[8..][2..][2..][..4] == bytes[12..16];
    assert bytes[8..][2..][2..][4..][..4] == bytes[16..20];
    assert bytes[8..][2..][2..][4..][4..][..4] == bytes[20..24];
    assert bytes[8..][2..][2..][4..][4..][4..][..4] == bytes[24..28];
    assert bytes[8..][2..][2..][4..][4..][4..][4..] == bytes[28..32];
  }

  lemma NumberBytes(bytes: seq<byte>, n: nat)
    requires n < 256 && (|bytes| == 2 || |bytes| == 4)
    ensures P.FromLittleEndian(bytes) == n <==> bytes == if |bytes| == 2 then [n, 0] else [n, 0, 0, 0]
  {
    Digits(n);
    P.LittleEndianInverts(bytes);
    Pow2Values();
    P.FromLittleEndianInverts(n, |bytes|);
    hide P.LittleEndian, P.FromLittleEndian, Pow2;
  }

  /** The fixed fields of a header, as bytes. */
  lemma FixedBytes(file: seq<byte>, magic: seq<byte>, version: byte)
    requires |file| >= 32 && |magic| == 8
    ensures
      var h := Unpack(file[..32]);
      && h.manifestCompressed == P.FromLittleEndian(file[16..20])
      && h.manifestRaw == P.FromLittleEndian(file[20..24]) && h.total == P.FromLittleEndian(file[24..28])
      && (h.reserved == 0 <==> file[28..32] == [0, 0, 0, 0])
      && (h.magic == magic && h.headerBytes == 32 && h.version == version && h.compression == 1 <==>
            file[..8] == magic && file[8..16] == [32, 0, version, 0, 1, 0, 0, 0])
  {
    HeaderPlaces(file[..32]);
    var b := file[..32];
    assert b[..8] == file[..8] && b[8..10] == file[8..10] && b[10..12] == file[10..12] && b[12..16] == file[12..16];
    assert b[16..20] == file[16..20] && b[20..24] == file[20..24] && b[24..28] == file[24..28];
    assert b[28..32] == file[28..32];
    NumberBytes(file[8..10], 32);
    NumberBytes(file[10..12], version);
    NumberBytes(file[12..16], 1);
    NumberBytes(file[28..32], 0);
    hide Unpack, P.FromLittleEndian;
    SplitEight(file[8..16], version);
    assert file[8..16][..2] == file[8..10] && file[8..16][2..4] == file[10..12] && file[8..16][4..] == file[12..16];
  }

  lemma SplitEight(bytes: seq<byte>, version: byte)
    requires |bytes| == 8
    ensures bytes == [32, 0, version, 0, 1, 0, 0, 0] <==>
      bytes[..2] == [32, 0] && bytes[2..4] == [version, 0] && bytes[4..] == [1, 0, 0, 0]
  {
    assert bytes == bytes[..2] + (bytes[2..4] + bytes[4..]);
  }

  lemma ManifestAgrees(env: Environment, file: seq<byte>, m: Manifest)
    requires m.container == 1
    ensures ManifestIn(env, file) == Some(m) <==>
      && Opens(env, file, m)
      && 0 < P.FromLittleEndian(file[16..20]) <= 16_777_216 && 0 < P.FromLittleEndian(file[20..24]) <= 67_108_864
      && m.contractTicks == m.tickCount
  {
    if |file| >= 32 {
      FixedBytes(file, MAGIC, 1);
    }
    hide Unpack, P.FromLittleEndian;
  }

  // ----- the verdict -----

  lemma EntriesAgree(env: Environment, rules: Rules, file: seq<byte>, start: nat, entries: seq<Entry>, count: nat)
    ensures
      && EntriesHold(env, rules, file, start, entries, |entries|)
      && TicksBefore(entries, |entries|) == count && start + BytesBefore(entries, |entries|) == |file|
      <==>
      && Numbered(entries, count) && Laid(file, start, entries)
      && forall k :: 0 <= k < |entries| ==> HashedAt(env, rules, file, start, entries[k])
  {
    NumbersAgree(entries, count);
    PlacesAgree(file, start, entries);
    hide EntryHolds, HashedAt, Numbered, Laid, TicksBefore;
    if start + BytesBefore(entries, |entries|) == |file|
      && forall i :: 0 <= i < |entries| ==> entries[i].offset == BytesBefore(entries, i)
    {
      forall k | 0 <= k < |entries|
        ensures EntryHolds(env, rules, file, start, entries[k]) <==> HashedAt(env, rules, file, start, entries[k])
      {
        BeforeGrows(entries, k + 1, |entries|);
        HashesAgree(env, rules, file, start, entries[k]);
      }
    }
  }

  /** A container of the first version is accepted exactly when it is sound. */
  lemma AcceptedExactly(env: Environment, rules: Rules, file: seq<byte>, m: Manifest)
    requires m.container == 1
    ensures Accepted(env, rules, file, m) <==> Sound(env, rules, file, m)
  {
    ManifestAgrees(env, file, m);
    RawSumIs(m.chunks);
    if |file| >= 32 {
      FixedBytes(file, MAGIC, 1);
      EntriesAgree(env, rules, file, ManifestEnd(file), m.chunks, m.tickCount);
    }
    hide Unpack, P.FromLittleEndian, EntriesHold, TicksBefore, BytesBefore, RawBefore, RawSum, Numbered, Laid, HashedAt,
      ManifestIn;
  }

  /** Only containers of the first two versions are accepted: the first by the test above, and the second,
      with its own letters and version, by the test of its poses. */
  lemma AcceptedVersions(env: Environment, rules: Rules, file: seq<byte>, m: Manifest)
    requires Accepted(env, rules, file, m)
    ensures m.container == 1 || m.container == 2
    ensures m.container == 2 ==>
      && |file| >= 32 && file[..8] == [0x48, 0x53, 0x52, 0x44, 0x43, 0x30, 0x30, 0x32]
      && file[8..16] == [32, 0, 2, 0, 1, 0, 0, 0] && env.poseVerified(file, m)
  {
    AcceptedHead(env, rules, file, m);
    FixedBytes(file, POSE_MAGIC, 2);
    hide Unpack, Accepted;
  }

  lemma AcceptedHead(env: Environment, rules: Rules, file: seq<byte>, m: Manifest)
    requires Accepted(env, rules, file, m)
    ensures |file| >= 32 && (m.container == 2 ==> env.poseVerified(file, m))
    ensures
      var h := Unpack(file[..32]);
      && h.version == m.container && h.headerBytes == 32 && h.compression == 1
      && ((h.version == 1 && h.magic == MAGIC) || (h.version == 2 && h.magic == POSE_MAGIC))
  {
    hide Unpack, EntriesHold, TicksBefore, BytesBefore, RawBefore;
  }
}
