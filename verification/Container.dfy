/** The container file: assembled from parts, and validated from its bytes alone. */
module Container {
  import opened Base
  import opened Values
  import opened Delta
  import opened Decode
  import opened ChunkRoundTrip
  import opened ViewerParts
  import P = Packing

  // ----- the header -----

  const HEADER_BYTES: nat := 32
  const MAGIC: seq<byte> := [0x48, 0x53, 0x52, 0x44, 0x43, 0x30, 0x30, 0x31]
  const POSE_MAGIC: seq<byte> := [0x48, 0x53, 0x52, 0x44, 0x43, 0x30, 0x30, 0x32]

  datatype Header = Header(magic: seq<byte>, headerBytes: nat, version: nat, compression: nat,
                           manifestCompressed: nat, manifestRaw: nat, total: nat, reserved: nat)

  predicate Packable(h: Header) {
    && |h.magic| == 8 && h.headerBytes < Pow2(16) && h.version < Pow2(16) && h.compression < Pow2(32)
    && h.manifestCompressed < Pow2(32) && h.manifestRaw < Pow2(32) && h.total < Pow2(32) && h.reserved < Pow2(32)
  }

  function Pack(h: Header): (bytes: seq<byte>)
    requires |h.magic| == 8
    ensures |bytes| == HEADER_BYTES
  {
    h.magic + (P.LittleEndian(h.headerBytes, 2) + (P.LittleEndian(h.version, 2) + (P.LittleEndian(h.compression, 4)
    + (P.LittleEndian(h.manifestCompressed, 4)
       + (P.LittleEndian(h.manifestRaw, 4) + (P.LittleEndian(h.total, 4) + P.LittleEndian(h.reserved, 4)))))))
  }

  function Unpack(bytes: seq<byte>): Header
    requires |bytes| == HEADER_BYTES
  {
    var b1 := bytes[8..];
    var b2 := b1[2..];
    var b3 := b2[2..];
    var b4 := b3[4..];
    var b5 := b4[4..];
    var b6 := b5[4..];
    Header(bytes[..8], P.FromLittleEndian(b1[..2]), P.FromLittleEndian(b2[..2]), P.FromLittleEndian(b3[..4]),
           P.FromLittleEndian(b4[..4]), P.FromLittleEndian(b5[..4]), P.FromLittleEndian(b6[..4]),
             P.FromLittleEndian(b6[4..]))
  }

  lemma Chop(a: seq<byte>, b: seq<byte>, n: nat)
    requires |a| == n
    ensures (a + b)[..n] == a && (a + b)[n..] == b
  {
  }

  lemma HeaderRoundTrip(h: Header)
    requires Packable(h)
    ensures Unpack(Pack(h)) == h
  {
    P.FromLittleEndianInverts(h.headerBytes, 2);
    P.FromLittleEndianInverts(h.version, 2);
    P.FromLittleEndianInverts(h.compression, 4);
    P.FromLittleEndianInverts(h.manifestCompressed, 4);
    P.FromLittleEndianInverts(h.manifestRaw, 4);
    P.FromLittleEndianInverts(h.total, 4);
    P.FromLittleEndianInverts(h.reserved, 4);
    hide P.LittleEndian, P.FromLittleEndian;
    var b6 := P.LittleEndian(h.total, 4) + P.LittleEndian(h.reserved, 4);
    var b5 := P.LittleEndian(h.manifestRaw, 4) + b6;
    var b4 := P.LittleEndian(h.manifestCompressed, 4) + b5;
    var b3 := P.LittleEndian(h.compression, 4) + b4;
    var b2 := P.LittleEndian(h.version, 2) + b3;
    var b1 := P.LittleEndian(h.headerBytes, 2) + b2;
    Chop(h.magic, b1, 8);
    Chop(P.LittleEndian(h.headerBytes, 2), b2, 2);
    Chop(P.LittleEndian(h.version, 2), b3, 2);
    Chop(P.LittleEndian(h.compression, 4), b4, 4);
    Chop(P.LittleEndian(h.manifestCompressed, 4), b5, 4);
    Chop(P.LittleEndian(h.manifestRaw, 4), b6, 4);
    Chop(P.LittleEndian(h.total, 4), P.LittleEndian(h.reserved, 4), 4);
  }

  // ----- manifests and the environment -----

  datatype Entry = Entry(index: nat, offset: nat, firstTick: nat, tickCount: nat, rawBytes: nat,
                         compressedBytes: nat, compressedHash: string, tickHash: string)

  /** The manifest, with the container version and the tick count of its source contract. */
  datatype Manifest = Manifest(container: nat, contractTicks: nat, replayId: string, recordedAt: string,
                               tickCount: nat, chunks: seq<Entry>, replay: Value)

  /** Compression, digests, JSON text and the contract schemas: deterministic, and otherwise unknown.
      `parse` gives the manifests that are JSON, name a known contract and meet its schemas. */
  datatype Environment = Environment(
    compress: seq<byte> -> seq<byte>,
    decompress: (seq<byte>, nat) -> Option<seq<byte>>,
    digest: seq<byte> -> string,
    tickDigest: seq<Value> -> string,
    render: Manifest -> seq<byte>,
    parse: seq<byte> -> Option<Manifest>,
    manifestAdmitted: Manifest -> bool,
    tickAdmitted: Value -> bool,
    poseVerified: (seq<byte>, Manifest) -> bool)

  const ARTIFACT_MAX: nat := 512 * 1024 * 1024
  const UNCOMPRESSED_MAX: nat := 8 * 1024 * 1024 * 1024
  const MANIFEST_RAW_MAX: nat := 64 * 1024 * 1024
  const MANIFEST_COMPRESSED_MAX: nat := 16 * 1024 * 1024
  const WORD_MAX: nat := 0xFFFF_FFFF

  // ----- assembling -----

  /** A part decodes to what it says, and survives compression. */
  predicate PartChecks(env: Environment, rules: Rules, part: ChunkPart) {
    var decoded := DecodeChunk(rules, part.raw);
    && |part.raw| == part.rawBytes
    && decoded.Ok? && decoded.value.0 == part.firstTick && |decoded.value.1| == part.tickCount
    && env.decompress(env.compress(part.raw), |part.raw|) == Some(part.raw)
  }

  predicate PartsCheck(env: Environment, rules: Rules, parts: seq<ChunkPart>, n: nat)
    requires n <= |parts|
  {
    forall i :: 0 <= i < n ==> PartChecks(env, rules, parts[i])
  }

  function TicksOf(rules: Rules, raw: seq<byte>): seq<Value> {
    var decoded := DecodeChunk(rules, raw);
    if decoded.Ok? then decoded.value.1 else []
  }

  /** The compressed blocks of the first n parts, one after another. */
  function Payload(env: Environment, parts: seq<ChunkPart>, n: nat): seq<byte>
    requires n <= |parts|
  {
    if n == 0 then [] else Payload(env, parts, n - 1) + env.compress(parts[n - 1].raw)
  }

  function RawTotal(parts: seq<ChunkPart>, n: nat): nat
    requires n <= |parts|
  {
    if n == 0 then 0 else RawTotal(parts, n - 1) + |parts[n - 1].raw|
  }

  function EntryOf(env: Environment, rules: Rules, part: ChunkPart, offset: nat): Entry {
    var block := env.compress(part.raw);
    Entry(part.index, offset, part.firstTick, part.tickCount, |part.raw|, |block|, env.digest(block),
          env.tickDigest(TicksOf(rules, part.raw)))
  }

  /** The entries of the first n parts, at the offsets of their blocks. */
  function Entries(env: Environment, rules: Rules, parts: seq<ChunkPart>, n: nat): (entries: seq<Entry>)
    requires n <= |parts|
    ensures |entries| == n
  {
    seq(n, i requires 0 <= i < n => EntryOf(env, rules, parts[i], |Payload(env, parts, i)|))
  }

  function ManifestOf(env: Environment, rules: Rules, parts: Parts, replayId: string, recordedAt: string): Manifest {
    Manifest(1, parts.tickCount, replayId, recordedAt, parts.tickCount,
             Entries(env, rules, parts.chunks, |parts.chunks|), parts.replay)
  }

  function FileOf(env: Environment, parts: Parts, m: Manifest): (bytes: seq<byte>)
    ensures |bytes| == HEADER_BYTES + |env.compress(env.render(m))| + |Payload(env, parts.chunks, |parts.chunks|)|
  {
    var block, payload := env.compress(env.render(m)), Payload(env, parts.chunks, |parts.chunks|);
    Pack(Header(MAGIC, HEADER_BYTES, 1, 1, |block|, |env.render(m)|, HEADER_BYTES + |block| + |payload|, 0))
      + (block + payload)
  }

  predicate SizesFit(env: Environment, parts: Parts, m: Manifest) {
    && |FileOf(env, parts, m)| <= ARTIFACT_MAX
    && HEADER_BYTES + |env.render(m)| + RawTotal(parts.chunks, |parts.chunks|) <= UNCOMPRESSED_MAX
    && |env.render(m)| <= WORD_MAX
  }

  /** What the assembler checks, all in all. */
  predicate Assembles(env: Environment, rules: Rules, parts: Parts, replayId: string, recordedAt: string) {
    var m := ManifestOf(env, rules, parts, replayId, recordedAt);
    && replayId != "" && recordedAt != "" && parts.revision !in {4, 5}
    && PartsCheck(env, rules, parts.chunks, |parts.chunks|)
    && env.manifestAdmitted(m)
    && env.decompress(env.compress(env.render(m)), |env.render(m)|) == Some(env.render(m))
    && SizesFit(env, parts, m)
  }

  lemma PayloadNone(env: Environment, rules: Rules, parts: seq<ChunkPart>)
    ensures Payload(env, parts, 0) == [] && RawTotal(parts, 0) == 0 && Entries(env, rules, parts, 0) == []
    ensures PartsCheck(env, rules, parts, 0)
  {
  }

  lemma PayloadStep(env: Environment, parts: seq<ChunkPart>, n: nat)
    requires n < |parts|
    ensures Payload(env, parts, n + 1) == Payload(env, parts, n) + env.compress(parts[n].raw)
    ensures RawTotal(parts, n + 1) == RawTotal(parts, n) + |parts[n].raw|
  {
  }

  lemma EntriesStep(env: Environment, rules: Rules, parts: seq<ChunkPart>, n: nat)
    requires n < |parts|
    ensures Entries(env, rules, parts, n + 1)
      == Entries(env, rules, parts, n) + [EntryOf(env, rules, parts[n], |Payload(env, parts, n)|)]
  {
    hide EntryOf, Payload;
  }

  lemma PartsCheckStep(env: Environment, rules: Rules, parts: seq<ChunkPart>, n: nat)
    requires n < |parts| && PartsCheck(env, rules, parts, n)
    ensures PartChecks(env, rules, parts[n]) ==> PartsCheck(env, rules, parts, n + 1)
    ensures !PartChecks(env, rules, parts[n]) ==> !PartsCheck(env, rules, parts, |parts|)
  {
    hide PartChecks;
  }

  method AssembleChunk(env: Environment, rules: Rules, part: ChunkPart, offset: nat)
    returns (ok: bool, entry: Entry, block: seq<byte>)
    ensures ok <==> PartChecks(env, rules, part)
    ensures ok ==> entry == EntryOf(env, rules, part, offset) && block == env.compress(part.raw)
  {
    hide DecodeChunk;
    ok, entry, block := false, Entry(0, 0, 0, 0, 0, 0, "", ""), [];
    if |part.raw| != part.rawBytes {
      return;
    }
    var decoded := DecodeChunk(rules, part.raw);
    if decoded.Err? || decoded.value.0 != part.firstTick || |decoded.value.1| != part.tickCount {
      return;
    }
    block := env.compress(part.raw);
    if env.decompress(block, |part.raw|) != Some(part.raw) {
      return;
    }
    entry := Entry(part.index, offset, part.firstTick, part.tickCount, |part.raw|, |block|, env.digest(block),
                   env.tickDigest(decoded.value.1));
    ok := true;
  }

  /** Checks and compresses every part. */
  method AssembleChunks(env: Environment, rules: Rules, parts: seq<ChunkPart>)
    returns (ok: bool, entries: seq<Entry>, blocks: seq<byte>, rawBytes: nat)
    ensures ok ==>
      && entries == Entries(env, rules, parts, |parts|)
      && blocks == Payload(env, parts, |parts|)
      && rawBytes == RawTotal(parts, |parts|)
    ensures ok <==> PartsCheck(env, rules, parts, |parts|)
  {
    entries, blocks, rawBytes, ok := [], [], 0, false;
    PayloadNone(env, rules, parts);
    hide *;
    for i := 0 to |parts|
      invariant blocks == Payload(env, parts, i) && rawBytes == RawTotal(parts, i) && !ok
      invariant entries == Entries(env, rules, parts, i)
      invariant PartsCheck(env, rules, parts, i)
    {
      PartsCheckStep(env, rules, parts, i);
      PayloadStep(env, parts, i);
      EntriesStep(env, rules, parts, i);
      var checked, entry, block := AssembleChunk(env, rules, parts[i], |blocks|);
      if !checked {
        return;
      }
      rawBytes := rawBytes + |parts[i].raw|;
      entries := entries + [entry];
      blocks := blocks + block;
    }
    ok := true;
  }

  method Assemble(env: Environment, rules: Rules, parts: Parts, replayId: string, recordedAt: string)
    returns (file: Option<seq<byte>>)
    ensures file.Some? <==> Assembles(env, rules, parts, replayId, recordedAt)
    ensures file.Some? ==> file.value == FileOf(env, parts, ManifestOf(env, rules, parts, replayId, recordedAt))
  {
    hide PartsCheck, Entries, Payload, RawTotal, Pack, Pow2;
    if replayId == "" || recordedAt == "" || parts.revision in {4, 5} {
      return None;
    }
    var ok, entries, blocks, rawBytes := AssembleChunks(env, rules, parts.chunks);
    if !ok {
      return None;
    }
    var m := Manifest(1, parts.tickCount, replayId, recordedAt, parts.tickCount, entries, parts.replay);
    if !env.manifestAdmitted(m) {
      return None;
    }
    var text := env.render(m);
    var manifest := env.compress(text);
    if env.decompress(manifest, |text|) != Some(text) {
      return None;
    }
    var total := HEADER_BYTES + |manifest| + |blocks|;
    if total > ARTIFACT_MAX || HEADER_BYTES + |text| + rawBytes > UNCOMPRESSED_MAX || |manifest| > WORD_MAX
      || |text| > WORD_MAX || total > WORD_MAX {
      return None;
    }
    return Some(Pack(Header(MAGIC, HEADER_BYTES, 1, 1, |manifest|, |text|, total, 0)) + (manifest + blocks));
  }

  // ----- validating -----

  /** value[start:end], which never raises. */
  function Slice(value: seq<byte>, start: nat, length: nat): seq<byte> {
    if start >= |value| then []
    else if start + length >= |value| then value[start..]
    else value[start..start + length]
  }

  function TicksBefore(entries: seq<Entry>, i: nat): nat
    requires i <= |entries|
  {
    if i == 0 then 0 else TicksBefore(entries, i - 1) + entries[i - 1].tickCount
  }

  function BytesBefore(entries: seq<Entry>, i: nat): nat
    requires i <= |entries|
  {
    if i == 0 then 0 else BytesBefore(entries, i - 1) + entries[i - 1].compressedBytes
  }

  function RawBefore(entries: seq<Entry>, i: nat): nat
    requires i <= |entries|
  {
    if i == 0 then 0 else RawBefore(entries, i - 1) + entries[i - 1].rawBytes
  }

  predicate HeaderSound(h: Header, total: nat) {
    && (h.magic, h.version) in {(MAGIC, 1), (POSE_MAGIC, 2)}
    && h.headerBytes == HEADER_BYTES && h.compression == 1 && h.reserved == 0 && h.total == total
    && 0 < h.manifestRaw <= MANIFEST_RAW_MAX
    && 0 < h.manifestCompressed <= MANIFEST_COMPRESSED_MAX && HEADER_BYTES + h.manifestCompressed <= total
  }

  /** The manifest of a file whose header and manifest block are sound. */
  function ManifestIn(env: Environment, value: seq<byte>): Option<Manifest> {
    if |value| > ARTIFACT_MAX || |value| < HEADER_BYTES then None
    else
      var h := Unpack(value[..HEADER_BYTES]);
      if !HeaderSound(h, |value|) then None
      else
        match env.decompress(value[HEADER_BYTES..HEADER_BYTES + h.manifestCompressed], h.manifestRaw)
        case None => None
        case Some(text) =>
          if |text| != h.manifestRaw || env.parse(text).None? then None
          else if env.parse(text).value.container != h.version
            || env.parse(text).value.contractTicks != env.parse(text).value.tickCount then None
          else env.parse(text)
  }

  function ManifestEnd(value: seq<byte>): nat
    requires |value| >= HEADER_BYTES
  {
    HEADER_BYTES + Unpack(value[..HEADER_BYTES]).manifestCompressed
  }

  function BlockOf(value: seq<byte>, start: nat, e: Entry): seq<byte> {
    Slice(value, start + e.offset, e.compressedBytes)
  }

  /** The chunk an entry describes, as the file gives it. */
  function ChunkIn(env: Environment, value: seq<byte>, start: nat, e: Entry): Option<seq<byte>> {
    env.decompress(BlockOf(value, start, e), e.rawBytes)
  }

  predicate EntryHolds(env: Environment, rules: Rules, value: seq<byte>, start: nat, e: Entry) {
    && env.digest(BlockOf(value, start, e)) == e.compressedHash
    && ChunkIn(env, value, start, e).Some?
    && var raw := ChunkIn(env, value, start, e).value;
    && |raw| == e.rawBytes
    && DecodeChunk(rules, raw).Ok?
    && var (first, ticks) := DecodeChunk(rules, raw).value;
    && first == e.firstTick && |ticks| == e.tickCount && env.tickDigest(ticks) == e.tickHash
    && forall j :: 0 <= j < |ticks| ==> env.tickAdmitted(ticks[j])
  }

  predicate EntryPlaced(entries: seq<Entry>, i: nat)
    requires i < |entries|
  {
    entries[i].index == i && entries[i].offset == BytesBefore(entries, i)
      && entries[i].firstTick == TicksBefore(entries, i)
  }

  /** The first n entries are in their places and hold. */
  predicate EntriesHold(env: Environment, rules: Rules, value: seq<byte>, start: nat, entries: seq<Entry>, n: nat)
    requires n <= |entries|
  {
    forall i :: 0 <= i < n ==> EntryPlaced(entries, i) && EntryHolds(env, rules, value, start, entries[i])
  }

  /** The file is a valid container with manifest m. */
  predicate Accepted(env: Environment, rules: Rules, value: seq<byte>, m: Manifest) {
    && ManifestIn(env, value) == Some(m)
    && if m.container == 2 then env.poseVerified(value, m)
       else
         && EntriesHold(env, rules, value, ManifestEnd(value), m.chunks, |m.chunks|)
         && TicksBefore(m.chunks, |m.chunks|) == m.tickCount
         && ManifestEnd(value) + BytesBefore(m.chunks, |m.chunks|) == |value|
         && HEADER_BYTES + Unpack(value[..HEADER_BYTES]).manifestRaw
              + RawBefore(m.chunks, |m.chunks|) <= UNCOMPRESSED_MAX
  }

  /** The entry at its place, and its chunk. */
  method ValidateEntry(env: Environment, rules: Rules, value: seq<byte>, start: nat, entries: seq<Entry>, i: nat,
                       before: Totals) returns (ok: bool)
    requires i < |entries| && before == TotalsBefore(entries, i)
    ensures ok <==> EntryPlaced(entries, i) && EntryHolds(env, rules, value, start, entries[i])
  {
    hide DecodeChunk, Slice, BytesBefore, TicksBefore;
    var e := entries[i];
    if e.index != i || e.offset != before.bytes || e.firstTick != before.ticks {
      return false;
    }
    var block := Slice(value, start + e.offset, e.compressedBytes);
    if env.digest(block) != e.compressedHash {
      return false;
    }
    var raw := env.decompress(block, e.rawBytes);
    if raw.None? {
      return false;
    }
    var decoded := DecodeChunk(rules, raw.value);
    if decoded.Err? || |raw.value| != e.rawBytes || decoded.value.0 != e.firstTick || |decoded.value.1| != e.tickCount {
      return false;
    }
    if env.tickDigest(decoded.value.1) != e.tickHash {
      return false;
    }
    return forall j :: 0 <= j < |decoded.value.1| ==> env.tickAdmitted(decoded.value.1[j]);
  }

  /** Ticks, block bytes and raw bytes counted so far. */
  datatype Totals = Totals(ticks: nat, bytes: nat, raws: nat)

  function TotalsBefore(entries: seq<Entry>, i: nat): Totals
    requires i <= |entries|
  {
    Totals(TicksBefore(entries, i), BytesBefore(entries, i), RawBefore(entries, i))
  }

  lemma TotalsNone(entries: seq<Entry>)
    ensures TotalsBefore(entries, 0) == Totals(0, 0, 0)
  {
  }

  lemma TotalsStep(entries: seq<Entry>, i: nat)
    requires i < |entries|
    ensures
      var t, e := TotalsBefore(entries, i), entries[i];
      && TotalsBefore(entries, i + 1) == Totals(t.ticks + e.tickCount, t.bytes + e.compressedBytes, t.raws + e.rawBytes)
  {
  }

  lemma EntriesHoldNone(env: Environment, rules: Rules, value: seq<byte>, start: nat, entries: seq<Entry>)
    ensures EntriesHold(env, rules, value, start, entries, 0)
  {
  }

  lemma EntriesHoldStep(env: Environment, rules: Rules, value: seq<byte>, start: nat, entries: seq<Entry>, n: nat)
    requires n < |entries| && EntriesHold(env, rules, value, start, entries, n)
    ensures
      var holds := EntryPlaced(entries, n) && EntryHolds(env, rules, value, start, entries[n]);
      && (holds ==> EntriesHold(env, rules, value, start, entries, n + 1))
      && (!holds ==> !EntriesHold(env, rules, value, start, entries, |entries|))
  {
    hide EntryPlaced, EntryHolds;
  }

  method ValidateEntries(env: Environment, rules: Rules, value: seq<byte>, start: nat, entries: seq<Entry>)
    returns (totals: Option<Totals>)
    ensures totals == if EntriesHold(env, rules, value, start, entries, |entries|)
      then Some(TotalsBefore(entries, |entries|)) else None
  {
    hide *;
    TotalsNone(entries);
    EntriesHoldNone(env, rules, value, start, entries);
    var t := Totals(0, 0, 0);
    for i := 0 to |entries|
      invariant t == TotalsBefore(entries, i) && EntriesHold(env, rules, value, start, entries, i)
    {
      TotalsStep(entries, i);
      EntriesHoldStep(env, rules, value, start, entries, i);
      var holds := ValidateEntry(env, rules, value, start, entries, i, t);
      if !holds {
        return None;
      }
      t := Totals(t.ticks + entries[i].tickCount, t.bytes + entries[i].compressedBytes, t.raws + entries[i].rawBytes);
    }
    return Some(t);
  }

  /** A file has at most one manifest, which is what validation returns. */
  method Validate(env: Environment, rules: Rules, value: seq<byte>) returns (manifest: Option<Manifest>)
    ensures manifest.Some? ==> Accepted(env, rules, value, manifest.value)
    ensures manifest.None? ==> forall m :: !Accepted(env, rules, value, m)
  {
    manifest := ManifestIn(env, value);
    if manifest.None? {
      return;
    }
    var m := manifest.value;
    assert HEADER_BYTES <= |value| <= ARTIFACT_MAX;
    hide ManifestIn, Unpack, EntriesHold, TicksBefore, BytesBefore, RawBefore;
    if m.container == 2 {
      if !env.poseVerified(value, m) {
        return None;
      }
      return;
    }
    var totals := ValidateEntries(env, rules, value, ManifestEnd(value), m.chunks);
    if totals.None? {
      return None;
    }
    var t := totals.value;
    var uncompressed := HEADER_BYTES + Unpack(value[..HEADER_BYTES]).manifestRaw + t.raws;
    if t.ticks != m.tickCount || ManifestEnd(value) + t.bytes != |value| || uncompressed > UNCOMPRESSED_MAX {
      return None;
    }
  }

  // ----- what an accepted file holds -----

  /** The ticks of the first n chunks of a file. */
  function Contents(env: Environment, rules: Rules, value: seq<byte>, m: Manifest, n: nat): seq<Value>
    requires |value| >= HEADER_BYTES && n <= |m.chunks|
  {
    if n == 0 then []
    else
      var raw := ChunkIn(env, value, ManifestEnd(value), m.chunks[n - 1]);
      Contents(env, rules, value, m, n - 1) + (if raw.Some? then TicksOf(rules, raw.value) else [])
  }

  /** The blocks of the first n chunks of a file. */
  function Blocks(value: seq<byte>, start: nat, entries: seq<Entry>, n: nat): seq<byte>
    requires n <= |entries|
  {
    if n == 0 then [] else Blocks(value, start, entries, n - 1) + BlockOf(value, start, entries[n - 1])
  }

  lemma {:induction false} BeforeGrows(entries: seq<Entry>, i: nat, n: nat)
    requires i <= n <= |entries|
    ensures TicksBefore(entries, i) <= TicksBefore(entries, n) && BytesBefore(entries, i) <= BytesBefore(entries, n)
    decreases n
  {
    if i < n {
      BeforeGrows(entries, i, n - 1);
    }
  }

  lemma BlocksNone(value: seq<byte>, start: nat, entries: seq<Entry>)
    ensures BytesBefore(entries, 0) == 0 && Blocks(value, start, entries, 0) == []
  {
  }

  lemma BlocksStep(value: seq<byte>, start: nat, entries: seq<Entry>, n: nat)
    requires n < |entries|
    ensures Blocks(value, start, entries, n + 1) == Blocks(value, start, entries, n) + BlockOf(value, start, entries[n])
  {
  }

  /** The blocks tile the file after the manifest: no gap, no overlap. */
  lemma {:induction false} BlocksTile(value: seq<byte>, start: nat, entries: seq<Entry>, n: nat)
    requires n <= |entries| && start + BytesBefore(entries, |entries|) == |value|
    requires forall i :: 0 <= i < |entries| ==> EntryPlaced(entries, i)
    ensures start + BytesBefore(entries, n) <= |value|
    ensures Blocks(value, start, entries, n) == value[start..start + BytesBefore(entries, n)]
  {
    BlocksNone(value, start, entries);
    hide *;
    BeforeGrows(entries, n, |entries|);
    if n > 0 {
      BlocksStep(value, start, entries, n - 1);
      BlocksTile(value, start, entries, n - 1);
      BlockTiles(value, start, entries, n - 1);
    }
  }

  lemma BlockTiles(value: seq<byte>, start: nat, entries: seq<Entry>, i: nat)
    requires i < |entries| && EntryPlaced(entries, i) && start + BytesBefore(entries, i + 1) <= |value|
    ensures value[start..start + BytesBefore(entries, i)] + BlockOf(value, start, entries[i])
      == value[start..start + BytesBefore(entries, i + 1)]
  {
    var offset, size := BytesBefore(entries, i), entries[i].compressedBytes;
    assert BytesBefore(entries, i + 1) == offset + size && entries[i].offset == offset;
    hide BytesBefore, EntryPlaced;
    SliceWithin(value, start + offset, size);
    assert value[start..start + offset] + value[start + offset..start + offset + size]
      == value[start..start + offset + size];
  }

  lemma SliceWithin(value: seq<byte>, start: nat, length: nat)
    requires start + length <= |value|
    ensures Slice(value, start, length) == value[start..start + length]
  {
  }

  lemma EntryTicks(env: Environment, rules: Rules, value: seq<byte>, start: nat, e: Entry)
    requires EntryHolds(env, rules, value, start, e)
    ensures ChunkIn(env, value, start, e).Some? && |TicksOf(rules, ChunkIn(env, value, start, e).value)| == e.tickCount
  {
    hide DecodeChunk, ChunkIn, BlockOf;
  }

  /** The chunks hold the ticks in order, each where its entry says. */
  lemma {:induction false} ContentsTile(env: Environment, rules: Rules, value: seq<byte>, m: Manifest, n: nat)
    requires |value| >= HEADER_BYTES && n <= |m.chunks|
    requires forall i :: 0 <= i < |m.chunks| ==> EntryHolds(env, rules, value, ManifestEnd(value), m.chunks[i])
    ensures |Contents(env, rules, value, m, n)| == TicksBefore(m.chunks, n)
  {
    hide EntryHolds, ManifestEnd, ChunkIn, TicksOf;
    if n > 0 {
      ContentsTile(env, rules, value, m, n - 1);
      EntryTicks(env, rules, value, ManifestEnd(value), m.chunks[n - 1]);
    }
  }

  lemma PlacedTick(entries: seq<Entry>, i: nat)
    requires i < |entries| && EntryPlaced(entries, i)
    ensures entries[i].firstTick == TicksBefore(entries, i)
    ensures TicksBefore(entries, i + 1) == TicksBefore(entries, i) + entries[i].tickCount
  {
  }

  lemma AcceptedParts(env: Environment, rules: Rules, value: seq<byte>, m: Manifest)
    requires Accepted(env, rules, value, m) && m.container != 2
    ensures |value| >= HEADER_BYTES
    ensures HEADER_BYTES <= ManifestEnd(value) <= |value|
    ensures forall i :: 0 <= i < |m.chunks| ==>
      EntryPlaced(m.chunks, i) && EntryHolds(env, rules, value, ManifestEnd(value), m.chunks[i])
    ensures TicksBefore(m.chunks, |m.chunks|) == m.tickCount
    ensures ManifestEnd(value) + BytesBefore(m.chunks, |m.chunks|) == |value|
  {
    hide EntryPlaced, EntryHolds, TicksBefore, BytesBefore, RawBefore, Unpack;
  }

  /** Header, manifest and blocks are the whole of an accepted file, and its chunks hold
      exactly the announced ticks: nothing before, between or after. */
  lemma AcceptedTiles(env: Environment, rules: Rules, value: seq<byte>, m: Manifest)
    requires Accepted(env, rules, value, m) && m.container != 2
    ensures HEADER_BYTES <= ManifestEnd(value) <= |value|
    ensures value == value[..HEADER_BYTES] + value[HEADER_BYTES..ManifestEnd(value)]
      + Blocks(value, ManifestEnd(value), m.chunks, |m.chunks|)
    ensures |Contents(env, rules, value, m, |m.chunks|)| == m.tickCount
    ensures forall i :: 0 <= i < |m.chunks| ==>
      && m.chunks[i].firstTick == |Contents(env, rules, value, m, i)|
      && m.chunks[i].tickCount == |Contents(env, rules, value, m, i + 1)| - |Contents(env, rules, value, m, i)|
  {
    hide *;
    AcceptedParts(env, rules, value, m);
    BlocksTile(value, ManifestEnd(value), m.chunks, |m.chunks|);
    ContentsTile(env, rules, value, m, |m.chunks|);
    forall i | 0 <= i < |m.chunks|
      ensures m.chunks[i].firstTick == |Contents(env, rules, value, m, i)|
      ensures m.chunks[i].tickCount == |Contents(env, rules, value, m, i + 1)| - |Contents(env, rules, value, m, i)|
    {
      PlacedTick(m.chunks, i);
      ContentsTile(env, rules, value, m, i);
      ContentsTile(env, rules, value, m, i + 1);
    }
  }

  // ----- an assembled file is accepted -----

  /** The limits the validator puts on the manifest alone. */
  predicate ManifestFits(env: Environment, m: Manifest) {
    0 < |env.render(m)| <= MANIFEST_RAW_MAX && 0 < |env.compress(env.render(m))| <= MANIFEST_COMPRESSED_MAX
  }

  lemma FileParts(env: Environment, parts: Parts, m: Manifest)
    requires SizesFit(env, parts, m)
    ensures
      var file, text, payload := FileOf(env, parts, m), env.render(m), Payload(env, parts.chunks, |parts.chunks|);
      var block := env.compress(text);
      && HEADER_BYTES + |block| + |payload| == |file| <= ARTIFACT_MAX
      && Unpack(file[..HEADER_BYTES]) == Header(MAGIC, HEADER_BYTES, 1, 1, |block|, |text|, |file|, 0)
      && file[HEADER_BYTES..HEADER_BYTES + |block|] == block && file[HEADER_BYTES + |block|..] == payload
      && ManifestEnd(file) == HEADER_BYTES + |block|
  {
    var file, text, payload := FileOf(env, parts, m), env.render(m), Payload(env, parts.chunks, |parts.chunks|);
    var block := env.compress(text);
    var h := Header(MAGIC, HEADER_BYTES, 1, 1, |block|, |text|, |file|, 0);
    Pow2Values();
    hide Pow2, Payload, Unpack, Pack, P.LittleEndian, P.FromLittleEndian;
    HeaderRoundTrip(h);
    Chop(Pack(h), block + payload, HEADER_BYTES);
    FilePayload(file, Pack(h), block, payload);
  }

  lemma FilePayload(file: seq<byte>, header: seq<byte>, block: seq<byte>, payload: seq<byte>)
    requires file == header + (block + payload)
    ensures file[|header|..|header| + |block|] == block && file[|header| + |block|..] == payload
  {
  }

  lemma ManifestRead(env: Environment, rules: Rules, parts: Parts, replayId: string, recordedAt: string)
    requires Assembles(env, rules, parts, replayId, recordedAt)
    requires
      var m := ManifestOf(env, rules, parts, replayId, recordedAt);
      env.parse(env.render(m)) == Some(m)
    ensures
      var m := ManifestOf(env, rules, parts, replayId, recordedAt);
      ManifestIn(env, FileOf(env, parts, m)) == if ManifestFits(env, m) then Some(m) else None
  {
    hide Entries, PartsCheck, Payload, Unpack, FileOf;
    FileParts(env, parts, ManifestOf(env, rules, parts, replayId, recordedAt));
  }

  /** A compressed block lies in the payload at its offset. */
  lemma {:induction false} PayloadBlock(env: Environment, parts: seq<ChunkPart>, i: nat, n: nat)
    requires i < n <= |parts|
    ensures
      var offset, block := |Payload(env, parts, i)|, env.compress(parts[i].raw);
      && offset + |block| <= |Payload(env, parts, n)|
      && Payload(env, parts, n)[offset..offset + |block|] == block
    decreases n
  {
    PayloadStep(env, parts, n - 1);
    hide Payload;
    var offset, block := |Payload(env, parts, i)|, env.compress(parts[i].raw);
    if i < n - 1 {
      PayloadBlock(env, parts, i, n - 1);
      Within(Payload(env, parts, n - 1), env.compress(parts[n - 1].raw), offset, offset + |block|);
    } else {
      Chop(Payload(env, parts, i), block, offset);
    }
  }

  lemma Within(a: seq<byte>, b: seq<byte>, i: nat, j: nat)
    requires i <= j <= |a|
    ensures (a + b)[i..j] == a[i..j]
  {
  }

  lemma SliceInTail(file: seq<byte>, start: nat, tail: seq<byte>, offset: nat, size: nat)
    requires start <= |file| && file[start..] == tail && offset + size <= |tail|
    ensures Slice(file, start + offset, size) == tail[offset..offset + size]
  {
    SliceWithin(file, start + offset, size);
    assert file[start..][offset..offset + size] == file[start + offset..start + offset + size];
  }

  lemma BlockRead(env: Environment, rules: Rules, parts: Parts, m: Manifest, i: nat)
    requires SizesFit(env, parts, m) && i < |parts.chunks|
    ensures
      var file, e := FileOf(env, parts, m), EntryOf(env, rules, parts.chunks[i], |Payload(env, parts.chunks, i)|);
      BlockOf(file, ManifestEnd(file), e) == env.compress(parts.chunks[i].raw)
  {
    hide SizesFit, Payload, FileOf, ManifestEnd, Slice, DecodeChunk;
    FileParts(env, parts, m);
    PayloadBlock(env, parts.chunks, i, |parts.chunks|);
    var file := FileOf(env, parts, m);
    SliceInTail(file, ManifestEnd(file), Payload(env, parts.chunks, |parts.chunks|), |Payload(env, parts.chunks, i)|,
                |env.compress(parts.chunks[i].raw)|);
  }

  lemma EntryRead(env: Environment, rules: Rules, value: seq<byte>, start: nat, part: ChunkPart, offset: nat)
    requires PartChecks(env, rules, part)
    requires BlockOf(value, start, EntryOf(env, rules, part, offset)) == env.compress(part.raw)
    requires forall j :: 0 <= j < |TicksOf(rules, part.raw)| ==> env.tickAdmitted(TicksOf(rules, part.raw)[j])
    ensures EntryHolds(env, rules, value, start, EntryOf(env, rules, part, offset))
    ensures ChunkIn(env, value, start, EntryOf(env, rules, part, offset)) == Some(part.raw)
  {
    hide DecodeChunk, BlockOf;
  }

  lemma {:induction false} EntriesTotals(env: Environment, rules: Rules, parts: seq<ChunkPart>, n: nat)
    requires n <= |parts|
    ensures
      var entries := Entries(env, rules, parts, |parts|);
      BytesBefore(entries, n) == |Payload(env, parts, n)| && RawBefore(entries, n) == RawTotal(parts, n)
  {
    hide Entries;
    if n > 0 {
      EntriesTotals(env, rules, parts, n - 1);
      EntryAt(env, rules, parts, n - 1);
    }
  }

  lemma EntryAt(env: Environment, rules: Rules, parts: seq<ChunkPart>, i: nat)
    requires i < |parts|
    ensures Entries(env, rules, parts, |parts|)[i] == EntryOf(env, rules, parts[i], |Payload(env, parts, i)|)
  {
    hide EntryOf, Payload;
  }

  // ----- from ticks to a file and back -----

  /** The validator sees no difference between ticks that differ in member order only. */
  ghost predicate OrderBlind(env: Environment) {
    forall a, b :: Same(a, b) && env.tickAdmitted(b) ==> env.tickAdmitted(a)
  }

  /** The parts of a finished writer. */
  ghost predicate Written(env: Environment, rules: Rules, parts: Parts, ticks: seq<Value>) {
    && Covers(rules, ticks, parts.chunks) && parts.tickCount == |ticks|
    && (forall i :: 0 <= i < |ticks| ==> env.tickAdmitted(ticks[i]))
  }

  ghost predicate GroupLossless(rules: Rules, ticks: seq<Value>, k: nat)
    requires KEYFRAME_INTERVAL * k <= |ticks|
  {
    Lossless(rules, Group(ticks, k), KEYFRAME_INTERVAL * k)
  }

  /** Every group of the ticks is encoded and comes back from its own reader. */
  ghost predicate AllLossless(rules: Rules, ticks: seq<Value>) {
    forall k: nat :: KEYFRAME_INTERVAL * k < |ticks| ==> GroupLossless(rules, ticks, k)
  }

  lemma CoversLossless(rules: Rules, ticks: seq<Value>, chunks: seq<ChunkPart>)
    requires Covers(rules, ticks, chunks)
    ensures AllLossless(rules, ticks)
  {
    forall k: nat | KEYFRAME_INTERVAL * k < |ticks| ensures GroupLossless(rules, ticks, k) {
      assert PartOf(rules, ticks, chunks[k], k);
    }
    hide Lossless, Group;
  }

  lemma FullGroup(ticks: seq<Value>, i: nat, k: nat)
    requires i < |ticks| && KEYFRAME_INTERVAL * k <= i && i + 1 - KEYFRAME_INTERVAL * k == KEYFRAME_INTERVAL
    ensures Group(ticks, k) == ticks[..i][KEYFRAME_INTERVAL * k..] + [ticks[i]]
  {
  }

  lemma LastGroup(ticks: seq<Value>, k: nat)
    requires KEYFRAME_INTERVAL * k <= |ticks| < KEYFRAME_INTERVAL * (k + 1)
    ensures Group(ticks, k) == ticks[KEYFRAME_INTERVAL * k..]
  {
  }

  /** A new writer takes some ticks and finishes. It returns parts exactly when there are ticks, not
      too many, each admitted, with an admitted replay description and every group lossless; the
      parts are then `Written`. */
  method WriteParts(env: Environment, rules: Rules, ticks: seq<Value>, replay: Value, replayAdmitted: bool,
                    revision: nat)
    returns (res: Option<Parts>)
    requires AllWellFormed(ticks)
    ensures res.Some? <==>
      && ticks != [] && |ticks| <= 432_000 && replayAdmitted
      && (forall i :: 0 <= i < |ticks| ==> env.tickAdmitted(ticks[i]))
      && AllLossless(rules, ticks)
    ensures res.Some? ==>
      Written(env, rules, res.value, ticks) && res.value.replay == replay && res.value.revision == revision
  {
    hide Lossless, Group;
    var writer := new PartsWriter(rules, env.tickAdmitted);
    for i := 0 to |ticks|
      invariant writer.Valid() && writer.ticks == ticks[..i]
    {
      ghost var k := |writer.chunks|;
      ghost var full := |writer.pending| + 1 == KEYFRAME_INTERVAL;
      if full {
        FullGroup(ticks, i, k);
        assert GroupLossless(rules, ticks, k) == Lossless(rules, writer.pending + [ticks[i]], KEYFRAME_INTERVAL * k);
      }
      var ok := writer.AddTick(ticks[i]);
      if !ok {
        return None;
      }
    }
    assert ticks[..|ticks|] == ticks;
    LastGroup(ticks, |writer.chunks|);
    ghost var k := |writer.chunks|;
    assert GroupLossless(rules, ticks, k) == Lossless(rules, writer.pending, KEYFRAME_INTERVAL * k);
    res := writer.Finish(replay, replayAdmitted, revision);
    if res.Some? {
      CoversLossless(rules, ticks, res.value.chunks);
    }
  }

  function Counted(ticks: seq<Value>, n: nat): nat {
    if KEYFRAME_INTERVAL * n <= |ticks| then KEYFRAME_INTERVAL * n else |ticks|
  }

  lemma GroupExtends(ticks: seq<Value>, k: nat)
    requires KEYFRAME_INTERVAL * k < |ticks|
    ensures Counted(ticks, k) == KEYFRAME_INTERVAL * k
    ensures Counted(ticks, k + 1) == Counted(ticks, k) + |Group(ticks, k)|
    ensures ticks[..Counted(ticks, k + 1)] == ticks[..Counted(ticks, k)] + Group(ticks, k)
  {
  }

  /** A written chunk decodes to its group. */
  lemma PartDecodes(rules: Rules, ticks: seq<Value>, part: ChunkPart, k: nat)
    requires PartOf(rules, ticks, part, k)
    ensures |part.raw| == part.rawBytes
    ensures DecodeChunk(rules, part.raw).Ok? && DecodeChunk(rules, part.raw).value.0 == part.firstTick
    ensures |TicksOf(rules, part.raw)| == part.tickCount && SameTicks(TicksOf(rules, part.raw), Group(ticks, k))
  {
    hide DecodeChunk, EncodeChunk, Group, ChunkReadable, Same;
    SelfCheck(rules, Group(ticks, k), KEYFRAME_INTERVAL * k);
  }

  lemma GroupItems(ticks: seq<Value>, k: nat)
    requires KEYFRAME_INTERVAL * k < |ticks|
    ensures forall j :: 0 <= j < |Group(ticks, k)| ==>
      KEYFRAME_INTERVAL * k + j < |ticks| && Group(ticks, k)[j] == ticks[KEYFRAME_INTERVAL * k + j]
  {
  }

  lemma PartAdmitted(env: Environment, rules: Rules, ticks: seq<Value>, part: ChunkPart, k: nat)
    requires PartOf(rules, ticks, part, k) && OrderBlind(env) && forall i :: 0 <= i < |ticks| ==>
      env.tickAdmitted(ticks[i])
    ensures forall j :: 0 <= j < |TicksOf(rules, part.raw)| ==> env.tickAdmitted(TicksOf(rules, part.raw)[j])
  {
    GroupItems(ticks, k);
    hide PartOf, TicksOf, Group, Same;
    PartDecodes(rules, ticks, part, k);
  }

  lemma SameTicksJoin(a: seq<Value>, b: seq<Value>, c: seq<Value>, d: seq<Value>)
    requires SameTicks(a, b) && SameTicks(c, d)
    ensures SameTicks(a + c, b + d)
  {
    hide Same;
  }

  /** Everything the file holds about chunk i. */
  lemma WrittenEntry(env: Environment, rules: Rules, parts: Parts, ticks: seq<Value>, m: Manifest, i: nat)
    requires Written(env, rules, parts, ticks) && OrderBlind(env) && SizesFit(env, parts, m) && i < |parts.chunks|
    requires m.chunks == Entries(env, rules, parts.chunks, |parts.chunks|)
    requires PartsCheck(env, rules, parts.chunks, |parts.chunks|)
    ensures
      var file := FileOf(env, parts, m);
      && EntryHolds(env, rules, file, ManifestEnd(file), m.chunks[i])
      && ChunkIn(env, file, ManifestEnd(file), m.chunks[i]) == Some(parts.chunks[i].raw)
      && PartOf(rules, ticks, parts.chunks[i], i)
      && m.chunks[i] == EntryOf(env, rules, parts.chunks[i], |Payload(env, parts.chunks, i)|)
  {
    assert PartOf(rules, ticks, parts.chunks[i], i) && PartChecks(env, rules, parts.chunks[i]);
    assert forall j :: 0 <= j < |ticks| ==> env.tickAdmitted(ticks[j]);
    hide *;
    var file := FileOf(env, parts, m);
    EntryAt(env, rules, parts.chunks, i);
    BlockRead(env, rules, parts, m, i);
    PartAdmitted(env, rules, ticks, parts.chunks[i], i);
    EntryRead(env, rules, file, ManifestEnd(file), parts.chunks[i], |Payload(env, parts.chunks, i)|);
  }

  lemma NothingWritten(env: Environment, rules: Rules, file: seq<byte>, m: Manifest, ticks: seq<Value>)
    requires |file| >= HEADER_BYTES
    ensures TicksBefore(m.chunks, 0) == Counted(ticks, 0) == 0
    ensures SameTicks(Contents(env, rules, file, m, 0), ticks[..0])
  {
  }

  lemma {:induction false} WrittenTicks(env: Environment, rules: Rules, parts: Parts, ticks: seq<Value>, m: Manifest,
                                        n: nat)
    requires Written(env, rules, parts, ticks) && OrderBlind(env) && SizesFit(env, parts, m) && n <= |parts.chunks|
    requires m.chunks == Entries(env, rules, parts.chunks, |parts.chunks|)
    requires PartsCheck(env, rules, parts.chunks, |parts.chunks|)
    ensures TicksBefore(m.chunks, n) == Counted(ticks, n)
    ensures SameTicks(Contents(env, rules, FileOf(env, parts, m), m, n), ticks[..Counted(ticks, n)])
  {
    hide *;
    if n == 0 {
      NothingWritten(env, rules, FileOf(env, parts, m), m, ticks);
    } else {
      WrittenTicks(env, rules, parts, ticks, m, n - 1);
      WrittenEntry(env, rules, parts, ticks, m, n - 1);
      var file, part := FileOf(env, parts, m), parts.chunks[n - 1];
      PartDecodes(rules, ticks, part, n - 1);
      PartNumbers(rules, ticks, part, n - 1);
      GroupExtends(ticks, n - 1);
      ContentsStep(env, rules, file, m, n - 1, part);
      EntryNumbers(env, rules, part, |Payload(env, parts.chunks, n - 1)|);
      SameTicksJoin(Contents(env, rules, file, m, n - 1), ticks[..Counted(ticks, n - 1)], TicksOf(rules, part.raw),
                    Group(ticks, n - 1));
    }
  }

  lemma PartNumbers(rules: Rules, ticks: seq<Value>, part: ChunkPart, k: nat)
    requires PartOf(rules, ticks, part, k)
    ensures KEYFRAME_INTERVAL * k < |ticks| && part.index == k && part.firstTick == KEYFRAME_INTERVAL * k
    ensures part.tickCount == |Group(ticks, k)|
  {
  }

  lemma EntryNumbers(env: Environment, rules: Rules, part: ChunkPart, offset: nat)
    ensures
      var e := EntryOf(env, rules, part, offset);
      e.index == part.index && e.offset == offset && e.firstTick == part.firstTick && e.tickCount == part.tickCount
  {
  }

  lemma ContentsStep(env: Environment, rules: Rules, file: seq<byte>, m: Manifest, n: nat, part: ChunkPart)
    requires |file| >= HEADER_BYTES && n < |m.chunks|
    requires ChunkIn(env, file, ManifestEnd(file), m.chunks[n]) == Some(part.raw)
    ensures Contents(env, rules, file, m, n + 1) == Contents(env, rules, file, m, n) + TicksOf(rules, part.raw)
    ensures TicksBefore(m.chunks, n + 1) == TicksBefore(m.chunks, n) + m.chunks[n].tickCount
  {
    hide TicksOf, ChunkIn, ManifestEnd;
  }

  lemma WrittenPlaced(env: Environment, rules: Rules, parts: Parts, ticks: seq<Value>, m: Manifest, i: nat)
    requires Written(env, rules, parts, ticks) && OrderBlind(env) && SizesFit(env, parts, m) && i < |parts.chunks|
    requires m.chunks == Entries(env, rules, parts.chunks, |parts.chunks|)
    requires PartsCheck(env, rules, parts.chunks, |parts.chunks|)
    ensures EntryPlaced(m.chunks, i)
  {
    WrittenTicks(env, rules, parts, ticks, m, i);
    WrittenEntry(env, rules, parts, ticks, m, i);
    PartNumbers(rules, ticks, parts.chunks[i], i);
    GroupExtends(ticks, i);
    EntriesTotals(env, rules, parts.chunks, i);
    EntryNumbers(env, rules, parts.chunks[i], |Payload(env, parts.chunks, i)|);
    hide Written, OrderBlind, SizesFit, PartsCheck, Entries, TicksBefore, BytesBefore, Payload, EntryOf, Group, Counted,
      RawBefore, RawTotal, FileOf, Contents;
  }

  lemma WrittenEntries(env: Environment, rules: Rules, parts: Parts, ticks: seq<Value>, m: Manifest)
    requires Written(env, rules, parts, ticks) && OrderBlind(env) && SizesFit(env, parts, m)
    requires m.chunks == Entries(env, rules, parts.chunks, |parts.chunks|)
    requires PartsCheck(env, rules, parts.chunks, |parts.chunks|)
    ensures EntriesHold(env, rules, FileOf(env, parts, m), ManifestEnd(FileOf(env, parts, m)), m.chunks, |m.chunks|)
  {
    var file := FileOf(env, parts, m);
    hide Written, OrderBlind, SizesFit, PartsCheck, Entries, EntryPlaced, EntryHolds, FileOf, ManifestEnd;
    forall i | 0 <= i < |m.chunks|
      ensures EntryPlaced(m.chunks, i) && EntryHolds(env, rules, file, ManifestEnd(file), m.chunks[i])
    {
      WrittenPlaced(env, rules, parts, ticks, m, i);
      WrittenEntry(env, rules, parts, ticks, m, i);
    }
  }

  lemma FileRead(env: Environment, rules: Rules, parts: Parts, ticks: seq<Value>, m: Manifest)
    requires Written(env, rules, parts, ticks) && OrderBlind(env) && SizesFit(env, parts, m)
    requires m.chunks == Entries(env, rules, parts.chunks, |parts.chunks|)
    requires PartsCheck(env, rules, parts.chunks, |parts.chunks|)
    requires m.tickCount == parts.tickCount && m.container == 1
    requires HEADER_BYTES + |env.render(m)| + RawTotal(parts.chunks, |parts.chunks|) <= UNCOMPRESSED_MAX
    requires ManifestIn(env, FileOf(env, parts, m)) == if ManifestFits(env, m) then Some(m) else None
    ensures Accepted(env, rules, FileOf(env, parts, m), m) <==> ManifestFits(env, m)
  {
    hide *;
    var file, n := FileOf(env, parts, m), |parts.chunks|;
    CoveredCount(env, rules, parts, ticks);
    WrittenTicks(env, rules, parts, ticks, m, n);
    EntriesTotals(env, rules, parts.chunks, n);
    WrittenEntries(env, rules, parts, ticks, m);
    FileParts(env, parts, m);
    AcceptedFrom(env, rules, file, m, |env.render(m)|);
  }

  /** From ticks to a file and back. A file assembled from the parts of a finished writer is
      accepted exactly when its manifest stays within the validator's own limits, and it
      holds the accepted ticks: all of them, in order, each the same value. */
  lemma AssembledIsAccepted(env: Environment, rules: Rules, parts: Parts, ticks: seq<Value>, replayId: string,
                            recordedAt: string)
    requires Written(env, rules, parts, ticks) && OrderBlind(env) && Assembles(env, rules, parts, replayId, recordedAt)
    requires
      var m := ManifestOf(env, rules, parts, replayId, recordedAt);
      env.parse(env.render(m)) == Some(m)
    ensures
      var m := ManifestOf(env, rules, parts, replayId, recordedAt);
      var file := FileOf(env, parts, m);
      && (Accepted(env, rules, file, m) <==> ManifestFits(env, m))
      && SameTicks(Contents(env, rules, file, m, |m.chunks|), ticks)
  {
    hide *;
    var m := ManifestOf(env, rules, parts, replayId, recordedAt);
    AssemblesParts(env, rules, parts, replayId, recordedAt);
    ManifestRead(env, rules, parts, replayId, recordedAt);
    FileRead(env, rules, parts, ticks, m);
    CoveredCount(env, rules, parts, ticks);
    WrittenTicks(env, rules, parts, ticks, m, |parts.chunks|);
    assert ticks[..|ticks|] == ticks;
  }

  lemma CoveredCount(env: Environment, rules: Rules, parts: Parts, ticks: seq<Value>)
    requires Written(env, rules, parts, ticks)
    ensures Counted(ticks, |parts.chunks|) == |ticks| == parts.tickCount
  {
    hide CutInto;
  }

  lemma AssemblesParts(env: Environment, rules: Rules, parts: Parts, replayId: string, recordedAt: string)
    requires Assembles(env, rules, parts, replayId, recordedAt)
    ensures
      var m := ManifestOf(env, rules, parts, replayId, recordedAt);
      && m.chunks == Entries(env, rules, parts.chunks, |parts.chunks|)
           && PartsCheck(env, rules, parts.chunks, |parts.chunks|)
      && SizesFit(env, parts, m) && m.tickCount == parts.tickCount && m.container == 1
      && HEADER_BYTES + |env.render(m)| + RawTotal(parts.chunks, |parts.chunks|) <= UNCOMPRESSED_MAX
  {
    hide PartsCheck, Entries, FileOf, RawTotal;
  }

  lemma AcceptedFrom(env: Environment, rules: Rules, file: seq<byte>, m: Manifest, raw: nat)
    requires |file| >= HEADER_BYTES && Unpack(file[..HEADER_BYTES]).manifestRaw == raw && m.container == 1
    requires ManifestIn(env, file) == if ManifestFits(env, m) then Some(m) else None
    requires EntriesHold(env, rules, file, ManifestEnd(file), m.chunks, |m.chunks|)
    requires TicksBefore(m.chunks, |m.chunks|) == m.tickCount
    requires ManifestEnd(file) + BytesBefore(m.chunks, |m.chunks|) == |file|
    requires HEADER_BYTES + raw + RawBefore(m.chunks, |m.chunks|) <= UNCOMPRESSED_MAX
    ensures Accepted(env, rules, file, m) <==> ManifestFits(env, m)
  {
    hide ManifestIn, EntriesHold, Unpack, TicksBefore, BytesBefore, RawBefore, ManifestFits, ManifestEnd;
  }

  /** The parts of a finished writer pass every check on single chunks but the compressor's own. */
  lemma WrittenChecks(env: Environment, rules: Rules, parts: Parts, ticks: seq<Value>)
    requires Written(env, rules, parts, ticks)
    ensures PartsCheck(env, rules, parts.chunks, |parts.chunks|) <==>
      forall i :: 0 <= i < |parts.chunks| ==>
        env.decompress(env.compress(parts.chunks[i].raw), |parts.chunks[i].raw|) == Some(parts.chunks[i].raw)
  {
    forall i | 0 <= i < |parts.chunks|
      ensures
        var part := parts.chunks[i];
        PartChecks(env, rules, part) <==> env.decompress(env.compress(part.raw), |part.raw|) == Some(part.raw)
    {
      assert PartOf(rules, ticks, parts.chunks[i], i);
      PartDecodes(rules, ticks, parts.chunks[i], i);
      hide DecodeChunk, PartOf;
    }
    hide PartChecks, Written;
  }
}
