/** What a container file says, byte by byte, about the ticks and the arguments it was made from. */
module ContainerBytes {
  import opened Base
  import opened Values
  import opened Delta
  import opened Decode
  import opened ViewerParts
  import opened Container
  import P = Packing

  // ----- the file read without the validator -----

  /** The header and the manifest block, at their places. */
  ghost predicate Opens(env: Environment, file: seq<byte>, m: Manifest) {
    && 32 <= |file| <= 536_870_912
    && file[..8] == [0x48, 0x53, 0x52, 0x44, 0x43, 0x30, 0x30, 0x31]
    && file[8..16] == [32, 0, 1, 0, 1, 0, 0, 0] && file[28..32] == [0, 0, 0, 0]
    && P.FromLittleEndian(file[24..28]) == |file|
    && var size, raw := P.FromLittleEndian(file[16..20]), P.FromLittleEndian(file[20..24]);
      && 32 + size <= |file|
      && var text := env.decompress(file[32..32 + size], raw);
        text.Some? && |text.value| == raw && env.parse(text.value) == Some(m)
  }

  /** The ticks of the k-th chunk. */
  function Share(ticks: seq<Value>, k: nat): seq<Value>
    requires 2048 * k <= |ticks|
  {
    if |ticks| <= 2048 * k + 2048 then ticks[2048 * k..] else ticks[2048 * k..2048 * k + 2048]
  }

  /** The entry describes its own block, and the block holds the k-th share of the ticks. */
  ghost predicate Describes(env: Environment, rules: Rules, e: Entry, block: seq<byte>, ticks: seq<Value>, k: nat)
    requires 2048 * k <= |ticks|
  {
    && e.index == k && e.firstTick == 2048 * k && e.tickCount == |Share(ticks, k)|
    && e.compressedHash == env.digest(block)
    && var raw := env.decompress(block, e.rawBytes);
      && raw.Some? && |raw.value| == e.rawBytes
      && var decoded := DecodeChunk(rules, raw.value);
        && decoded.Ok? && decoded.value.0 == 2048 * k && SameTicks(decoded.value.1, Share(ticks, k))
        && e.tickHash == env.tickDigest(decoded.value.1)
  }

  /** The entry lies within the file and describes what is there. */
  ghost predicate Told(env: Environment, rules: Rules, file: seq<byte>, start: nat, e: Entry, ticks: seq<Value>,
                       k: nat) {
    && 2048 * k <= |ticks| && start + e.offset + e.compressedBytes <= |file|
    && Describes(env, rules, e, file[start + e.offset..start + e.offset + e.compressedBytes], ticks, k)
  }

  /** The blocks follow the manifest one after another, up to the end of the file. */
  ghost predicate Laid(file: seq<byte>, start: nat, entries: seq<Entry>) {
    && (if entries == [] then start == |file| else entries[0].offset == 0)
    && (forall k :: 0 <= k < |entries| ==>
          start + entries[k].offset + entries[k].compressedBytes
            == if k + 1 < |entries| then start + entries[k + 1].offset else |file|)
  }

  /** The whole file. */
  ghost predicate Says(env: Environment, rules: Rules, file: seq<byte>, m: Manifest, ticks: seq<Value>, replay: Value,
                       replayId: string, recordedAt: string) {
    && Opens(env, file, m)
    && m.container == 1 && m.contractTicks == |ticks| && m.tickCount == |ticks|
    && m.replayId == replayId && m.recordedAt == recordedAt && m.replay == replay
    && |m.chunks| == (|ticks| + 2047) / 2048
    && var start := 32 + P.FromLittleEndian(file[16..20]);
      && Laid(file, start, m.chunks)
      && forall k :: 0 <= k < |m.chunks| ==> Told(env, rules, file, start, m.chunks[k], ticks, k)
  }

  // ----- the header -----

  lemma Digits(n: nat)
    requires n < 256
    ensures P.LittleEndian(n, 2) == [n, 0] && P.LittleEndian(n, 4) == [n, 0, 0, 0]
  {
    assert P.LittleEndian(0, 1) == [0];
    assert P.LittleEndian(0, 2) == [0] + P.LittleEndian(0, 1);
    assert P.LittleEndian(0, 3) == [0] + P.LittleEndian(0, 2);
    assert P.LittleEndian(n, 2) == [n] + P.LittleEndian(0, 1);
    assert P.LittleEndian(n, 4) == [n] + P.LittleEndian(0, 3);
  }

  lemma HeaderBytes(manifest: nat, raw: nat, total: nat, rest: seq<byte>)
    requires manifest <= WORD_MAX && raw <= WORD_MAX && total <= WORD_MAX
    ensures
      var file := Pack(Header(MAGIC, HEADER_BYTES, 1, 1, manifest, raw, total, 0)) + rest;
      && file[..8] == [0x48, 0x53, 0x52, 0x44, 0x43, 0x30, 0x30, 0x31]
      && file[8..16] == [32, 0, 1, 0, 1, 0, 0, 0] && file[28..32] == [0, 0, 0, 0]
      && P.FromLittleEndian(file[16..20]) == manifest && P.FromLittleEndian(file[20..24]) == raw
      && P.FromLittleEndian(file[24..28]) == total && file[32..] == rest
  {
    Pow2Values();
    P.FromLittleEndianInverts(manifest, 4);
    P.FromLittleEndianInverts(raw, 4);
    P.FromLittleEndianInverts(total, 4);
    Digits(32);
    Digits(1);
    Digits(0);
    hide P.LittleEndian, P.FromLittleEndian, Pow2;
    HeaderPlaces(P.LittleEndian(manifest, 4), P.LittleEndian(raw, 4), P.LittleEndian(total, 4), rest);
  }

  lemma HeaderPlaces(manifest: seq<byte>, raw: seq<byte>, total: seq<byte>, rest: seq<byte>)
    requires |manifest| == |raw| == |total| == 4
    ensures
      var file := MAGIC + ([32, 0] + ([1, 0] + ([1, 0, 0, 0] + (manifest + (raw + (total + [0, 0, 0, 0])))))) + rest;
      && file[..8] == [0x48, 0x53, 0x52, 0x44, 0x43, 0x30, 0x30, 0x31]
      && file[8..16] == [32, 0, 1, 0, 1, 0, 0, 0] && file[28..32] == [0, 0, 0, 0]
      && file[16..20] == manifest && file[20..24] == raw && file[24..28] == total && file[32..] == rest
  {
  }

  // ----- an assembled file -----

  /** What the validator of the manifest admits, the parser gives back. */
  ghost predicate Renders(env: Environment) {
    forall m :: env.manifestAdmitted(m) ==> env.parse(env.render(m)) == Some(m)
  }

  lemma AssemblesFacts(env: Environment, rules: Rules, parts: Parts, replayId: string, recordedAt: string)
    requires Assembles(env, rules, parts, replayId, recordedAt) && Renders(env)
    ensures
      var m := ManifestOf(env, rules, parts, replayId, recordedAt);
      && SizesFit(env, parts, m) && env.parse(env.render(m)) == Some(m)
      && env.decompress(env.compress(env.render(m)), |env.render(m)|) == Some(env.render(m))
      && PartsCheck(env, rules, parts.chunks, |parts.chunks|)
  {
    hide SizesFit, PartsCheck, ManifestOf;
  }

  lemma FileShape(env: Environment, parts: Parts, m: Manifest)
    requires SizesFit(env, parts, m)
    ensures
      var file, block, text := FileOf(env, parts, m), env.compress(env.render(m)), env.render(m);
      var payload := Payload(env, parts.chunks, |parts.chunks|);
      && file == Pack(Header(MAGIC, HEADER_BYTES, 1, 1, |block|, |text|, |file|, 0)) + (block + payload)
      && |file| <= 536_870_912 && |text| <= WORD_MAX && |file| == 32 + |block| + |payload|
  {
    hide Pack, Payload, RawTotal;
  }

  lemma OpensFrom(env: Environment, file: seq<byte>, m: Manifest, block: seq<byte>, text: seq<byte>,
                  payload: seq<byte>)
    requires |file| == 32 + |block| + |payload| && |file| <= 536_870_912 && |text| <= WORD_MAX
    requires file == Pack(Header(MAGIC, HEADER_BYTES, 1, 1, |block|, |text|, |file|, 0)) + (block + payload)
    requires env.decompress(block, |text|) == Some(text) && env.parse(text) == Some(m)
    ensures Opens(env, file, m) && P.FromLittleEndian(file[16..20]) == |block| && file[32..] == block + payload
  {
    HeaderBytes(|block|, |text|, |file|, block + payload);
    hide Pack, P.FromLittleEndian;
    Chop(block, payload, |block|);
    assert file[32..32 + |block|] == file[32..][..|block|];
  }

  lemma FileOpens(env: Environment, rules: Rules, parts: Parts, replayId: string, recordedAt: string)
    requires Assembles(env, rules, parts, replayId, recordedAt) && Renders(env)
    ensures
      var m := ManifestOf(env, rules, parts, replayId, recordedAt);
      var file, block := FileOf(env, parts, m), env.compress(env.render(m));
      && Opens(env, file, m) && P.FromLittleEndian(file[16..20]) == |block|
      && 32 + |block| <= |file| && file[32 + |block|..] == Payload(env, parts.chunks, |parts.chunks|)
  {
    hide *;
    var m := ManifestOf(env, rules, parts, replayId, recordedAt);
    var block, payload := env.compress(env.render(m)), Payload(env, parts.chunks, |parts.chunks|);
    AssemblesFacts(env, rules, parts, replayId, recordedAt);
    FileShape(env, parts, m);
    OpensFrom(env, FileOf(env, parts, m), m, block, env.render(m), payload);
    Chop(block, payload, |block|);
    assert FileOf(env, parts, m)[32 + |block|..] == FileOf(env, parts, m)[32..][|block|..];
  }

  /** The entry of the k-th part, and its block in the file. */
  lemma EntrySays(env: Environment, rules: Rules, parts: Parts, ticks: seq<Value>, k: nat)
    requires Written(env, rules, parts, ticks) && PartsCheck(env, rules, parts.chunks, |parts.chunks|)
    requires k < |parts.chunks|
    ensures 2048 * k <= |ticks|
    ensures
      var e := EntryOf(env, rules, parts.chunks[k], |Payload(env, parts.chunks, k)|);
      && Describes(env, rules, e, env.compress(parts.chunks[k].raw), ticks, k)
      && e.compressedBytes == |env.compress(parts.chunks[k].raw)| && e.offset == |Payload(env, parts.chunks, k)|
  {
    var part := parts.chunks[k];
    assert PartOf(rules, ticks, part, k) && PartChecks(env, rules, part);
    PartNumbers(rules, ticks, part, k);
    PartDecodes(rules, ticks, part, k);
    assert Group(ticks, k) == Share(ticks, k);
    hide DecodeChunk, PartOf, Payload, SameTicks, Group, Share, Written;
  }

  lemma PayloadPlace(env: Environment, parts: seq<ChunkPart>, k: nat, rest: seq<byte>)
    requires k < |parts|
    ensures
      var tail, block := rest + Payload(env, parts, |parts|), env.compress(parts[k].raw);
      var from := |rest| + |Payload(env, parts, k)|;
      && from + |block| <= |tail| && tail[from..from + |block|] == block
      && from + |block| == |rest| + |Payload(env, parts, k + 1)|
  {
    PayloadBlock(env, parts, k, |parts|);
    PayloadStep(env, parts, k);
    hide Payload;
    var tail, payload := rest + Payload(env, parts, |parts|), Payload(env, parts, |parts|);
    var i, j := |Payload(env, parts, k)|, |Payload(env, parts, k)| + |env.compress(parts[k].raw)|;
    assert tail[|rest| + i..|rest| + j] == payload[i..j];
  }

  /** The k-th entry and its block, wherever the blocks start. */
  ghost predicate BlockPlaced(env: Environment, parts: seq<ChunkPart>, file: seq<byte>, start: nat, e: Entry, k: nat)
    requires k < |parts|
  {
    var block, from := env.compress(parts[k].raw), start + |Payload(env, parts, k)|;
    && e.offset == |Payload(env, parts, k)| && e.compressedBytes == |block|
    && from + |block| == start + |Payload(env, parts, k + 1)| && from + |block| <= |file|
    && file[from..from + |block|] == block
  }

  lemma BlockLies(env: Environment, rules: Rules, parts: seq<ChunkPart>, file: seq<byte>, start: nat, k: nat)
    requires start <= |file| && file[start..] == Payload(env, parts, |parts|) && k < |parts|
    ensures BlockPlaced(env, parts, file, start, EntryOf(env, rules, parts[k], |Payload(env, parts, k)|), k)
  {
    PayloadPlace(env, parts, k, file[..start]);
    assert file[..start] + file[start..] == file;
    hide Payload, TicksOf;
  }

  /** The blocks lie where the entries say. */
  lemma BlocksLaid(env: Environment, parts: seq<ChunkPart>, file: seq<byte>, start: nat, entries: seq<Entry>)
    requires start <= |file| && file[start..] == Payload(env, parts, |parts|) && |entries| == |parts|
    requires forall k :: 0 <= k < |parts| ==> BlockPlaced(env, parts, file, start, entries[k], k)
    ensures Laid(file, start, entries)
  {
    if parts != [] {
      assert BlockPlaced(env, parts, file, start, entries[0], 0);
      assert |Payload(env, parts, 0)| == 0;
    }
    hide Payload;
    forall k | 0 <= k < |entries|
      ensures start + entries[k].offset + entries[k].compressedBytes
        == if k + 1 < |entries| then start + entries[k + 1].offset else |file|
    {
      assert BlockPlaced(env, parts, file, start, entries[k], k);
      if k + 1 < |entries| {
        assert BlockPlaced(env, parts, file, start, entries[k + 1], k + 1);
      }
    }
  }

  /** How many parts there are: one for every 2048 ticks, and one for the rest. */
  lemma PartCount(env: Environment, rules: Rules, parts: Parts, ticks: seq<Value>)
    requires Written(env, rules, parts, ticks)
    ensures |parts.chunks| == (|ticks| + 2047) / 2048
  {
    if parts.chunks != [] {
      assert PartOf(rules, ticks, parts.chunks[|parts.chunks| - 1], |parts.chunks| - 1);
    }
    hide PartOf, Lossless, Group;
    assert parts.chunks != [] ==> KEYFRAME_INTERVAL * (|parts.chunks| - 1) < |ticks| by {
      if parts.chunks != [] {
        PartNumbers(rules, ticks, parts.chunks[|parts.chunks| - 1], |parts.chunks| - 1);
      }
    }
  }

  lemma ManifestFields(env: Environment, rules: Rules, parts: Parts, replayId: string, recordedAt: string)
    ensures
      var m := ManifestOf(env, rules, parts, replayId, recordedAt);
      && m.container == 1 && m.contractTicks == parts.tickCount && m.tickCount == parts.tickCount
      && m.replayId == replayId && m.recordedAt == recordedAt && m.replay == parts.replay
      && m.chunks == Entries(env, rules, parts.chunks, |parts.chunks|)
  {
    hide Entries;
  }

  lemma EntryTold(env: Environment, rules: Rules, parts: Parts, ticks: seq<Value>, file: seq<byte>, start: nat, k: nat)
    requires Written(env, rules, parts, ticks) && PartsCheck(env, rules, parts.chunks, |parts.chunks|)
    requires start <= |file| && file[start..] == Payload(env, parts.chunks, |parts.chunks|) && k < |parts.chunks|
    ensures
      var e := Entries(env, rules, parts.chunks, |parts.chunks|)[k];
      BlockPlaced(env, parts.chunks, file, start, e, k) && Told(env, rules, file, start, e, ticks, k)
  {
    hide Written, PartsCheck, Payload, Entries, EntryOf, Describes;
    EntryAt(env, rules, parts.chunks, k);
    EntrySays(env, rules, parts, ticks, k);
    BlockLies(env, rules, parts.chunks, file, start, k);
  }

  /** A file assembled from written parts says what they, and the caller, say. */
  lemma AssembledSays(env: Environment, rules: Rules, parts: Parts, ticks: seq<Value>, replayId: string,
                      recordedAt: string)
    requires Assembles(env, rules, parts, replayId, recordedAt) && Renders(env) && Written(env, rules, parts, ticks)
    ensures
      var m := ManifestOf(env, rules, parts, replayId, recordedAt);
      Says(env, rules, FileOf(env, parts, m), m, ticks, parts.replay, replayId, recordedAt)
  {
    var m := ManifestOf(env, rules, parts, replayId, recordedAt);
    var file, start := FileOf(env, parts, m), 32 + |env.compress(env.render(m))|;
    assert parts.tickCount == |ticks|;
    hide *;
    AssemblesFacts(env, rules, parts, replayId, recordedAt);
    FileOpens(env, rules, parts, replayId, recordedAt);
    ManifestFields(env, rules, parts, replayId, recordedAt);
    PartCount(env, rules, parts, ticks);
    forall k | 0 <= k < |m.chunks|
      ensures BlockPlaced(env, parts.chunks, file, start, m.chunks[k], k)
      ensures Told(env, rules, file, start, m.chunks[k], ticks, k)
    {
      EntryTold(env, rules, parts, ticks, file, start, k);
    }
    BlocksLaid(env, parts.chunks, file, start, m.chunks);
    SaysFrom(env, rules, file, m, ticks, parts.replay, replayId, recordedAt);
  }

  lemma SaysFrom(env: Environment, rules: Rules, file: seq<byte>, m: Manifest, ticks: seq<Value>, replay: Value,
                 replayId: string, recordedAt: string)
    requires Opens(env, file, m)
    requires m.container == 1 && m.contractTicks == |ticks| && m.tickCount == |ticks|
    requires m.replayId == replayId && m.recordedAt == recordedAt && m.replay == replay
    requires |m.chunks| == (|ticks| + 2047) / 2048
    requires
      var start := 32 + P.FromLittleEndian(file[16..20]);
      Laid(file, start, m.chunks) && forall k :: 0 <= k < |m.chunks| ==>
        Told(env, rules, file, start, m.chunks[k], ticks, k)
    ensures Says(env, rules, file, m, ticks, replay, replayId, recordedAt)
  {
    hide Opens, Laid, Told;
  }

  /** From the ticks and the caller's arguments to the bytes of a file that says just that. */
  method WriteFile(env: Environment, rules: Rules, ticks: seq<Value>, replay: Value, replayAdmitted: bool,
                   revision: nat,
                   replayId: string, recordedAt: string) returns (file: Option<seq<byte>>)
    requires AllWellFormed(ticks) && Renders(env)
    ensures file.Some? ==>
      && ticks != [] && |ticks| <= 432_000 && replayAdmitted && revision != 4 && revision != 5
      && replayId != "" && recordedAt != "" && (forall i :: 0 <= i < |ticks| ==> env.tickAdmitted(ticks[i]))
      && exists m ::
        && env.manifestAdmitted(m) && Says(env, rules, file.value, m, ticks, replay, replayId, recordedAt)
  {
    hide Says, Written;
    var parts := WriteParts(env, rules, ticks, replay, replayAdmitted, revision);
    if parts.None? {
      return None;
    }
    file := Assemble(env, rules, parts.value, replayId, recordedAt);
    if file.Some? {
      AssembledSays(env, rules, parts.value, ticks, replayId, recordedAt);
      assert env.manifestAdmitted(ManifestOf(env, rules, parts.value, replayId, recordedAt));
    }
    hide Assembles;
  }
}
