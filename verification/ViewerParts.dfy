/** The parts writer: accepted ticks are cut into chunks that each start from a full tick. */
module ViewerParts {
  import opened Base
  import opened Values
  import opened Delta
  import opened Decode
  import opened ChunkRoundTrip
  import opened PythonChunk

  const KEYFRAME_INTERVAL: nat := 2048
  const TICKS_MAX: nat := 432_000

  /** One encoded chunk as kept on disk, with the size recorded for it. */
  datatype ChunkPart = ChunkPart(index: nat, firstTick: nat, tickCount: nat, raw: seq<byte>, rawBytes: nat)

  datatype Parts = Parts(tickCount: nat, replay: Value, chunks: seq<ChunkPart>, revision: nat)

  /** The k-th group of ticks: a full interval, or what is left. */
  function Group(ticks: seq<Value>, k: nat): seq<Value>
    requires KEYFRAME_INTERVAL * k <= |ticks|
  {
    if KEYFRAME_INTERVAL * (k + 1) <= |ticks| then ticks[KEYFRAME_INTERVAL * k..KEYFRAME_INTERVAL * (k + 1)]
    else ticks[KEYFRAME_INTERVAL * k..]
  }

  /** The encoder accepts the ticks and its own reader returns them. */
  ghost predicate Lossless(rules: Rules, ticks: seq<Value>, first: nat) {
    AllWellFormed(ticks) && EncodeFor(rules, ticks, first).Some? && ChunkReadable(rules, ticks, 0)
  }

  /** For the Python codec the encoder alone decides: its self-check never fails. */
  lemma PythonLossless(ticks: seq<Value>, first: nat)
    requires AllWellFormed(ticks)
    ensures Lossless(PYTHON, ticks, first) <==>
      EncodeChunk(ticks, first).Ok? && ChunkWrites(ticks, 0)
  {
    PythonEncoder(ticks, first);
    hide ChunkWrites, ChunkReadable, EncodeChunk;
  }

  ghost predicate PartOf(rules: Rules, ticks: seq<Value>, part: ChunkPart, k: nat) {
    && KEYFRAME_INTERVAL * k < |ticks|
    && Lossless(rules, Group(ticks, k), KEYFRAME_INTERVAL * k)
    && part == ChunkPart(k, KEYFRAME_INTERVAL * k, |Group(ticks, k)|,
                         EncodeChunk(Group(ticks, k), KEYFRAME_INTERVAL * k).value, |part.raw|)
  }

  /** Chunk k holds the k-th group of the ticks, and says so. */
  ghost predicate CutInto(rules: Rules, ticks: seq<Value>, chunks: seq<ChunkPart>) {
    forall k :: 0 <= k < |chunks| ==> PartOf(rules, ticks, chunks[k], k)
  }

  /** The chunks hold every tick. */
  ghost predicate Covers(rules: Rules, ticks: seq<Value>, chunks: seq<ChunkPart>) {
    CutInto(rules, ticks, chunks) && |ticks| <= KEYFRAME_INTERVAL * |chunks|
  }

  predicate SameTicks(decoded: seq<Value>, ticks: seq<Value>) {
    |decoded| == |ticks| && forall i :: 0 <= i < |ticks| ==> Same(decoded[i], ticks[i])
  }

  lemma DecodedIsSame(ticks: seq<Value>, first: nat, res: Result<(nat, seq<Value>)>)
    requires DecodedChunk(ticks, first, res)
    ensures SameTicks(res.value.1, ticks)
  {
    forall i | 0 <= i < |ticks| ensures Same(res.value.1[i], ticks[i]) {
      SameSymmetric(ticks[i], res.value.1[i]);
    }
  }

  /** The self-check of a chunk passes exactly when the reader can follow its histories. */
  lemma SelfCheck(rules: Rules, ticks: seq<Value>, first: nat)
    requires AllWellFormed(ticks) && EncodeChunk(ticks, first).Ok?
    ensures
      var res := DecodeChunk(rules, EncodeChunk(ticks, first).value);
      (res.Ok? && res.value.0 == first && SameTicks(res.value.1, ticks)) <==> ChunkReadable(rules, ticks, 0)
  {
    hide DecodeChunk, ChunkReadable, EncodeChunk, Same;
    DecodeOfEncode(rules, ticks, first);
    if ChunkReadable(rules, ticks, 0) {
      DecodedIsSame(ticks, first, DecodeChunk(rules, EncodeChunk(ticks, first).value));
    }
  }

  /** A full group is not touched by a later tick. */
  lemma GroupFixed(ticks: seq<Value>, tick: Value, k: nat)
    requires KEYFRAME_INTERVAL * (k + 1) <= |ticks|
    ensures Group(ticks + [tick], k) == Group(ticks, k)
  {
  }

  lemma CutKept(rules: Rules, ticks: seq<Value>, tick: Value, chunks: seq<ChunkPart>)
    requires CutInto(rules, ticks, chunks) && KEYFRAME_INTERVAL * |chunks| <= |ticks|
    ensures CutInto(rules, ticks + [tick], chunks)
  {
    hide Lossless, Group, EncodeChunk;
    forall k | 0 <= k < |chunks| ensures PartOf(rules, ticks + [tick], chunks[k], k) {
      assert PartOf(rules, ticks, chunks[k], k);
      GroupFixed(ticks, tick, k);
    }
  }

  lemma CutGrown(rules: Rules, ticks: seq<Value>, chunks: seq<ChunkPart>, part: ChunkPart)
    requires CutInto(rules, ticks, chunks) && PartOf(rules, ticks, part, |chunks|)
    ensures CutInto(rules, ticks, chunks + [part])
  {
    hide PartOf;
  }

  class PartsWriter {
    const rules: Rules
    const admits: Value -> bool
    var pending: seq<Value>
    var tickCount: nat
    var chunks: seq<ChunkPart>
    /** Every tick accepted so far. */
    ghost var ticks: seq<Value>

    /** The flushed chunks are the first full groups; the rest is pending. */
    ghost predicate Cut()
      reads this
    {
      && AllWellFormed(ticks) && tickCount == |ticks| <= TICKS_MAX
      && (forall i :: 0 <= i < |ticks| ==> admits(ticks[i]))
      && KEYFRAME_INTERVAL * |chunks| <= |ticks|
      && pending == ticks[KEYFRAME_INTERVAL * |chunks|..]
      && CutInto(rules, ticks, chunks)
    }

    ghost predicate Valid()
      reads this
    {
      Cut() && |pending| < KEYFRAME_INTERVAL
    }

    constructor (rules: Rules, admits: Value -> bool)
      ensures Valid() && ticks == [] && this.rules == rules && this.admits == admits
    {
      this.rules, this.admits := rules, admits;
      pending, tickCount, chunks, ticks := [], 0, [], [];
    }

    /** Fails when the tick is not admitted, the limit is reached, or the group it completes
        is not lossless; only then can the state be left with a full group pending. */
    method AddTick(tick: Value) returns (ok: bool)
      requires Valid() && WellFormed(tick)
      modifies this
      ensures ok <==>
        && admits(tick) && old(tickCount) < 432_000
        && (old(|pending|) + 1 == 2048 ==>
            Lossless(rules, old(pending) + [tick], 2048 * old(|chunks|)))
      ensures ok ==> Valid() && ticks == old(ticks) + [tick]
      ensures !admits(tick) || old(tickCount) >= 432_000 ==> unchanged(this)
    {
      if !admits(tick) || tickCount >= TICKS_MAX {
        return false;
      }
      CutKept(rules, ticks, tick, chunks);
      pending := pending + [tick];
      tickCount := tickCount + 1;
      ticks := ticks + [tick];
      ok := true;
      if |pending| == KEYFRAME_INTERVAL {
        ok := Flush();
      }
    }

    /** Parts of exactly the accepted ticks. */
    method Finish(replay: Value, replayAdmitted: bool, revision: nat) returns (res: Option<Parts>)
      requires Valid()
      modifies this
      ensures ticks == old(ticks)
      ensures res.Some? <==>
        && ticks != [] && replayAdmitted
        && (old(pending) != [] ==> Lossless(rules, old(pending), 2048 * old(|chunks|)))
      ensures res.Some? ==> res.value == Parts(|ticks|, replay, chunks, revision) && Covers(rules, ticks, chunks)
      ensures res.Some? ==> forall i :: 0 <= i < |ticks| ==> admits(ticks[i])
    {
      var ok := Flush();
      if !ok || tickCount < 1 || !replayAdmitted {
        return None;
      }
      return Some(Parts(tickCount, replay, chunks, revision));
    }

    method Flush() returns (ok: bool)
      requires Cut() && |pending| <= KEYFRAME_INTERVAL
      modifies this
      ensures ticks == old(ticks) && tickCount == old(tickCount)
      ensures ok <==> old(pending) == [] || Lossless(rules, old(pending), KEYFRAME_INTERVAL * old(|chunks|))
      ensures !ok ==> unchanged(this)
      ensures ok ==> pending == [] && Covers(rules, ticks, chunks)
      ensures ok && old(|pending|) in {0, KEYFRAME_INTERVAL} ==> Cut()
    {
      if pending == [] {
        return true;
      }
      var first := tickCount - |pending|;
      assert pending == Group(ticks, |chunks|) && first == KEYFRAME_INTERVAL * |chunks|;
      var encoded := EncodeFor(rules, pending, first);
      if encoded.None? {
        return false;
      }
      var raw := encoded.value;
      SelfCheck(rules, pending, first);
      var decoded := DecodeChunk(rules, raw);
      if decoded.Err? || decoded.value.0 != first || !SameTicks(decoded.value.1, pending) {
        return false;
      }
      var part := ChunkPart(|chunks|, first, |pending|, raw, |raw|);
      CutGrown(rules, ticks, chunks, part);
      chunks := chunks + [part];
      pending := [];
      ok := true;
    }
  }

  /** Neighbouring chunks leave no gap and do not overlap; all but the last are full. */
  lemma ChunksAreContiguous(rules: Rules, ticks: seq<Value>, chunks: seq<ChunkPart>, k: nat)
    requires Covers(rules, ticks, chunks) && k < |chunks|
    ensures chunks[k].index == k && chunks[k].tickCount > 0
    ensures k == 0 ==> chunks[k].firstTick == 0
    ensures k + 1 < |chunks| ==>
      chunks[k].tickCount == 2048 && chunks[k + 1].firstTick == chunks[k].firstTick + chunks[k].tickCount
    ensures k + 1 == |chunks| ==>
      chunks[k].tickCount <= 2048 && chunks[k].firstTick + chunks[k].tickCount == |ticks|
  {
    assert PartOf(rules, ticks, chunks[k], k);
    if k + 1 < |chunks| {
      assert PartOf(rules, ticks, chunks[k + 1], k + 1);
    }
    hide Lossless;
  }
}
