/** Greedy bundling of the avatar messages for one receiver. Where floating-point ratios choose how
    much to put into a bundle, any choice is allowed, so nothing here depends on them. */
module BundleEmission {
  import opened Bits
  import opened Wrappers
  import opened AvatarBundle

  const COMPRESSED_AVATAR_BUNDLE: byte := 52
  const WIRE_BUDGET_BYTES: int := 1100

  /** Settings of one emission. The raw sizes aimed at are given by the message a bundle starts
      with: no message starts two first attempts or two retries, so this covers every ratio. */
  datatype Plan = Plan(
    minMessages: nat, minBytes: nat, target: nat -> nat, retryTarget: nat -> nat, compress: Compressor)

  function RangeRawLen(bundle: seq<BundleSend>, start: nat, end: nat): nat
    requires start <= end <= |bundle|
    decreases end
  {
    if start == end then 0 else RangeRawLen(bundle, start, end - 1) + 3 + |bundle[end - 1].payload|
  }

  /** The length the emitter reckons with is the length of the raw bundle. */
  lemma {:induction false} RangeRawLenExact(bundle: seq<BundleSend>, start: nat, end: nat)
    requires start <= end <= |bundle|
    requires PayloadsFit(PatchedAll(bundle[start..end]))
    ensures RangeRawLen(bundle, start, end) == |Raw(PatchedAll(bundle[start..end]))|
    decreases end
  {
    hide Record, Patched;
    var items := PatchedAll(bundle[start..end]);
    if start < end {
      var last := Patched(bundle[end - 1]);
      assert items == PatchedAll(bundle[start..end - 1]) + [last];
      assert items[end - 1 - start] == last;
      assert PatchedAll(bundle[start..end - 1]) == items[..end - 1 - start];
      RangeRawLenExact(bundle, start, end - 1);
      RawAppend(PatchedAll(bundle[start..end - 1]), last);
      RecordLength(last);
      PatchedLength(bundle[end - 1]);
    }
  }

  // --- Choosing the messages of a bundle ----------------------------------------------

  function ChunkEnd(bundle: seq<BundleSend>, cursor: nat, hardEnd: nat, target: nat, from: nat): (end: nat)
    requires cursor <= from <= hardEnd <= |bundle|
    ensures from <= end <= hardEnd && (cursor < hardEnd ==> cursor < end)
    decreases hardEnd - from
  {
    if from == hardEnd || (from > cursor && RangeRawLen(bundle, cursor, from) + 3 + |bundle[from].payload| > target)
    then from
    else ChunkEnd(bundle, cursor, hardEnd, target, from + 1)
  }

  /** The chunk is the longest one within the target, but never empty. */
  lemma {:induction false} ChunkMaximal(bundle: seq<BundleSend>, cursor: nat, hardEnd: nat, target: nat, from: nat)
    requires cursor <= from <= hardEnd <= |bundle|
    requires from <= cursor + 1 || RangeRawLen(bundle, cursor, from) <= target
    ensures var end := ChunkEnd(bundle, cursor, hardEnd, target, from);
            && (end <= cursor + 1 || RangeRawLen(bundle, cursor, end) <= target)
            && (end == hardEnd || RangeRawLen(bundle, cursor, end + 1) > target)
    decreases hardEnd - from
  {
    if from < hardEnd && !(from > cursor && RangeRawLen(bundle, cursor, from) + 3 + |bundle[from].payload| > target) {
      ChunkMaximal(bundle, cursor, hardEnd, target, from + 1);
    }
  }

  method PickBundleChunkEnd(bundle: seq<BundleSend>, cursor: nat, hardEnd: nat, target: nat) returns (end: nat)
    requires cursor <= hardEnd <= |bundle|
    ensures end == ChunkEnd(bundle, cursor, hardEnd, target, cursor)
  {
    end := cursor;
    var rawAccum := 0;
    while end < hardEnd
      invariant cursor <= end <= hardEnd && rawAccum == RangeRawLen(bundle, cursor, end)
      invariant ChunkEnd(bundle, cursor, hardEnd, target, end) == ChunkEnd(bundle, cursor, hardEnd, target, cursor)
    {
      var entrySize := 3 + |bundle[end].payload|;
      if end > cursor && rawAccum + entrySize > target { break; }
      rawAccum := rawAccum + entrySize;
      end := end + 1;
    }
  }

  // --- Emission -----------------------------------------------------------------------

  /** The range can be encoded, and the result is small enough to send. */
  predicate Emittable(bundle: seq<BundleSend>, start: nat, end: nat, compress: Compressor)
    requires start <= end <= |bundle|
  {
    var items := PatchedAll(bundle[start..end]);
    Bundlable(items) && |Encoded(items, compress)| <= WIRE_BUDGET_BYTES
  }

  function BundleOf(bundle: seq<BundleSend>, start: nat, end: nat, compress: Compressor): Send
    requires start <= end <= |bundle| && Emittable(bundle, start, end, compress)
  {
    Send(COMPRESSED_AVATAR_BUNDLE, Encoded(PatchedAll(bundle[start..end]), compress))
  }

  function RetryEnd(bundle: seq<BundleSend>, cursor: nat, chunkEnd: nat, plan: Plan): (end: nat)
    requires cursor < chunkEnd <= |bundle|
    ensures cursor < end <= chunkEnd
  {
    var picked := ChunkEnd(bundle, cursor, chunkEnd, plan.retryTarget(cursor), cursor);
    var reduced := (chunkEnd - cursor) * 3 / 4;
    if picked < chunkEnd then picked
    else cursor + if reduced < 1 then 1 else reduced
  }

  /** Where the bundle that starts at `cursor` ends; none when the rest goes out one by one. */
  function BundleEnd(bundle: seq<BundleSend>, cursor: nat, plan: Plan): (end: Option<nat>)
    requires cursor <= |bundle|
    ensures end.Some? ==> cursor < end.value <= |bundle| && Emittable(bundle, cursor, end.value, plan.compress)
  {
    var chunkEnd := ChunkEnd(bundle, cursor, |bundle|, plan.target(cursor), cursor);
    if |bundle| - cursor < plan.minMessages || chunkEnd <= cursor then None
    else if RangeRawLen(bundle, cursor, chunkEnd) < plan.minBytes then None
    else if Emittable(bundle, cursor, chunkEnd, plan.compress) then Some(chunkEnd)
    else if !Bundlable(PatchedAll(bundle[cursor..chunkEnd])) then None
    else
      var retryEnd := RetryEnd(bundle, cursor, chunkEnd, plan);
      if RangeRawLen(bundle, cursor, retryEnd) < plan.minBytes then None
      else if Emittable(bundle, cursor, retryEnd, plan.compress) then Some(retryEnd)
      else None
  }

  function Emission(bundle: seq<BundleSend>, cursor: nat, plan: Plan): seq<Send>
    requires cursor <= |bundle|
    decreases |bundle| - cursor
  {
    match BundleEnd(bundle, cursor, plan)
    case None => PatchedAll(bundle[cursor..])
    case Some(end) => [BundleOf(bundle, cursor, end, plan.compress)] + Emission(bundle, end, plan)
  }

  datatype BundleEmit = Emitted | Overshot | Failed

  method TryEmitBundleRange(direct: seq<Send>, bundle: seq<BundleSend>, start: nat, end: nat, compress: Compressor)
    returns (outcome: BundleEmit, sends: seq<Send>)
    requires start <= end <= |bundle|
    ensures outcome.Emitted? <==> Emittable(bundle, start, end, compress)
    ensures outcome.Failed? <==> !Bundlable(PatchedAll(bundle[start..end]))
    ensures sends == if outcome.Emitted? then direct + [BundleOf(bundle, start, end, compress)] else direct
  {
    var encoded := TryEncodeAvatarBundle(bundle[start..end], compress);
    sends := direct;
    if encoded.None? { return Failed, sends; }
    if |encoded.value| > WIRE_BUDGET_BYTES { return Overshot, sends; }
    outcome, sends := Emitted, direct + [Send(COMPRESSED_AVATAR_BUNDLE, encoded.value)];
  }

  /** What one turn of the loop does with the messages from `cursor` on. */
  method EmitNext(direct: seq<Send>, bundle: seq<BundleSend>, cursor: nat, plan: Plan)
    returns (next: Option<nat>, sends: seq<Send>)
    requires cursor <= |bundle|
    ensures next == BundleEnd(bundle, cursor, plan)
    ensures sends == if next.Some? then direct + [BundleOf(bundle, cursor, next.value, plan.compress)] else direct
  {
    hide Emittable, Bundlable, ChunkEnd, RangeRawLen, BundleOf;
    next, sends := None, direct;
    if |bundle| - cursor < plan.minMessages { return; }
    var chunkEnd := PickBundleChunkEnd(bundle, cursor, |bundle|, plan.target(cursor));
    if chunkEnd <= cursor || RangeRawLen(bundle, cursor, chunkEnd) < plan.minBytes { return; }
    var outcome;
    outcome, sends := TryEmitBundleRange(direct, bundle, cursor, chunkEnd, plan.compress);
    if outcome.Emitted? { return Some(chunkEnd), sends; }
    if outcome.Failed? { return; }
    var retryEnd := PickBundleChunkEnd(bundle, cursor, chunkEnd, plan.retryTarget(cursor));
    if retryEnd >= chunkEnd {
      var reduced := (chunkEnd - cursor) * 3 / 4;
      retryEnd := cursor + if reduced < 1 then 1 else reduced;
    }
    if RangeRawLen(bundle, cursor, retryEnd) < plan.minBytes { return; }
    outcome, sends := TryEmitBundleRange(direct, bundle, cursor, retryEnd, plan.compress);
    if outcome.Emitted? { next := Some(retryEnd); }
  }

  method EmitGreedyAvatarBundles(direct: seq<Send>, bundle: seq<BundleSend>, plan: Plan) returns (sends: seq<Send>)
    ensures sends == direct + Emission(bundle, 0, plan)
  {
    hide BundleEnd, BundleOf, Emittable;
    sends := direct;
    if bundle == [] {
      EmptyEmission(plan);
      return;
    }
    var cursor := 0;
    while true
      invariant cursor <= |bundle| && sends + Emission(bundle, cursor, plan) == direct + Emission(bundle, 0, plan)
      decreases |bundle| - cursor
    {
      var next;
      ghost var before := sends;
      next, sends := EmitNext(sends, bundle, cursor, plan);
      if next.None? { break; }
      EmissionStep(before, bundle, cursor, plan);
      cursor := next.value;
    }
    sends := sends + PatchedAll(bundle[cursor..]);
  }

  lemma EmptyEmission(plan: Plan)
    ensures Emission([], 0, plan) == []
  {}

  lemma EmissionStep(before: seq<Send>, bundle: seq<BundleSend>, cursor: nat, plan: Plan)
    requires cursor <= |bundle| && BundleEnd(bundle, cursor, plan).Some?
    ensures var end := BundleEnd(bundle, cursor, plan).value;
            before + Emission(bundle, cursor, plan)
            == (before + [BundleOf(bundle, cursor, end, plan.compress)]) + Emission(bundle, end, plan)
  {}

  // --- Transparency -------------------------------------------------------------------

  /** The messages a receiver gets once it has unpacked the bundles. */
  function Unbundled(sends: seq<Send>, decompress: Decompressor): Option<seq<Send>> {
    if sends == [] then Some([])
    else
      var first :=
        if sends[0].channel == COMPRESSED_AVATAR_BUNDLE then Decoded(sends[0].payload, decompress)
        else Some([sends[0]]);
      if first.None? then None else Prepend(first.value, Unbundled(sends[1..], decompress))
  }

  predicate NoBundles(sends: seq<Send>) {
    forall i :: 0 <= i < |sends| ==> sends[i].channel != COMPRESSED_AVATAR_BUNDLE
  }

  lemma {:induction false} UnbundledPlain(sends: seq<Send>, decompress: Decompressor)
    requires NoBundles(sends)
    ensures Unbundled(sends, decompress) == Some(sends)
  {
    if sends != [] {
      UnbundledPlain(sends[1..], decompress);
      assert sends == [sends[0]] + sends[1..];
    }
  }

  lemma UnbundledFirst(
      items: seq<Send>, rest: seq<Send>, more: seq<Send>, compress: Compressor, decompress: Decompressor)
    requires Inverts(compress, decompress) && Bundlable(items)
    requires Unbundled(rest, decompress) == Some(more)
    ensures Unbundled([Send(COMPRESSED_AVATAR_BUNDLE, Encoded(items, compress))] + rest, decompress)
        == Some(items + more)
  {
    hide Decoded, Encoded, Bundlable;
    BundleRoundTrip(items, compress, decompress);
    var sends := [Send(COMPRESSED_AVATAR_BUNDLE, Encoded(items, compress))] + rest;
    assert sends[1..] == rest;
  }

  /** Unbundling what was emitted gives the messages sent without bundling: each exactly once, in
      order, with its interval byte, whichever attempts overshot, failed or were retried. */
  lemma {:induction false} EmissionTransparent(
      bundle: seq<BundleSend>, cursor: nat, plan: Plan, decompress: Decompressor)
    requires cursor <= |bundle| && Inverts(plan.compress, decompress) && NoBundles(PatchedAll(bundle))
    ensures Unbundled(Emission(bundle, cursor, plan), decompress) == Some(PatchedAll(bundle[cursor..]))
    decreases |bundle| - cursor
  {
    hide BundleEnd, Decoded, Encoded, Bundlable, Unbundled, Patched;
    var next := BundleEnd(bundle, cursor, plan);
    if next.None? {
      forall i | 0 <= i < |bundle| - cursor
        ensures PatchedAll(bundle[cursor..])[i].channel != COMPRESSED_AVATAR_BUNDLE
      {
        assert PatchedAll(bundle)[cursor + i] == PatchedAll(bundle[cursor..])[i];
      }
      UnbundledPlain(PatchedAll(bundle[cursor..]), decompress);
    } else {
      var end := next.value;
      EmissionTransparent(bundle, end, plan, decompress);
      UnbundledFirst(PatchedAll(bundle[cursor..end]), Emission(bundle, end, plan), PatchedAll(bundle[end..]),
                     plan.compress, decompress);
      assert PatchedAll(bundle[cursor..]) == PatchedAll(bundle[cursor..end]) + PatchedAll(bundle[end..]);
    }
  }

  // --- When bundles are made ----------------------------------------------------------

  lemma {:induction false} RawLenGrows(bundle: seq<BundleSend>, start: nat, a: nat, b: nat)
    requires start <= a <= b <= |bundle|
    ensures RangeRawLen(bundle, start, a) <= RangeRawLen(bundle, start, b)
    ensures a < b ==> RangeRawLen(bundle, start, a) < RangeRawLen(bundle, start, b)
    decreases b
  {
    if a < b { RawLenGrows(bundle, start, a, b - 1); }
  }

  /** The first messages that come to no more than the target, or else the first one alone. */
  predicate LongestWithin(bundle: seq<BundleSend>, cursor: nat, hardEnd: nat, target: nat, end: nat)
    requires cursor < end <= hardEnd <= |bundle|
  {
    && (end == cursor + 1 || RangeRawLen(bundle, cursor, end) <= target)
    && (end == hardEnd || RangeRawLen(bundle, cursor, end + 1) > target)
  }

  lemma LongestIsChunk(bundle: seq<BundleSend>, cursor: nat, hardEnd: nat, target: nat, end: nat)
    requires cursor < end <= hardEnd <= |bundle| && LongestWithin(bundle, cursor, hardEnd, target, end)
    ensures ChunkEnd(bundle, cursor, hardEnd, target, cursor) == end
  {
    hide RangeRawLen, ChunkEnd;
    var chunk := ChunkEnd(bundle, cursor, hardEnd, target, cursor);
    ChunkMaximal(bundle, cursor, hardEnd, target, cursor);
    if chunk < end {
      RawLenGrows(bundle, cursor, chunk + 1, end);
    } else if end < chunk {
      RawLenGrows(bundle, cursor, end + 1, chunk);
    }
  }

  /** Messages enough, bytes enough, and small enough once compressed: the longest stretch within the
      target goes out as one bundle. */
  lemma BundledWhenItFits(bundle: seq<BundleSend>, cursor: nat, end: nat, plan: Plan)
    requires cursor < end <= |bundle| && |bundle| - cursor >= plan.minMessages
    requires LongestWithin(bundle, cursor, |bundle|, plan.target(cursor), end)
    requires RangeRawLen(bundle, cursor, end) >= plan.minBytes
    requires var items := PatchedAll(bundle[cursor..end]);
             Bundlable(items) && |Encoded(items, plan.compress)| <= 1100
    ensures Emission(bundle, cursor, plan)
         == [Send(52, Encoded(PatchedAll(bundle[cursor..end]), plan.compress))]
            + Emission(bundle, end, plan)
  {
    hide RangeRawLen, ChunkEnd, Bundlable, Encoded, LongestWithin;
    LongestIsChunk(bundle, cursor, |bundle|, plan.target(cursor), end);
  }

  /** A stretch that comes out too large is tried once more, shorter. */
  lemma RetriedWhenTooLarge(bundle: seq<BundleSend>, cursor: nat, end: nat, shorter: nat, plan: Plan)
    requires cursor < shorter < end <= |bundle| && |bundle| - cursor >= plan.minMessages
    requires LongestWithin(bundle, cursor, |bundle|, plan.target(cursor), end)
    requires LongestWithin(bundle, cursor, end, plan.retryTarget(cursor), shorter)
    requires RangeRawLen(bundle, cursor, shorter) >= plan.minBytes
    requires var items := PatchedAll(bundle[cursor..end]);
             Bundlable(items) && |Encoded(items, plan.compress)| > 1100
    requires var items := PatchedAll(bundle[cursor..shorter]);
             Bundlable(items) && |Encoded(items, plan.compress)| <= 1100
    ensures Emission(bundle, cursor, plan)
         == [Send(52, Encoded(PatchedAll(bundle[cursor..shorter]), plan.compress))]
            + Emission(bundle, shorter, plan)
  {
    hide RangeRawLen, ChunkEnd, Bundlable, Encoded, LongestWithin;
    LongestIsChunk(bundle, cursor, |bundle|, plan.target(cursor), end);
    LongestIsChunk(bundle, cursor, end, plan.retryTarget(cursor), shorter);
    RawLenGrows(bundle, cursor, shorter, end);
  }

  /** When the smaller target would not shorten the stretch, three quarters of it are tried. */
  lemma RetriedAtThreeQuarters(bundle: seq<BundleSend>, cursor: nat, end: nat, shorter: nat, plan: Plan)
    requires cursor + 1 < end <= |bundle| && |bundle| - cursor >= plan.minMessages
    requires shorter == cursor + (end - cursor) * 3 / 4
    requires LongestWithin(bundle, cursor, |bundle|, plan.target(cursor), end)
    requires RangeRawLen(bundle, cursor, end) <= plan.retryTarget(cursor)
    requires RangeRawLen(bundle, cursor, shorter) >= plan.minBytes
    requires var items := PatchedAll(bundle[cursor..end]);
             Bundlable(items) && |Encoded(items, plan.compress)| > 1100
    requires var items := PatchedAll(bundle[cursor..shorter]);
             Bundlable(items) && |Encoded(items, plan.compress)| <= 1100
    ensures Emission(bundle, cursor, plan)
         == [Send(52, Encoded(PatchedAll(bundle[cursor..shorter]), plan.compress))] + Emission(bundle, shorter, plan)
  {
    hide RangeRawLen, ChunkEnd, Bundlable, Encoded, LongestWithin;
    LongestIsChunk(bundle, cursor, |bundle|, plan.target(cursor), end);
    assert ChunkEnd(bundle, cursor, end, plan.retryTarget(cursor), cursor) == end by {
      WholeIsLongest(bundle, cursor, end, plan);
      LongestIsChunk(bundle, cursor, end, plan.retryTarget(cursor), end);
    }
    RawLenGrows(bundle, cursor, shorter, end);
  }

  lemma WholeIsLongest(bundle: seq<BundleSend>, cursor: nat, end: nat, plan: Plan)
    requires cursor < end <= |bundle| && RangeRawLen(bundle, cursor, end) <= plan.retryTarget(cursor)
    ensures LongestWithin(bundle, cursor, end, plan.retryTarget(cursor), end)
  {}

  /** A stretch that cannot be encoded at all is not tried shorter: everything goes out one by one. */
  lemma PlainWhenUnbundlable(bundle: seq<BundleSend>, cursor: nat, end: nat, plan: Plan)
    requires cursor < end <= |bundle|
    requires LongestWithin(bundle, cursor, |bundle|, plan.target(cursor), end)
    requires !Bundlable(PatchedAll(bundle[cursor..end]))
    ensures Emission(bundle, cursor, plan) == PatchedAll(bundle[cursor..])
  {
    hide RangeRawLen, ChunkEnd, Bundlable, Encoded, LongestWithin;
    LongestIsChunk(bundle, cursor, |bundle|, plan.target(cursor), end);
  }

  /** Too few messages, or too few bytes in them, go out one by one. */
  lemma PlainWhenSmall(bundle: seq<BundleSend>, cursor: nat, plan: Plan)
    requires cursor <= |bundle|
    requires |bundle| - cursor < plan.minMessages || RangeRawLen(bundle, cursor, |bundle|) < plan.minBytes
    ensures Emission(bundle, cursor, plan) == PatchedAll(bundle[cursor..])
  {
    hide RangeRawLen, ChunkEnd, Emittable, Bundlable;
    RawLenGrows(bundle, cursor, ChunkEnd(bundle, cursor, |bundle|, plan.target(cursor), cursor), |bundle|);
  }

  /** Every bundle is within the wire budget. */
  lemma {:induction false} BundlesWithinBudget(bundle: seq<BundleSend>, cursor: nat, plan: Plan, k: nat)
    requires cursor <= |bundle| && NoBundles(PatchedAll(bundle))
    requires k < |Emission(bundle, cursor, plan)|
    ensures var send := Emission(bundle, cursor, plan)[k];
            send.channel == 52 ==> |send.payload| <= 1100
    decreases |bundle| - cursor
  {
    hide BundleEnd, Encoded, Bundlable, Patched;
    var next := BundleEnd(bundle, cursor, plan);
    if next.None? {
      assert Emission(bundle, cursor, plan)[k] == PatchedAll(bundle)[cursor + k];
    } else if k > 0 {
      BundlesWithinBudget(bundle, next.value, plan, k - 1);
    }
  }
}
