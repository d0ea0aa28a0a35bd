/** Compressed bundles of avatar messages: what goes into one, and what its decoder gives back. */
module AvatarBundle {
  import opened Bits
  import opened Wire
  import opened Wrappers

  /** A message for one receiver: the channel it belongs to, and its bytes. */
  datatype Send = Send(channel: byte, payload: seq<byte>)

  /** A message before the byte holding its interval is set for the receiver. */
  datatype BundleSend = BundleSend(channel: byte, payload: seq<byte>, intervalOffset: nat, intervalByte: byte)

  type Compressor = seq<byte> -> seq<byte>
  type Decompressor = (seq<byte>, nat) -> Option<seq<byte>>

  /** All that is asked of the compression: given the raw length, decompressing undoes compressing. */
  ghost predicate Inverts(compress: Compressor, decompress: Decompressor) {
    forall raw: seq<byte> :: |raw| < 65536 ==> decompress(compress(raw), |raw|) == Some(raw)
  }

  /** The payload with the receiver's interval byte in place, if the payload reaches that far. */
  function PatchIntervalBytes(payload: seq<byte>, offset: nat, interval: byte): (r: seq<byte>)
    ensures |r| == |payload|
    ensures forall i :: 0 <= i < |r| ==> r[i] == if i == offset then interval else payload[i]
  {
    if offset < |payload| && payload[offset] != interval then payload[offset := interval] else payload
  }

  /** The message as it goes out without bundling. */
  function Patched(item: BundleSend): Send {
    Send(item.channel, PatchIntervalBytes(item.payload, item.intervalOffset, item.intervalByte))
  }

  function PatchedAll(items: seq<BundleSend>): (sends: seq<Send>)
    ensures |sends| == |items|
    ensures forall i :: 0 <= i < |items| ==> sends[i] == Patched(items[i])
  {
    seq(|items|, i requires 0 <= i < |items| => Patched(items[i]))
  }

  // --- Encoding -----------------------------------------------------------------------

  function Record(item: Send): (bytes: seq<byte>)
    requires |item.payload| < 65536
  {
    [item.channel] + U16Bytes(|item.payload|) + item.payload
  }

  predicate PayloadsFit(items: seq<Send>) {
    forall i :: 0 <= i < |items| ==> |items[i].payload| < 65536
  }

  function Raw(items: seq<Send>): seq<byte>
    requires PayloadsFit(items)
  {
    if items == [] then [] else Record(items[0]) + Raw(items[1..])
  }

  /** The lists the encoder accepts: at most 255 messages, with lengths that fit their fields. */
  predicate Bundlable(items: seq<Send>) {
    |items| <= 255 && PayloadsFit(items) && |Raw(items)| <= 65535
  }

  function Encoded(items: seq<Send>, compress: Compressor): seq<byte>
    requires Bundlable(items)
  {
    [|items|] + U16Bytes(|Raw(items)|) + compress(Raw(items))
  }

  lemma {:induction false} RawAppend(items: seq<Send>, item: Send)
    requires PayloadsFit(items) && |item.payload| < 65536
    ensures PayloadsFit(items + [item]) && Raw(items + [item]) == Raw(items) + Record(item)
  {
    hide Record;
    if items == [] {
      assert ([] + [item])[1..] == [];
      assert Raw([item]) == Record(item) + Raw([]);
    } else {
      assert (items + [item])[1..] == items[1..] + [item];
      RawAppend(items[1..], item);
    }
  }

  /** What the encoder appends for one message, writing the interval byte as it copies the payload. */
  function Written(item: BundleSend): (bytes: seq<byte>)
    requires |item.payload| < 65536
    ensures bytes == Record(Patched(item))
  {
    var patched := if item.intervalOffset < |item.payload|
      then item.payload[..item.intervalOffset] + [item.intervalByte] + item.payload[item.intervalOffset + 1..]
      else item.payload;
    assert patched == Patched(item).payload;
    [item.channel] + U16Bytes(|item.payload|) + patched
  }

  lemma RawStep(items: seq<BundleSend>, i: nat)
    requires i < |items| && PayloadsFit(PatchedAll(items[..i])) && |items[i].payload| < 65536
    ensures PayloadsFit(PatchedAll(items[..i + 1]))
    ensures Raw(PatchedAll(items[..i + 1])) == Raw(PatchedAll(items[..i])) + Record(Patched(items[i]))
  {
    hide Record, Raw;
    RawAppend(PatchedAll(items[..i]), Patched(items[i]));
    assert PatchedAll(items[..i + 1]) == PatchedAll(items[..i]) + [Patched(items[i])];
  }

  method TryEncodeAvatarBundle(items: seq<BundleSend>, compress: Compressor) returns (bytes: Option<seq<byte>>)
    ensures bytes.Some? <==>
              |items| < 256 && PayloadsFit(PatchedAll(items)) && |Raw(PatchedAll(items))| < 65536
    ensures bytes.Some? ==> bytes.value == Encoded(PatchedAll(items), compress)
  {
    hide Raw, Record, Written, Patched, U16Bytes;
    if |items| > 255 { return None; }
    var raw: seq<byte> := [];
    EmptyRaw();
    for i := 0 to |items|
      invariant PayloadsFit(PatchedAll(items[..i])) && raw == Raw(PatchedAll(items[..i]))
    {
      var item := items[i];
      PatchedLength(item);
      if |item.payload| > 65535 {
        assert PatchedAll(items)[i] == Patched(item);
        return None;
      }
      RawStep(items, i);
      raw := raw + Written(item);
    }
    assert items[..|items|] == items;
    if |raw| > 65535 { return None; }
    return Some([|items|] + U16Bytes(|raw|) + compress(raw));
  }

  lemma EmptyRaw()
    ensures Raw([]) == []
  {}

  lemma PatchedLength(item: BundleSend)
    ensures |Patched(item).payload| == |item.payload|
  {}

  // --- Decoding -----------------------------------------------------------------------

  /** Reads `count` records from position `pos` on. */
  function Records(raw: seq<byte>, pos: nat, count: nat): Option<seq<Send>>
    requires pos <= |raw|
    decreases count
  {
    if count == 0 then Some([])
    else if pos + 3 > |raw| then None
    else
      var end := pos + 3 + U16At(raw, pos + 1);
      if end > |raw| then None
      else match Records(raw, end, count - 1)
        case None => None
        case Some(rest) => Some([Send(raw[pos], raw[pos + 3..end])] + rest)
  }

  function Decoded(bytes: seq<byte>, decompress: Decompressor): Option<seq<Send>> {
    if |bytes| < 3 then None
    else match decompress(bytes[3..], U16At(bytes, 1))
      case None => None
      case Some(raw) => if |raw| != U16At(bytes, 1) then None else Records(raw, 0, bytes[0])
  }

  function Prepend(items: seq<Send>, rest: Option<seq<Send>>): Option<seq<Send>> {
    match rest
    case None => None
    case Some(more) => Some(items + more)
  }

  method ReadRecords(raw: seq<byte>, count: nat) returns (items: Option<seq<Send>>)
    ensures items == Records(raw, 0, count)
  {
    hide Records, U16At;
    var pos: nat, read: seq<Send> := 0, [];
    RecordsStart(raw, count);
    for i := 0 to count
      invariant pos <= |raw|
      invariant Records(raw, 0, count) == Prepend(read, Records(raw, pos, count - i))
    {
      if pos + 3 > |raw| {
        RecordsTruncated(raw, pos, count - i);
        return None;
      }
      var end := pos + 3 + U16At(raw, pos + 1);
      if end > |raw| {
        RecordsTruncated(raw, pos, count - i);
        return None;
      }
      RecordsStep(raw, pos, count - i, read);
      read := read + [Send(raw[pos], raw[pos + 3..end])];
      pos := end;
    }
    RecordsEnd(raw, pos);
    assert read + [] == read;
    return Some(read);
  }

  method DecodeAvatarBundle(bytes: seq<byte>, decompress: Decompressor) returns (items: Option<seq<Send>>)
    ensures items == Decoded(bytes, decompress)
  {
    hide Records, U16At;
    if |bytes| < 3 { return None; }
    var count, rawLen := bytes[0], U16At(bytes, 1);
    var decompressed := decompress(bytes[3..], rawLen);
    if decompressed.None? || |decompressed.value| != rawLen { return None; }
    items := ReadRecords(decompressed.value, count);
  }

  lemma RecordsEnd(raw: seq<byte>, pos: nat)
    requires pos <= |raw|
    ensures Records(raw, pos, 0) == Some([])
  {}

  lemma RecordsStart(raw: seq<byte>, count: nat)
    ensures Records(raw, 0, count) == Prepend([], Records(raw, 0, count))
  {
    var all := Records(raw, 0, count);
    if all.Some? { assert [] + all.value == all.value; }
  }

  lemma RecordsTruncated(raw: seq<byte>, pos: nat, count: nat)
    requires pos <= |raw| && count > 0
    requires pos + 3 > |raw| || pos + 3 + U16At(raw, pos + 1) > |raw|
    ensures Records(raw, pos, count) == None
  {}

  lemma RecordsStep(raw: seq<byte>, pos: nat, count: nat, read: seq<Send>)
    requires pos + 3 <= |raw| && count > 0
    requires pos + 3 + U16At(raw, pos + 1) <= |raw|
    ensures var end := pos + 3 + U16At(raw, pos + 1);
            Prepend(read, Records(raw, pos, count))
                == Prepend(read + [Send(raw[pos], raw[pos + 3..end])], Records(raw, end, count - 1))
  {
    hide U16At;
    var end := pos + 3 + U16At(raw, pos + 1);
    var rest := Records(raw, end, count - 1);
    if rest.Some? {
      var item := Send(raw[pos], raw[pos + 3..end]);
      assert read + ([item] + rest.value) == (read + [item]) + rest.value;
    }
  }

  // --- What is accepted ---------------------------------------------------------------

  /** Records read are those whose bytes stand there. */
  lemma {:induction false} RecordsExactly(raw: seq<byte>, pos: nat, items: seq<Send>)
    requires pos <= |raw|
    ensures Records(raw, pos, |items|) == Some(items) <==> PayloadsFit(items) && Raw(items) <= raw[pos..]
    decreases |items|
  {
    hide U16At, Record, Records;
    if items != [] {
      var item, rest := items[0], items[1..];
      assert items == [item] + rest;
      NextRecord(raw, pos, item, rest);
      if |item.payload| < 65536 { RecordThere(raw, pos, item); }
      if |item.payload| < 65536 && Record(item) <= raw[pos..] {
        RecordsExactly(raw, pos + 3 + |item.payload|, rest);
        RawThere(raw, pos, item, rest);
      }
    } else {
      RecordsEnd(raw, pos);
    }
  }

  /** Reading one record and then the others. */
  lemma NextRecord(raw: seq<byte>, pos: nat, item: Send, rest: seq<Send>)
    requires pos <= |raw|
    ensures Records(raw, pos, |rest| + 1) == Some([item] + rest) <==>
              && pos + 3 + |item.payload| <= |raw| && U16At(raw, pos + 1) == |item.payload|
              && item == Send(raw[pos], raw[pos + 3..pos + 3 + |item.payload|])
              && Records(raw, pos + 3 + |item.payload|, |rest|) == Some(rest)
  {
    hide U16At;
    if Records(raw, pos, |rest| + 1) == Some([item] + rest) {
      assert ([item] + rest)[0] == item && ([item] + rest)[1..] == rest;
    }
  }

  lemma RawThere(raw: seq<byte>, pos: nat, item: Send, rest: seq<Send>)
    requires pos <= |raw| && |item.payload| < 65536 && Record(item) <= raw[pos..]
    ensures PayloadsFit([item] + rest) <==> PayloadsFit(rest)
    ensures PayloadsFit(rest) ==> (Raw([item] + rest) <= raw[pos..] <==> Raw(rest) <= raw[pos + 3 + |item.payload|..])
  {
    hide Record;
    RecordLength(item);
    var end := pos + 3 + |item.payload|;
    assert ([item] + rest)[1..] == rest;
    assert raw[pos..] == Record(item) + raw[end..];
    assert PayloadsFit([item] + rest) ==> forall i :: 0 <= i < |rest| ==> ([item] + rest)[i + 1] == rest[i];
  }

  lemma RecordThere(raw: seq<byte>, pos: nat, item: Send)
    requires pos <= |raw| && |item.payload| < 65536
    ensures Record(item) <= raw[pos..] <==>
              && pos + 3 + |item.payload| <= |raw| && U16At(raw, pos + 1) == |item.payload|
              && item == Send(raw[pos], raw[pos + 3..pos + 3 + |item.payload|])
  {}

  /** A bundle is accepted exactly when it decompresses to as many bytes as it says, and these begin
      with as many records as it says; and then it means these. */
  lemma DecodedExactly(bytes: seq<byte>, decompress: Decompressor, items: seq<Send>)
    ensures Decoded(bytes, decompress) == Some(items) <==>
              && |bytes| >= 3 && bytes[0] == |items| && PayloadsFit(items)
              && var raw := decompress(bytes[3..], U16At(bytes, 1));
                 raw.Some? && |raw.value| == U16At(bytes, 1) && Raw(items) <= raw.value
  {
    hide Records, Raw, U16At;
    if |bytes| >= 3 {
      var raw := decompress(bytes[3..], U16At(bytes, 1));
      if raw.Some? {
        assert raw.value[0..] == raw.value;
        RecordsExactly(raw.value, 0, items);
        RecordsCounted(raw.value, 0, bytes[0]);
      }
    }
  }

  lemma {:induction false} RecordsCounted(raw: seq<byte>, pos: nat, count: nat)
    requires pos <= |raw|
    ensures Records(raw, pos, count).Some? ==> |Records(raw, pos, count).value| == count
    decreases count
  {
    hide U16At;
    if count > 0 && pos + 3 <= |raw| && pos + 3 + U16At(raw, pos + 1) <= |raw| {
      RecordsCounted(raw, pos + 3 + U16At(raw, pos + 1), count - 1);
    }
  }

  // --- Round trip ---------------------------------------------------------------------

  /** Reading at the end of `head` takes the record that follows it. */
  lemma RecordAt(head: seq<byte>, item: Send, rest: seq<byte>)
    requires |item.payload| < 65536
    ensures var all := (head + Record(item)) + rest;
            && U16At(all, |head| + 1) == |item.payload|
            && Send(all[|head|], all[|head| + 3..|head + Record(item)|]) == item
  {}

  lemma RecordLength(item: Send)
    requires |item.payload| < 65536
    ensures |Record(item)| == 3 + |item.payload|
  {}

  lemma RecordsTake(head: seq<byte>, item: Send, rest: seq<byte>, count: nat, more: seq<Send>)
    requires |item.payload| < 65536
    requires Records((head + Record(item)) + rest, |head + Record(item)|, count) == Some(more)
    ensures Records((head + Record(item)) + rest, |head|, count + 1) == Some([item] + more)
  {
    hide U16At, Record;
    RecordLength(item);
    RecordAt(head, item, rest);
  }

  lemma {:induction false} RecordsOfRaw(head: seq<byte>, items: seq<Send>)
    requires PayloadsFit(items)
    ensures Records(head + Raw(items), |head|, |items|) == Some(items)
    decreases |items|
  {
    hide Record, Records;
    if items == [] {
      RecordsEnd(head + Raw(items), |head|);
    } else {
      var next := head + Record(items[0]);
      assert head + Raw(items) == next + Raw(items[1..]);
      RecordsOfRaw(next, items[1..]);
      RecordsTake(head, items[0], Raw(items[1..]), |items| - 1, items[1..]);
      assert items == [items[0]] + items[1..];
    }
  }

  /** Decoding a bundle gives back the messages put in, patched, in order. */
  lemma BundleRoundTrip(items: seq<Send>, compress: Compressor, decompress: Decompressor)
    requires Bundlable(items) && Inverts(compress, decompress)
    ensures Decoded(Encoded(items, compress), decompress) == Some(items)
  {
    hide Records, Raw;
    var raw := Raw(items);
    var bytes := Encoded(items, compress);
    U16RoundTrip([|items|], |raw|, compress(raw));
    assert bytes[3..] == compress(raw);
    RecordsOfRaw([], items);
    assert [] + raw == raw;
  }
}
