/** Reassembling Opus packets from the pages of an Ogg stream: section 6 of RFC 3533. */
module Ogg {
  import opened Bits

  type Packet = seq<byte>

  const HEADER_LEN: nat := 27
  const CAPTURE: seq<byte> := [79, 103, 103, 83]               // "OggS"
  const OPUS_HEAD: seq<byte> := [79, 112, 117, 115, 72, 101, 97, 100] // "OpusHead"
  const OPUS_TAGS: seq<byte> := [79, 112, 117, 115, 84, 97, 103, 115] // "OpusTags"

  function Sum(table: seq<byte>): nat {
    if table == [] then 0 else table[0] as nat + Sum(table[1..])
  }

  lemma {:induction false} SumJoin(a: seq<byte>, b: seq<byte>)
    ensures Sum(a + b) == Sum(a) + Sum(b)
  {
    if a == [] {
      assert a + b == b;
    } else {
      assert (a + b)[1..] == a[1..] + b;
      SumJoin(a[1..], b);
    }
  }

  // --- Segments to packets ------------------------------------------------------------

  /** Packets completed, and what is there of the next one. */
  datatype Run = Run(packets: seq<Packet>, carry: Packet)

  function After(packets: seq<Packet>, run: Run): Run { Run(packets + run.packets, run.carry) }

  /** Takes segments off the data; one shorter than 255 bytes completes a packet. */
  function Reassemble(table: seq<byte>, data: seq<byte>, carry: Packet): Run
    requires |data| == Sum(table)
    decreases |table|
  {
    if table == [] then Run([], carry)
    else
      var packet := carry + data[..table[0]];
      if table[0] < 255 then After([packet], Reassemble(table[1..], data[table[0]..], []))
      else Reassemble(table[1..], data[table[0]..], packet)
  }

  predicate StartsWith(packet: Packet, prefix: seq<byte>) { prefix <= packet }

  predicate IsPlayable(packet: Packet) {
    packet != [] && !StartsWith(packet, OPUS_HEAD) && !StartsWith(packet, OPUS_TAGS)
  }

  function Playable(packets: seq<Packet>): seq<Packet> {
    if packets == [] then []
    else
      var last := packets[|packets| - 1];
      Playable(packets[..|packets| - 1]) + if IsPlayable(last) then [last] else []
  }

  lemma PlayableStep(packets: seq<Packet>, packet: Packet)
    ensures Playable(packets + [packet]) == Playable(packets) + if IsPlayable(packet) then [packet] else []
  {}

  // --- Pages --------------------------------------------------------------------------

  datatype Failure = TruncatedHeader | BadCapture | TruncatedTable | TruncatedData | TruncatedPacket | NoPackets

  datatype PageRead = GoodPage(table: seq<byte>, data: seq<byte>, end: nat) | BadPage(failure: Failure)

  /** The page at `pos`: its segment table, its data, and where it ends. */
  function ReadPage(bytes: seq<byte>, pos: nat): (page: PageRead)
    requires pos < |bytes|
    ensures page.GoodPage? ==> pos < page.end <= |bytes| && |page.data| == Sum(page.table)
  {
    if |bytes| - pos < HEADER_LEN then BadPage(TruncatedHeader)
    else if bytes[pos..pos + 4] != CAPTURE then BadPage(BadCapture)
    else
      var tableStart := pos + HEADER_LEN;
      var tableEnd := tableStart + bytes[pos + 26];
      if tableEnd > |bytes| then BadPage(TruncatedTable)
      else
        var table := bytes[tableStart..tableEnd];
        var end := tableEnd + Sum(table);
        if end > |bytes| then BadPage(TruncatedData) else GoodPage(table, bytes[tableEnd..end], end)
  }

  /** All segments of a stream, with the page boundaries gone. */
  datatype Stream = Segments(table: seq<byte>, data: seq<byte>) | Broken(failure: Failure)

  function ReadPages(bytes: seq<byte>, pos: nat): (stream: Stream)
    requires pos <= |bytes|
    ensures stream.Segments? ==> |stream.data| == Sum(stream.table)
    decreases |bytes| - pos
  {
    if pos == |bytes| then Segments([], [])
    else match ReadPage(bytes, pos)
      case BadPage(failure) => Broken(failure)
      case GoodPage(table, data, end) => Later(table, data, ReadPages(bytes, end))
  }

  function Later(table: seq<byte>, data: seq<byte>, stream: Stream): (all: Stream)
    requires |data| == Sum(table) && (stream.Segments? ==> |stream.data| == Sum(stream.table))
    ensures all.Segments? ==> |all.data| == Sum(all.table)
  {
    match stream
    case Broken(failure) => Broken(failure)
    case Segments(t, d) =>
      SumJoin(table, t);
      Segments(table + t, data + d)
  }

  datatype Outcome = Packets(packets: seq<Packet>) | Failed(failure: Failure)

  /** The outcome once `packets` and `carry` are taken and the rest of the stream is still to come. */
  function Finish(packets: seq<Packet>, carry: Packet, stream: Stream): Outcome
    requires stream.Segments? ==> |stream.data| == Sum(stream.table)
  {
    match stream
    case Broken(failure) => Failed(failure)
    case Segments(table, data) => Judge(After(packets, Reassemble(table, data, carry)))
  }

  function Judge(run: Run): Outcome {
    if run.carry != [] then Failed(TruncatedPacket)
    else if Playable(run.packets) == [] then Failed(NoPackets)
    else Packets(Playable(run.packets))
  }

  function Parsed(bytes: seq<byte>): Outcome { Finish([], [], ReadPages(bytes, 0)) }

  /** Reassembling one stretch of segments and then another is reassembling both in one go. */
  lemma {:induction false} ReassembleJoin(t: seq<byte>, d: seq<byte>, u: seq<byte>, e: seq<byte>, carry: Packet)
    requires |d| == Sum(t) && |e| == Sum(u)
    ensures |d + e| == Sum(t + u)
    ensures var first := Reassemble(t, d, carry);
            Reassemble(t + u, d + e, carry) == After(first.packets, Reassemble(u, e, first.carry))
    decreases |t|
  {
    SumJoin(t, u);
    if t == [] {
      assert t + u == u && d + e == e;
      var run := Reassemble(u, e, carry);
      assert [] + run.packets == run.packets;
    } else {
      var n := t[0];
      var packet := carry + d[..n];
      assert (t + u)[1..] == t[1..] + u && (d + e)[n..] == d[n..] + e && (d + e)[..n] == d[..n];
      if n < 255 {
        ReassembleJoin(t[1..], d[n..], u, e, []);
        var first := Reassemble(t[1..], d[n..], []);
        var second := Reassemble(u, e, first.carry);
        assert [packet] + (first.packets + second.packets) == ([packet] + first.packets) + second.packets;
      } else {
        ReassembleJoin(t[1..], d[n..], u, e, packet);
      }
    }
  }

  // --- The client's parser ------------------------------------------------------------

  /** The segments of one page, when `all` is what the pages before it completed. */
  method TakeSegments(table: seq<byte>, data: seq<byte>, packets: seq<Packet>, current: Packet, ghost all: seq<Packet>)
    returns (playable: seq<Packet>, carry: Packet)
    requires |data| == Sum(table) && packets == Playable(all)
    ensures var run := After(all, Reassemble(table, data, current));
            playable == Playable(run.packets) && carry == run.carry
  {
    hide Reassemble, Playable, IsPlayable;
    playable, carry := packets, current;
    ghost var run := Run(all, current);
    var dataPos := 0;
    SegmentsStart(table, data, current, all);
    for i := 0 to |table|
      invariant dataPos <= |data| && |data| - dataPos == Sum(table[i..])
      invariant playable == Playable(run.packets) && carry == run.carry
      invariant After(run.packets, Reassemble(table[i..], data[dataPos..], run.carry))
          == After(all, Reassemble(table, data, current))
    {
      var segmentLen := table[i];
      SegmentStep(table[i..], data[dataPos..], run);
      assert table[i..][0] == segmentLen && table[i..][1..] == table[i + 1..];
      assert data[dataPos..][..segmentLen] == data[dataPos..dataPos + segmentLen];
      assert data[dataPos..][segmentLen..] == data[dataPos + segmentLen..];
      carry := carry + data[dataPos..dataPos + segmentLen];
      dataPos := dataPos + segmentLen;
      if segmentLen < 255 {
        PlayableStep(run.packets, carry);
        run := Run(run.packets + [carry], []);
        if IsPlayable(carry) {
          playable := playable + [carry];
        }
        carry := [];
      } else {
        run := Run(run.packets, carry);
      }
    }
    SegmentsEnd(run);
    assert table[|table|..] == [] && data[dataPos..] == [];
  }

  lemma SegmentsStart(table: seq<byte>, data: seq<byte>, current: Packet, all: seq<Packet>)
    requires |data| == Sum(table)
    ensures table[0..] == table && data[0..] == data
  {}

  lemma SegmentsEnd(run: Run)
    ensures After(run.packets, Reassemble([], [], run.carry)) == run
  {}

  lemma SegmentStep(table: seq<byte>, data: seq<byte>, run: Run)
    requires |data| == Sum(table) && table != []
    ensures |data| >= table[0] && |data[table[0]..]| == Sum(table[1..])
    ensures var packet := run.carry + data[..table[0]];
            After(run.packets, Reassemble(table, data, run.carry))
            == if table[0] < 255 then After(run.packets + [packet], Reassemble(table[1..], data[table[0]..], []))
               else After(run.packets, Reassemble(table[1..], data[table[0]..], packet))
  {}

  method Parse(bytes: seq<byte>) returns (outcome: Outcome)
    ensures outcome == Parsed(bytes)
  {
    hide Reassemble, Playable, ReadPages, Later, Sum, Judge;
    var pos: nat, carry: Packet, playable: seq<Packet> := 0, [], [];
    ghost var all: seq<Packet> := [];
    NothingPlayable();
    while pos < |bytes|
      invariant pos <= |bytes| && playable == Playable(all)
      invariant Finish(all, carry, ReadPages(bytes, pos)) == Parsed(bytes)
      decreases |bytes| - pos
    {
      PageStep(bytes, pos, all, carry);
      var page := ReadPage(bytes, pos);
      if page.BadPage? { return Failed(page.failure); }
      ghost var run := After(all, Reassemble(page.table, page.data, carry));
      playable, carry := TakeSegments(page.table, page.data, playable, carry, all);
      all := run.packets;
      pos := page.end;
    }
    EndStep(bytes, all, carry);
    if carry != [] { return Failed(TruncatedPacket); }
    if playable == [] { return Failed(NoPackets); }
    return Packets(playable);
  }

  lemma NothingPlayable()
    ensures Playable([]) == []
  {}

  lemma EndStep(bytes: seq<byte>, all: seq<Packet>, carry: Packet)
    ensures Finish(all, carry, ReadPages(bytes, |bytes|)) == Judge(Run(all, carry))
    ensures Judge(Run(all, carry)) == if carry != [] then Failed(TruncatedPacket)
      else if Playable(all) == [] then Failed(NoPackets) else Packets(Playable(all))
  {
    assert all + [] == all;
  }

  lemma PageStep(bytes: seq<byte>, pos: nat, all: seq<Packet>, carry: Packet)
    requires pos < |bytes|
    ensures var page := ReadPage(bytes, pos);
            Finish(all, carry, ReadPages(bytes, pos))
            == if page.BadPage? then Failed(page.failure)
               else
                 var run := After(all, Reassemble(page.table, page.data, carry));
                 Finish(run.packets, run.carry, ReadPages(bytes, page.end))
  {
    hide ReadPage, Reassemble, Judge, Sum;
    var page := ReadPage(bytes, pos);
    if page.GoodPage? {
      var stream := ReadPages(bytes, page.end);
      if stream.Segments? {
        ReassembleJoin(page.table, page.data, stream.table, stream.data, carry);
        var first := Reassemble(page.table, page.data, carry);
        var rest := Reassemble(stream.table, stream.data, first.carry);
        assert all + (first.packets + rest.packets) == (all + first.packets) + rest.packets;
      }
    }
  }
}
