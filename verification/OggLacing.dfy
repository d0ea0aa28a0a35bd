/** Writing packets as segments and pages, after section 6 of RFC 3533, and what the client's
    parser makes of them. */
module OggLacing {
  import opened Bits
  import opened Ogg
  import opened Wrappers

  // --- Segments -----------------------------------------------------------------------

  /** Full segments, then one shorter than 255 bytes, which may be empty. */
  function Lacing(packet: Packet): (table: seq<byte>)
    ensures Sum(table) == |packet|
  {
    if |packet| < 255 then [|packet|] else [255] + Lacing(packet[255..])
  }

  function LacingAll(packets: seq<Packet>): seq<byte> {
    if packets == [] then [] else Lacing(packets[0]) + LacingAll(packets[1..])
  }

  /** `n` full segments. */
  function Full(n: nat): (table: seq<byte>)
    ensures |table| == n && Sum(table) == 255 * n
  {
    if n == 0 then [] else [255] + Full(n - 1)
  }

  lemma {:induction false} LacingSum(packets: seq<Packet>)
    ensures Sum(LacingAll(packets)) == |Flat(packets)|
  {
    if packets != [] {
      SumJoin(Lacing(packets[0]), LacingAll(packets[1..]));
      LacingSum(packets[1..]);
    }
  }

  lemma {:induction false} ReassembleLacing(packet: Packet, carry: Packet)
    ensures Reassemble(Lacing(packet), packet, carry) == Run([carry + packet], [])
    decreases |packet|
  {
    if |packet| < 255 {
      assert packet[..|packet|] == packet && [|packet|][1..] == [];
      assert Reassemble([], packet[|packet|..], []) == Run([], []);
    } else {
      var head, tail := packet[..255], packet[255..];
      var table := Lacing(packet);
      assert table[0] == 255 && table[1..] == Lacing(tail);
      ReassembleLacing(tail, carry + head);
      assert (carry + head) + tail == carry + packet;
    }
  }

  /** Laced packets are given back, all of them, in order, with nothing left over. */
  lemma {:induction false} ReassembleLacingAll(packets: seq<Packet>)
    ensures Sum(LacingAll(packets)) == |Flat(packets)|
    ensures Reassemble(LacingAll(packets), Flat(packets), []) == Run(packets, [])
  {
    LacingSum(packets);
    if packets != [] {
      hide Reassemble, Lacing;
      LacingSum(packets[1..]);
      ReassembleLacing(packets[0], []);
      ReassembleLacingAll(packets[1..]);
      ReassembleJoin(Lacing(packets[0]), packets[0], LacingAll(packets[1..]), Flat(packets[1..]), []);
      assert [] + packets[0] == packets[0];
      assert packets == [packets[0]] + packets[1..];
    }
  }

  /** Any segments whatever are the lacing of the packets taken from them, followed by full
      segments of a packet that is not finished. */
  lemma {:induction false} Unlaced(table: seq<byte>, data: seq<byte>, carry: Packet)
    requires |data| == Sum(table) && |carry| % 255 == 0
    ensures var run := Reassemble(table, data, carry);
            && |run.carry| % 255 == 0
            && Full(|carry| / 255) + table == LacingAll(run.packets) + Full(|run.carry| / 255)
            && carry + data == Flat(run.packets) + run.carry
    decreases |table|
  {
    hide Lacing, Full;
    if table != [] {
      var n := table[0];
      var packet := carry + data[..n];
      assert packet + data[n..] == carry + data;
      assert [n] + table[1..] == table;
      if n < 255 {
        NothingFull();
        Unlaced(table[1..], data[n..], []);
        LacingAfterFull(carry, data[..n]);
        var rest := Reassemble(table[1..], data[n..], []);
        UnlacedPacket(packet, n, |carry| / 255, table[1..], data[n..], rest);
      } else {
        FullNext(|carry| / 255);
        Unlaced(table[1..], data[n..], packet);
        assert Full(|carry| / 255) + table == (Full(|carry| / 255) + [255]) + table[1..];
      }
    } else {
      assert Full(|carry| / 255) + [] == [] + Full(|carry| / 255);
    }
  }

  lemma NothingFull()
    ensures Full(0) == []
  {}

  lemma UnlacedPacket(packet: Packet, n: byte, full: nat, table: seq<byte>, data: seq<byte>, rest: Run)
    requires Lacing(packet) == Full(full) + [n]
    requires Full(0) + table == LacingAll(rest.packets) + Full(|rest.carry| / 255)
    requires [] + data == Flat(rest.packets) + rest.carry
    ensures var packets := [packet] + rest.packets;
            && Full(full) + ([n] + table) == LacingAll(packets) + Full(|rest.carry| / 255)
            && packet + data == Flat(packets) + rest.carry
  {
    hide Lacing, Full, LacingAll, Flat;
    NothingFull();
    PacketAhead(packet, rest.packets);
    assert Full(0) + table == table && [] + data == data;
    assert Full(full) + ([n] + table) == Lacing(packet) + table;
  }

  lemma PacketAhead(packet: Packet, packets: seq<Packet>)
    ensures LacingAll([packet] + packets) == Lacing(packet) + LacingAll(packets)
    ensures Flat([packet] + packets) == packet + Flat(packets)
  {
    hide Lacing;
    assert ([packet] + packets)[1..] == packets;
  }

  lemma {:induction false} FullNext(n: nat)
    ensures Full(n + 1) == Full(n) + [255]
  {
    if n > 0 { FullNext(n - 1); }
  }

  /** The lacing of a packet that goes on after full segments. */
  lemma {:induction false} LacingAfterFull(carry: Packet, part: Packet)
    requires |carry| % 255 == 0 && |part| < 255
    ensures Lacing(carry + part) == Full(|carry| / 255) + [|part|]
    decreases |carry|
  {
    if carry == [] {
      assert carry + part == part;
    } else {
      assert (carry + part)[255..] == carry[255..] + part;
      LacingAfterFull(carry[255..], part);
    }
  }

  // --- Pages --------------------------------------------------------------------------

  /** A page: the header fields the parser does not look at, the segment table, and the data. */
  datatype Page = Page(fields: seq<byte>, table: seq<byte>, data: seq<byte>)

  predicate IsPage(page: Page) {
    |page.fields| == 22 && |page.table| <= 255 && |page.data| == Sum(page.table)
  }

  predicate ArePages(pages: seq<Page>) { forall i :: 0 <= i < |pages| ==> IsPage(pages[i]) }

  function PageBytes(page: Page): seq<byte>
    requires IsPage(page)
  {
    CAPTURE + page.fields + [|page.table|] + page.table + page.data
  }

  function StreamBytes(pages: seq<Page>): seq<byte>
    requires ArePages(pages)
  {
    if pages == [] then [] else PageBytes(pages[0]) + StreamBytes(pages[1..])
  }

  function Tables(pages: seq<Page>): seq<byte> {
    if pages == [] then [] else pages[0].table + Tables(pages[1..])
  }

  function Datas(pages: seq<Page>): seq<byte> {
    if pages == [] then [] else pages[0].data + Datas(pages[1..])
  }

  lemma {:induction false} DatasFit(pages: seq<Page>)
    requires ArePages(pages)
    ensures |Datas(pages)| == Sum(Tables(pages))
  {
    if pages != [] {
      DatasFit(pages[1..]);
      SumJoin(pages[0].table, Tables(pages[1..]));
    }
  }

  lemma PageRead(before: seq<byte>, page: Page, rest: seq<byte>)
    requires IsPage(page)
    ensures ReadPage(before + PageBytes(page) + rest, |before|)
        == GoodPage(page.table, page.data, |before + PageBytes(page)|)
  {
    hide Sum;
    var bytes := before + PageBytes(page) + rest;
    var pos, tableStart := |before|, |before| + HEADER_LEN;
    var tableEnd := tableStart + |page.table|;
    var end := tableEnd + |page.data|;
    assert |PageBytes(page)| == HEADER_LEN + |page.table| + |page.data|;
    assert bytes[pos..pos + 4] == CAPTURE;
    assert bytes[pos + 26] == |page.table|;
    assert bytes[tableStart..tableEnd] == page.table;
    assert bytes[tableEnd..end] == page.data;
  }

  /** The parser gets the segments of all pages, wherever the page boundaries are. */
  lemma {:induction false} PagesRead(before: seq<byte>, pages: seq<Page>)
    requires ArePages(pages)
    ensures ReadPages(before + StreamBytes(pages), |before|) == Segments(Tables(pages), Datas(pages))
    decreases |pages|
  {
    DatasFit(pages);
    if pages != [] {
      hide ReadPage, ReadPages, PageBytes, IsPage, Sum;
      var next, rest := before + PageBytes(pages[0]), StreamBytes(pages[1..]);
      assert before + StreamBytes(pages) == next + rest;
      PageNotEmpty(pages[0]);
      PageRead(before, pages[0], rest);
      FirstPage(next + rest, |before|);
      PagesRead(next, pages[1..]);
    } else {
      NoPages(before);
    }
  }

  lemma NoPages(bytes: seq<byte>)
    ensures ReadPages(bytes + [], |bytes|) == Segments([], [])
  {}

  lemma FirstPage(bytes: seq<byte>, pos: nat)
    requires pos < |bytes| && ReadPage(bytes, pos).GoodPage?
    ensures var page := ReadPage(bytes, pos);
            ReadPages(bytes, pos) == Later(page.table, page.data, ReadPages(bytes, page.end))
  {}

  lemma PageNotEmpty(page: Page)
    requires IsPage(page)
    ensures PageBytes(page) != []
  {}

  // --- Results ------------------------------------------------------------------------

  lemma ParsedPages(pages: seq<Page>)
    requires ArePages(pages)
    ensures |Datas(pages)| == Sum(Tables(pages))
    ensures Parsed(StreamBytes(pages)) == Judge(Reassemble(Tables(pages), Datas(pages), []))
  {
    hide Reassemble, Judge, ReadPages;
    DatasFit(pages);
    PagesRead([], pages);
    assert [] + StreamBytes(pages) == StreamBytes(pages);
    var run := Reassemble(Tables(pages), Datas(pages), []);
    assert [] + run.packets == run.packets;
  }

  /** Packets laced into segments and cut into pages at any segment boundaries: the parser returns
      exactly the playable ones, in order, or reports that there are none. */
  lemma PageBreaksIgnored(pages: seq<Page>, packets: seq<Packet>)
    requires ArePages(pages) && Tables(pages) == LacingAll(packets) && Datas(pages) == Flat(packets)
    ensures Parsed(StreamBytes(pages))
         == if Playable(packets) == [] then Failed(NoPackets) else Packets(Playable(packets))
  {
    hide Reassemble, Playable;
    ParsedPages(pages);
    ReassembleLacingAll(packets);
  }

  /** The playable packets are those that are neither empty nor headers, in order. */
  lemma {:induction false} PlayableExactly(packets: seq<Packet>, packet: Packet)
    ensures packet in Playable(packets) <==>
              && packet in packets && packet != []
              && !([79, 112, 117, 115, 72, 101, 97, 100] <= packet)
              && !([79, 112, 117, 115, 84, 97, 103, 115] <= packet)
  {
    if packets != [] { PlayableExactly(packets[..|packets| - 1], packet); }
  }

  /** A stream that ends within a page is refused, for want of the header, the table, or the data. */
  lemma PartialPageRefused(pages: seq<Page>, page: Page, k: nat)
    requires ArePages(pages) && IsPage(page) && 0 < k < |PageBytes(page)|
    ensures Parsed(StreamBytes(pages) + PageBytes(page)[..k])
         == Failed(if k < 27 then TruncatedHeader else if k < 27 + |page.table| then TruncatedTable else TruncatedData)
  {
    hide ReadPages, PageBytes, IsPage, StreamBytes, Reassemble;
    var part, before := PageBytes(page)[..k], StreamBytes(pages);
    PartialPage(before, page, k);
    assert [] + before == before && [] + before + part == before + part;
    PagesThenBroken([], pages, part, ReadPage(before + part, |before|).failure);
    assert [] + (before + part) == before + part;
  }

  lemma PartialPage(before: seq<byte>, page: Page, k: nat)
    requires IsPage(page) && 0 < k < |PageBytes(page)|
    ensures ReadPage(before + PageBytes(page)[..k], |before|)
         == BadPage(if k < 27 then TruncatedHeader else if k < 27 + |page.table| then TruncatedTable else TruncatedData)
  {
    hide Sum;
    var bytes, pos := before + PageBytes(page)[..k], |before|;
    assert |PageBytes(page)| == HEADER_LEN + |page.table| + |page.data|;
    if k >= 27 {
      assert bytes[pos..pos + 4] == CAPTURE;
      assert bytes[pos + 26] == |page.table|;
      if k >= 27 + |page.table| { assert bytes[pos + 27..pos + 27 + |page.table|] == page.table; }
    }
  }

  /** Something that is no page after whole pages is what the parser reports. */
  lemma {:induction false} PagesThenBroken(before: seq<byte>, pages: seq<Page>, part: seq<byte>, failure: Failure)
    requires ArePages(pages) && part != []
    requires ReadPage(before + StreamBytes(pages) + part, |before + StreamBytes(pages)|) == BadPage(failure)
    ensures ReadPages(before + (StreamBytes(pages) + part), |before|) == Broken(failure)
    decreases |pages|
  {
    hide ReadPage, PageBytes, IsPage, Sum;
    assert before + (StreamBytes(pages) + part) == before + StreamBytes(pages) + part;
    if pages == [] {
      assert before + [] == before;
    } else {
      var next, rest := before + PageBytes(pages[0]), StreamBytes(pages[1..]);
      assert before + StreamBytes(pages) + part == next + (rest + part);
      assert before + StreamBytes(pages) == next + rest;
      PageNotEmpty(pages[0]);
      PageRead(before, pages[0], rest + part);
      FirstPage(next + (rest + part), |before|);
      PagesThenBroken(next, pages[1..], part, failure);
    }
  }

  /** Bytes that do not begin with the capture pattern are no stream. */
  lemma CaptureNeeded(bytes: seq<byte>)
    requires |bytes| >= 27 && bytes[..4] != [79, 103, 103, 83]
    ensures Parsed(bytes) == Failed(BadCapture)
  {}

  /** The stream of an Opus file: two header packets, then audio. The parser returns the audio. */
  lemma HeadersSkipped(pages: seq<Page>, head: Packet, tags: Packet, audio: seq<Packet>)
    requires ArePages(pages)
    requires Tables(pages) == LacingAll([head, tags] + audio) && Datas(pages) == Flat([head, tags] + audio)
    requires |head| >= 8 && head[..8] == [79, 112, 117, 115, 72, 101, 97, 100]
    requires |tags| >= 8 && tags[..8] == [79, 112, 117, 115, 84, 97, 103, 115]
    requires audio != [] && forall i :: 0 <= i < |audio| ==> audio[i] != [] && audio[i][0] != 79
    ensures Parsed(StreamBytes(pages)) == Packets(audio)
  {
    hide Parsed, StreamBytes, LacingAll, Flat, Playable;
    PageBreaksIgnored(pages, [head, tags] + audio);
    AudioPlayable([head, tags], audio);
    var none: seq<Packet> := [];
    assert [head] == none + [head] && [head, tags] == [head] + [tags];
    PlayableStep(none, head);
    PlayableStep([head], tags);
    NothingPlayable();
  }

  lemma NothingPlayable()
    ensures Playable([]) == []
  {}

  lemma {:induction false} AudioPlayable(front: seq<Packet>, audio: seq<Packet>)
    requires forall i :: 0 <= i < |audio| ==> audio[i] != [] && audio[i][0] != 79
    ensures Playable(front + audio) == Playable(front) + audio
  {
    if audio == [] {
      assert front + audio == front;
    } else {
      hide Playable, IsPlayable;
      var before, last := audio[..|audio| - 1], audio[|audio| - 1];
      AudioPlayable(front, before);
      assert front + audio == (front + before) + [last] && audio == before + [last];
      PlayableStep(front + before, last);
      AudioIsPlayable(last);
    }
  }

  lemma AudioIsPlayable(packet: Packet)
    requires packet != [] && packet[0] != 79
    ensures IsPlayable(packet)
  {}

  /** A stream of whole pages is refused as truncated exactly when its segments do not end with a
      finished packet; otherwise they are the lacing of some packets. */
  lemma TruncatedExactly(pages: seq<Page>)
    requires ArePages(pages)
    ensures Parsed(StreamBytes(pages)) == Failed(TruncatedPacket)
        <==> Tables(pages) != [] && Tables(pages)[|Tables(pages)| - 1] == 255
  {
    hide Reassemble, Playable;
    ParsedPages(pages);
    var table, data := Tables(pages), Datas(pages);
    Unlaced(table, data, []);
    NothingFull();
    var run := Reassemble(table, data, []);
    var full := |run.carry| / 255;
    assert table == LacingAll(run.packets) + Full(full);
    if full > 0 {
      FullNext(full - 1);
    } else {
      assert table == LacingAll(run.packets);
      LacingEndsShort(run.packets);
    }
  }

  lemma {:induction false} LacingEndsShort(packets: seq<Packet>)
    ensures LacingAll(packets) != [] ==> LacingAll(packets)[|LacingAll(packets)| - 1] < 255
  {
    if packets != [] {
      PacketEndsShort(packets[0]);
      LacingEndsShort(packets[1..]);
    }
  }

  lemma {:induction false} PacketEndsShort(packet: Packet)
    ensures Lacing(packet) != [] && Lacing(packet)[|Lacing(packet)| - 1] < 255
  {
    if |packet| >= 255 { PacketEndsShort(packet[255..]); }
  }
}
