/** Merging of small packets into datagrams and splitting them again. */
module Merge {
  import opened Bits
  import opened Wire
  import opened Wrappers

  const MAX_MERGED_PACKET_SIZE: int := 1200

  type Packet = seq<byte>

  function Frame(p: Packet): (f: seq<byte>)
    requires |p| < 65536
    ensures |f| == 2 + |p|
  {
    U16Bytes(|p|) + p
  }

  predicate Frameable(ps: seq<Packet>) {
    forall i :: 0 <= i < |ps| ==> |ps[i]| < 65536
  }

  function Frames(ps: seq<Packet>): seq<byte>
    requires Frameable(ps)
  {
    if ps == [] then [] else Frame(ps[0]) + Frames(ps[1..])
  }

  function Wrap(connectionNumber: nat, ps: seq<Packet>): seq<byte>
    requires connectionNumber < 4 && Frameable(ps)
  {
    [Header(MERGED, connectionNumber)] + Frames(ps)
  }

  /** Length of the merged datagram of a group. */
  function Size(ps: seq<Packet>): nat {
    if ps == [] then 1 else Size(ps[..|ps| - 1]) + 2 + |ps[|ps| - 1]|
  }

  /** A group may share a datagram; a packet alone always may, since it goes out unwrapped. */
  predicate Fits(ps: seq<Packet>) {
    |ps| == 1 || Size(ps) <= MAX_MERGED_PACKET_SIZE
  }

  // --- Splitting ----------------------------------------------------------------------

  /** The receiver's walk over a merged datagram from position `pos` on. */
  function SplitFrom(bytes: seq<byte>, pos: nat): seq<Packet>
    decreases |bytes| - pos
  {
    if pos + 2 > |bytes| then []
    else
      var size := U16At(bytes, pos);
      if size == 0 || pos + 2 + size > |bytes| then []
      else [bytes[pos + 2..pos + 2 + size]] + SplitFrom(bytes, pos + 2 + size)
  }

  /** The packets a receiver handles for one datagram. */
  function Receive(datagram: seq<byte>): seq<Packet> {
    if datagram != [] && PropertyOf(datagram[0]) == MERGED then SplitFrom(datagram, 1) else [datagram]
  }

  function ReceiveAll(datagrams: seq<seq<byte>>): seq<Packet> {
    if datagrams == [] then [] else Receive(datagrams[0]) + ReceiveAll(datagrams[1..])
  }

  /** The receiver's loop. */
  method SplitMerged(bytes: seq<byte>) returns (packets: seq<Packet>)
    ensures packets == SplitFrom(bytes, 1)
  {
    hide U16At;
    packets := [];
    var pos := 1;
    while pos + 2 <= |bytes|
      invariant 1 <= pos
      invariant packets + SplitFrom(bytes, pos) == SplitFrom(bytes, 1)
      decreases |bytes| - pos
    {
      var size := U16At(bytes, pos);
      if size == 0 || pos + 2 + size > |bytes| { return; }
      packets := packets + [bytes[pos + 2..pos + 2 + size]];
      pos := pos + 2 + size;
    }
  }

  lemma {:induction false} FramesAppend(ps: seq<Packet>, p: Packet)
    requires Frameable(ps) && |p| < 65536
    ensures Frameable(ps + [p]) && Frames(ps + [p]) == Frames(ps) + Frame(p)
  {
    hide Frame;
    if ps == [] {
      assert ([] + [p])[1..] == [];
      assert Frames([p]) == Frame(p) + Frames([]);
    } else {
      assert (ps + [p])[1..] == ps[1..] + [p];
      FramesAppend(ps[1..], p);
    }
  }

  lemma {:induction false} FramesSize(ps: seq<Packet>)
    requires Frameable(ps)
    ensures 1 + |Frames(ps)| == Size(ps)
  {
    if ps != [] {
      var front, last := ps[..|ps| - 1], ps[|ps| - 1];
      FramesSize(front);
      FramesAppend(front, last);
      assert front + [last] == ps;
    }
  }

  /** One turn of the walk takes the packet of one frame. */
  lemma SplitOne(head: seq<byte>, p: Packet, rest: seq<byte>)
    requires p != [] && |p| < 65536
    ensures SplitFrom((head + Frame(p)) + rest, |head|) == [p] + SplitFrom((head + Frame(p)) + rest, |head + Frame(p)|)
  {
    hide U16At, Frame;
    FrameAt(head, p, rest);
  }

  lemma FrameAt(head: seq<byte>, p: Packet, rest: seq<byte>)
    requires |p| < 65536
    ensures var bytes := (head + Frame(p)) + rest;
            U16At(bytes, |head|) == |p| && bytes[|head| + 2..|head| + 2 + |p|] == p
  {
    var bytes := (head + Frame(p)) + rest;
    hide U16Bytes, U16At;
    U16RoundTrip(head, |p|, p + rest);
    assert bytes == head + U16Bytes(|p|) + (p + rest);
    assert bytes[|head| + 2..|head| + 2 + |p|] == p;
  }

  /** Walking over the frames of non-empty packets gives the packets back. */
  lemma {:induction false} SplitFrames(head: seq<byte>, ps: seq<Packet>)
    requires Frameable(ps)
    requires forall i :: 0 <= i < |ps| ==> ps[i] != []
    ensures SplitFrom(head + Frames(ps), |head|) == ps
    decreases |ps|
  {
    if ps != [] {
      hide SplitFrom, Frame;
      var next := head + Frame(ps[0]);
      assert head + Frames(ps) == next + Frames(ps[1..]);
      SplitOne(head, ps[0], Frames(ps[1..]));
      SplitFrames(next, ps[1..]);
      assert ps == [ps[0]] + ps[1..];
    }
  }

  /** The bytes hold no whole frame of a packet: too few for a length, a length of zero, or too few after it. */
  predicate NoFrame(bytes: seq<byte>) {
    |bytes| < 2 || U16At(bytes, 0) == 0 || |bytes| < 2 + U16At(bytes, 0)
  }

  /** The walk takes frames as long as there are any: what it found, framed again, followed by bytes
      that hold no frame, is what it walked over. */
  lemma {:induction false} SplitExactly(bytes: seq<byte>, pos: nat)
    requires pos <= |bytes|
    ensures var ps := SplitFrom(bytes, pos);
            && Frameable(ps) && (forall i :: 0 <= i < |ps| ==> ps[i] != [])
            && Frames(ps) <= bytes[pos..] && NoFrame(bytes[pos + |Frames(ps)|..])
    decreases |bytes| - pos
  {
    hide U16At, U16Bytes;
    var rest := bytes[pos..];
    if |rest| >= 2 {
      FieldThere(bytes, pos);
      var size := U16At(bytes, pos);
      if size > 0 && pos + 2 + size <= |bytes| {
        SplitExactly(bytes, pos + 2 + size);
        var p := bytes[pos + 2..pos + 2 + size];
        var ps := SplitFrom(bytes, pos + 2 + size);
        assert ([p] + ps)[1..] == ps;
        assert Frame(p) == bytes[pos..pos + 2 + size];
        assert rest == Frame(p) + bytes[pos + 2 + size..];
      }
    }
  }

  lemma FieldThere(bytes: seq<byte>, pos: nat)
    requires pos + 2 <= |bytes|
    ensures U16At(bytes[pos..], 0) == U16At(bytes, pos)
    ensures U16Bytes(U16At(bytes, pos)) == bytes[pos..pos + 2]
  {}

  // --- Grouping -----------------------------------------------------------------------

  /** Where the datagram that starts with packet `i` and already holds the packets up to `e` ends. */
  function NextCut(ps: seq<Packet>, i: nat, e: nat): (cut: nat)
    requires i <= e <= |ps|
    ensures e <= cut <= |ps| && (i < |ps| ==> i < cut)
    decreases |ps| - e
  {
    if e == |ps| then e
    else if e > i && Size(ps[i..e]) + 2 + |ps[e]| > MAX_MERGED_PACKET_SIZE then e
    else if 3 + |ps[e]| > MAX_MERGED_PACKET_SIZE then e + 1
    else NextCut(ps, i, e + 1)
  }

  /** The groups from packet `i` on. */
  function Groups(ps: seq<Packet>, i: nat): seq<seq<Packet>>
    requires i <= |ps|
    decreases |ps| - i
  {
    if i == |ps| then [] else [ps[i..NextCut(ps, i, i)]] + Groups(ps, NextCut(ps, i, i))
  }

  function Emit(connectionNumber: nat, group: seq<Packet>): seq<byte>
    requires connectionNumber < 4 && Fits(group)
  {
    if |group| == 1 then group[0] else FittingFrameable(group); Wrap(connectionNumber, group)
  }

  lemma {:induction false} FittingFrameable(group: seq<Packet>)
    requires Size(group) <= MAX_MERGED_PACKET_SIZE
    ensures Frameable(group)
  {
    if group != [] {
      FittingFrameable(group[..|group| - 1]);
    }
  }

  function EmitAll(connectionNumber: nat, groups: seq<seq<Packet>>): seq<seq<byte>>
    requires connectionNumber < 4
    requires forall j :: 0 <= j < |groups| ==> Fits(groups[j])
  {
    if groups == [] then [] else [Emit(connectionNumber, groups[0])] + EmitAll(connectionNumber, groups[1..])
  }

  lemma SizeStep(ps: seq<Packet>, i: nat, e: nat)
    requires i <= e < |ps|
    ensures Size(ps[i..e + 1]) == Size(ps[i..e]) + 2 + |ps[e]|
  {
    assert ps[i..e + 1][..e - i] == ps[i..e];
  }

  lemma SizeOfOne(p: Packet)
    ensures Size([p]) == 3 + |p|
  {}

  /** A cut is maximal: the group fits, and with one more packet it would not. */
  lemma {:induction false} CutMaximal(ps: seq<Packet>, i: nat, e: nat)
    requires i <= e <= |ps| && i < |ps|
    requires e == i || Size(ps[i..e]) <= MAX_MERGED_PACKET_SIZE
    ensures var cut := NextCut(ps, i, e);
            && Fits(ps[i..cut])
            && (cut == |ps| || (!Fits(ps[i..cut + 1]) && |ps[i..cut + 1]| > 1))
    decreases |ps| - e
  {
    if e < |ps| {
      SizeStep(ps, i, e);
      if e > i && Size(ps[i..e]) + 2 + |ps[e]| > MAX_MERGED_PACKET_SIZE {
      } else if 3 + |ps[e]| > MAX_MERGED_PACKET_SIZE {
        if e + 1 < |ps| {
          assert ps[i..e] == [];
          SizeStep(ps, i, e + 1);
        }
      } else {
        assert e == i ==> ps[i..e] == [];
        CutMaximal(ps, i, e + 1);
      }
    }
  }

  lemma SizePositive(ps: seq<Packet>)
    ensures Size(ps) >= 1
  {}

  lemma {:induction false} GroupsFit(ps: seq<Packet>, i: nat)
    requires i <= |ps|
    ensures forall j :: 0 <= j < |Groups(ps, i)| ==> Fits(Groups(ps, i)[j]) && Groups(ps, i)[j] != []
    decreases |ps| - i
  {
    if i < |ps| {
      CutMaximal(ps, i, i);
      GroupsFit(ps, NextCut(ps, i, i));
    }
  }

  lemma {:induction false} GroupsFlat(ps: seq<Packet>, i: nat)
    requires i <= |ps|
    ensures Flat(Groups(ps, i)) == ps[i..]
    decreases |ps| - i
  {
    if i < |ps| {
      var cut := NextCut(ps, i, i);
      GroupsFlat(ps, cut);
      assert ps[i..] == ps[i..cut] + ps[cut..];
    }
  }

  /** The datagrams for a list of packets. */
  function Datagrams(connectionNumber: nat, ps: seq<Packet>): seq<seq<byte>>
    requires connectionNumber < 4
  {
    GroupsFit(ps, 0);
    EmitAll(connectionNumber, Groups(ps, 0))
  }

  // --- Guarantees ---------------------------------------------------------------------

  /** Packets that receivers do not take for merged datagrams or for the end of one. */
  predicate Plain(ps: seq<Packet>) {
    forall i :: 0 <= i < |ps| ==> ps[i] != [] && PropertyOf(ps[i][0]) != MERGED
  }

  lemma EmitReceived(connectionNumber: nat, group: seq<Packet>)
    requires connectionNumber < 4 && Fits(group) && group != [] && Plain(group)
    ensures Receive(Emit(connectionNumber, group)) == group
  {
    if |group| > 1 {
      FittingFrameable(group);
      HeaderRead(MERGED, connectionNumber);
      SplitFrames([Header(MERGED, connectionNumber)], group);
    }
  }

  lemma {:induction false} EmitAllReceived(connectionNumber: nat, groups: seq<seq<Packet>>)
    requires connectionNumber < 4
    requires forall j :: 0 <= j < |groups| ==> Fits(groups[j]) && groups[j] != [] && Plain(groups[j])
    ensures ReceiveAll(EmitAll(connectionNumber, groups)) == Flat(groups)
  {
    if groups != [] {
      EmitReceived(connectionNumber, groups[0]);
      EmitAllReceived(connectionNumber, groups[1..]);
      var all := EmitAll(connectionNumber, groups);
      assert all[0] == Emit(connectionNumber, groups[0]) && all[1..] == EmitAll(connectionNumber, groups[1..]);
    }
  }

  lemma {:induction false} PartsPlain(groups: seq<seq<Packet>>)
    requires Plain(Flat(groups))
    ensures forall j :: 0 <= j < |groups| ==> Plain(groups[j])
  {
    if groups != [] {
      var flat := Flat(groups);
      assert groups[0] == flat[..|groups[0]|] && Flat(groups[1..]) == flat[|groups[0]|..];
      PartsPlain(groups[1..]);
    }
  }

  /** Splitting what was merged returns the packets, all of them, in order. */
  lemma MergeRoundTrip(connectionNumber: nat, ps: seq<Packet>)
    requires connectionNumber < 4 && Plain(ps)
    ensures ReceiveAll(Datagrams(connectionNumber, ps)) == ps
  {
    GroupsFit(ps, 0);
    GroupsFlat(ps, 0);
    assert ps[0..] == ps;
    PartsPlain(Groups(ps, 0));
    EmitAllReceived(connectionNumber, Groups(ps, 0));
  }

  /** What is sent for a group is no longer than 1200 bytes, except a lone packet too long to be wrapped. */
  lemma {:induction false} GroupSizes(connectionNumber: nat, groups: seq<seq<Packet>>, j: nat)
    requires connectionNumber < 4
    requires forall i :: 0 <= i < |groups| ==> Fits(groups[i])
    requires j < |groups|
    ensures |EmitAll(connectionNumber, groups)| == |groups|
    ensures var d := EmitAll(connectionNumber, groups)[j];
            |d| <= MAX_MERGED_PACKET_SIZE || (groups[j] == [d] && |d| > MAX_MERGED_PACKET_SIZE - 3)
  {
    EmitCount(connectionNumber, groups);
    if j == 0 {
      if |groups[0]| != 1 {
        FittingFrameable(groups[0]);
        FramesSize(groups[0]);
      }
    } else {
      GroupSizes(connectionNumber, groups[1..], j - 1);
    }
  }

  /** No datagram is longer than 1200 bytes, except a packet too long to be wrapped, which goes as it is. */
  lemma DatagramSizes(connectionNumber: nat, ps: seq<Packet>, d: seq<byte>)
    requires connectionNumber < 4 && d in Datagrams(connectionNumber, ps)
    ensures |d| <= MAX_MERGED_PACKET_SIZE || (d in ps && |d| > MAX_MERGED_PACKET_SIZE - 3)
  {
    hide Fits, Emit, Groups;
    var groups := Groups(ps, 0);
    GroupsFit(ps, 0);
    EmitCount(connectionNumber, groups);
    var j :| 0 <= j < |Datagrams(connectionNumber, ps)| && Datagrams(connectionNumber, ps)[j] == d;
    GroupSizes(connectionNumber, groups, j);
    if groups[j] == [d] {
      assert d in groups[j];
      GroupsFlat(ps, 0);
      InFlat(groups, j, d);
    }
  }

  lemma {:induction false} InFlat(groups: seq<seq<Packet>>, j: nat, p: Packet)
    requires j < |groups| && p in groups[j]
    ensures p in Flat(groups)
  {
    if j > 0 { InFlat(groups[1..], j - 1, p); }
  }

  lemma {:induction false} EmitCount(connectionNumber: nat, groups: seq<seq<Packet>>)
    requires connectionNumber < 4
    requires forall i :: 0 <= i < |groups| ==> Fits(groups[i])
    ensures |EmitAll(connectionNumber, groups)| == |groups|
  {
    if groups != [] { EmitCount(connectionNumber, groups[1..]); }
  }

  lemma {:induction false} SizeGrows(ps: seq<Packet>, i: nat, e: nat, f: nat)
    requires i <= e <= f <= |ps|
    ensures Size(ps[i..e]) <= Size(ps[i..f])
    decreases f - e
  {
    if e < f {
      SizeGrows(ps, i, e, f - 1);
      SizeStep(ps, i, f - 1);
    }
  }

  lemma {:induction false} SizeShrinks(ps: seq<Packet>, i: nat, j: nat, e: nat)
    requires i <= j <= e <= |ps|
    ensures Size(ps[j..e]) <= Size(ps[i..e])
    decreases e
  {
    if j < e {
      SizeShrinks(ps, i, j, e - 1);
      SizeStep(ps, i, e - 1);
      SizeStep(ps, j, e - 1);
    } else {
      assert ps[j..e] == [];
      SizePositive(ps[i..e]);
    }
  }

  /** A later start never ends earlier. */
  lemma CutsMonotone(ps: seq<Packet>, i: nat, j: nat)
    requires i <= j < |ps|
    ensures NextCut(ps, i, i) <= NextCut(ps, j, j)
  {
    var a, b := NextCut(ps, i, i), NextCut(ps, j, j);
    CutMaximal(ps, i, i);
    CutMaximal(ps, j, j);
    if b < a {
      SizeShrinks(ps, i, j, b + 1);
      SizeGrows(ps, i, b + 1, a);
      assert false;
    }
  }

  lemma {:induction false} FewerFromLater(ps: seq<Packet>, i: nat, j: nat)
    requires i <= j <= |ps|
    ensures |Groups(ps, j)| <= |Groups(ps, i)|
    decreases |ps| - i
  {
    if i < j < |ps| {
      CutsMonotone(ps, i, j);
      FewerFromLater(ps, NextCut(ps, i, i), NextCut(ps, j, j));
    }
  }

  /** The groups from packet `i` on are as few as in any other way to cut the packets. */
  lemma {:induction false} GroupsOptimal(ps: seq<Packet>, i: nat, groups: seq<seq<Packet>>)
    requires i <= |ps| && Flat(groups) == ps[i..]
    requires forall j :: 0 <= j < |groups| ==> Fits(groups[j]) && groups[j] != []
    ensures |Groups(ps, i)| <= |groups|
    decreases |groups|
  {
    if groups != [] {
      var e := i + |groups[0]|;
      assert groups[0] == Flat(groups)[..|groups[0]|] == ps[i..e];
      assert Flat(groups[1..]) == ps[e..];
      GroupsOptimal(ps, e, groups[1..]);
      CutMaximal(ps, i, i);
      var cut := NextCut(ps, i, i);
      if cut < e {
        SizeGrows(ps, i, cut + 1, e);
        assert false;
      }
      FewerFromLater(ps, e, cut);
    }
  }

  /** The number of datagrams is the least over all ways to cut the packets, in order, into
      groups that may share a datagram. */
  lemma MergeOptimal(connectionNumber: nat, ps: seq<Packet>, groups: seq<seq<Packet>>)
    requires connectionNumber < 4 && Flat(groups) == ps
    requires forall j :: 0 <= j < |groups| ==> Fits(groups[j]) && groups[j] != []
    ensures |Datagrams(connectionNumber, ps)| <= |groups|
  {
    GroupsFit(ps, 0);
    EmitCount(connectionNumber, Groups(ps, 0));
    assert ps[0..] == ps;
    GroupsOptimal(ps, 0, groups);
  }

  // --- The sender's loop --------------------------------------------------------------

  lemma WrapAppend(connectionNumber: nat, ps: seq<Packet>, i: nat, e: nat)
    requires connectionNumber < 4 && i <= e < |ps|
    requires Frameable(ps[i..e]) && |ps[e]| < 65536
    ensures Frameable(ps[i..e + 1])
    ensures Wrap(connectionNumber, ps[i..e + 1]) == Wrap(connectionNumber, ps[i..e]) + Frame(ps[e])
  {
    FramesAppend(ps[i..e], ps[e]);
    assert ps[i..e + 1] == ps[i..e] + [ps[e]];
  }

  lemma WrapSize(connectionNumber: nat, ps: seq<Packet>)
    requires connectionNumber < 4 && Frameable(ps)
    ensures |Wrap(connectionNumber, ps)| == Size(ps)
  {
    FramesSize(ps);
  }

  /** Takes the only packet out of a wrapped datagram. */
  function UnpackSingle(merged: seq<byte>): seq<byte> {
    if |merged| < 3 then merged
    else
      var size := U16At(merged, 1);
      if |merged| < 3 + size then merged else merged[3..3 + size]
  }

  lemma UnpacksSingle(connectionNumber: nat, p: Packet)
    requires connectionNumber < 4 && |p| < 65536
    ensures UnpackSingle(Wrap(connectionNumber, [p])) == p
  {}

  /** What the loop sends for the packets collected so far. */
  function Flushed(current: seq<byte>, currentCount: nat): seq<byte> {
    if currentCount == 1 then UnpackSingle(current) else current
  }

  lemma {:induction false} FlushedIsEmit(connectionNumber: nat, group: seq<Packet>)
    requires connectionNumber < 4 && group != []
    requires Size(group) <= MAX_MERGED_PACKET_SIZE && Frameable(group)
    ensures Flushed(Wrap(connectionNumber, group), |group|) == Emit(connectionNumber, group)
  {}

  /** What is already sent, followed by what the rest will give, is the whole result. */
  ghost predicate Progress(connectionNumber: nat, ps: seq<Packet>, sent: seq<seq<byte>>, start: nat)
    requires connectionNumber < 4 && start <= |ps|
  {
    GroupsFit(ps, start);
    sent + EmitAll(connectionNumber, Groups(ps, start)) == Datagrams(connectionNumber, ps)
  }

  lemma ProgressStep(connectionNumber: nat, ps: seq<Packet>, sent: seq<seq<byte>>, start: nat, cut: nat)
    requires connectionNumber < 4 && start < |ps| && cut == NextCut(ps, start, start)
    requires Progress(connectionNumber, ps, sent, start)
    ensures Fits(ps[start..cut])
    ensures Progress(connectionNumber, ps, sent + [Emit(connectionNumber, ps[start..cut])], cut)
  {
    GroupsFit(ps, start);
    GroupsFit(ps, cut);
    CutMaximal(ps, start, start);
    var groups := Groups(ps, start);
    assert groups[0] == ps[start..cut] && groups[1..] == Groups(ps, cut);
  }

  /** The packets collected since the last flush: those from `start` up to `i`. */
  ghost predicate Collected(
      connectionNumber: nat, ps: seq<Packet>, start: nat, i: nat, current: seq<byte>, currentCount: nat)
    requires connectionNumber < 4
  {
    && start <= i <= |ps| && currentCount == i - start
    && Frameable(ps[start..i]) && current == Wrap(connectionNumber, ps[start..i])
    && (start < i ==> Size(ps[start..i]) <= MAX_MERGED_PACKET_SIZE)
    && NextCut(ps, start, start) == NextCut(ps, start, i)
  }

  lemma EmptyCollected(connectionNumber: nat, ps: seq<Packet>, i: nat)
    requires connectionNumber < 4 && i <= |ps|
    ensures Collected(connectionNumber, ps, i, i, [Header(MERGED, connectionNumber)], 0)
  {}

  method BuildMergedDatagrams(connectionNumber: nat, packets: seq<Packet>) returns (datagrams: seq<seq<byte>>)
    requires connectionNumber < 4
    ensures datagrams == Datagrams(connectionNumber, packets)
  {
    if |packets| <= 1 {
      SmallBatch(connectionNumber, packets);
      return packets;
    }
    datagrams := MergePackets(connectionNumber, packets);
  }

  /** The loop over several packets. */
  method MergePackets(connectionNumber: nat, packets: seq<Packet>) returns (datagrams: seq<seq<byte>>)
    requires connectionNumber < 4
    ensures datagrams == Datagrams(connectionNumber, packets)
  {
    hide Datagrams, Progress, EmitAll, Emit, Groups, NextCut, Wrap, Frame, Frameable, Size, Flushed;
    datagrams := [];
    var current := [Header(MERGED, connectionNumber)];
    var currentCount := 0;
    ghost var start := 0;
    StartProgress(connectionNumber, packets);
    EmptyCollected(connectionNumber, packets, 0);
    for i := 0 to |packets|
      invariant Collected(connectionNumber, packets, start, i, current, currentCount)
      invariant Progress(connectionNumber, packets, datagrams, start)
    {
      var packet := packets[i];
      var framedLen := 2 + |packet|;
      WrapSize(connectionNumber, packets[start..i]);
      SizePositive(packets[start..i]);
      if currentCount > 0 && |current| + framedLen > MAX_MERGED_PACKET_SIZE {
        FlushStep(connectionNumber, packets, datagrams, start, i);
        FlushedIsEmit(connectionNumber, packets[start..i]);
        datagrams := datagrams + [Flushed(current, currentCount)];
        current := [Header(MERGED, connectionNumber)];
        currentCount := 0;
        start := i;
        EmptyCollected(connectionNumber, packets, i);
      }
      if framedLen + 1 > MAX_MERGED_PACKET_SIZE {
        // Nothing is collected here: a packet this long has made the branch above flush.
        LonePacket(connectionNumber, packets, datagrams, start, i);
        datagrams := datagrams + [packet];
        start := i + 1;
        EmptyCollected(connectionNumber, packets, i + 1);
      } else {
        CollectStep(connectionNumber, packets, start, i, current, currentCount);
        current := current + U16Bytes(|packet|) + packet;
        currentCount := currentCount + 1;
      }
    }
    LastStep(connectionNumber, packets, datagrams, start);
    if currentCount >= 1 {
      assert packets[start..|packets|] == packets[start..];
      FlushedIsEmit(connectionNumber, packets[start..]);
      datagrams := datagrams + [Flushed(current, currentCount)];
    }
  }

  lemma StartProgress(connectionNumber: nat, ps: seq<Packet>)
    requires connectionNumber < 4
    ensures Progress(connectionNumber, ps, [], 0)
  {}

  lemma SmallBatch(connectionNumber: nat, ps: seq<Packet>)
    requires connectionNumber < 4 && |ps| <= 1
    ensures ps == Datagrams(connectionNumber, ps)
  {
    GroupsFit(ps, 0);
    if |ps| == 1 {
      assert NextCut(ps, 0, 0) == 1 && ps[0..1] == ps;
      assert Groups(ps, 1) == [];
      assert Groups(ps, 0) == [ps];
      assert [ps][1..] == [];
      assert EmitAll(connectionNumber, [ps]) == [ps[0]];
    }
  }

  lemma FlushStep(connectionNumber: nat, ps: seq<Packet>, sent: seq<seq<byte>>, start: nat, i: nat)
    requires connectionNumber < 4 && start < i < |ps|
    requires NextCut(ps, start, start) == NextCut(ps, start, i)
    requires Size(ps[start..i]) + 2 + |ps[i]| > MAX_MERGED_PACKET_SIZE
    requires Progress(connectionNumber, ps, sent, start)
    ensures Fits(ps[start..i])
    ensures Progress(connectionNumber, ps, sent + [Emit(connectionNumber, ps[start..i])], i)
  {
    ProgressStep(connectionNumber, ps, sent, start, i);
  }

  lemma LonePacket(connectionNumber: nat, ps: seq<Packet>, sent: seq<seq<byte>>, start: nat, i: nat)
    requires connectionNumber < 4 && start == i < |ps|
    requires 3 + |ps[i]| > MAX_MERGED_PACKET_SIZE
    requires Progress(connectionNumber, ps, sent, start)
    ensures Progress(connectionNumber, ps, sent + [ps[i]], i + 1)
  {}

  lemma CollectStep(connectionNumber: nat, ps: seq<Packet>, start: nat, i: nat, current: seq<byte>, currentCount: nat)
    requires connectionNumber < 4 && i < |ps|
    requires Collected(connectionNumber, ps, start, i, current, currentCount)
    requires start == i || Size(ps[start..i]) + 2 + |ps[i]| <= MAX_MERGED_PACKET_SIZE
    requires 3 + |ps[i]| <= MAX_MERGED_PACKET_SIZE
    ensures Collected(connectionNumber, ps, start, i + 1, current + U16Bytes(|ps[i]|) + ps[i], currentCount + 1)
  {
    WrapAppend(connectionNumber, ps, start, i);
    SizeStep(ps, start, i);
    if start == i { assert ps[start..i] == []; }
    assert current + U16Bytes(|ps[i]|) + ps[i] == current + Frame(ps[i]);
  }

  lemma {:induction false} LastStep(connectionNumber: nat, ps: seq<Packet>, sent: seq<seq<byte>>, start: nat)
    requires connectionNumber < 4 && start <= |ps|
    requires NextCut(ps, start, start) == NextCut(ps, start, |ps|)
    requires Progress(connectionNumber, ps, sent, start)
    ensures start == |ps| ==> sent == Datagrams(connectionNumber, ps)
    ensures start < |ps| ==>
              && Fits(ps[start..])
              && sent + [Emit(connectionNumber, ps[start..])] == Datagrams(connectionNumber, ps)
  {
    if start < |ps| {
      ProgressStep(connectionNumber, ps, sent, start, |ps|);
      assert ps[start..|ps|] == ps[start..];
    }
  }
}
