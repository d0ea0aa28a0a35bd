/** The growing writer and the advancing reader that the ready message goes through. */
module ReadyIo {
  import opened Bits
  import opened Wire
  import opened Wrappers
  import opened ReadyCodec

  class NetWriter {
    var data: seq<byte>

    constructor ()
      ensures data == []
    {
      data := [];
    }

    method PutU8(v: byte)
      modifies this
      ensures data == old(data) + [v]
    {
      data := data + [v];
    }

    method PutU16(v: nat)
      requires v < 65536
      modifies this
      ensures data == old(data) + U16Bytes(v)
    {
      data := data + U16Bytes(v);
    }

    method PutBytes(s: seq<byte>)
      modifies this
      ensures data == old(data) + s
    {
      data := data + s;
    }

    method PutText(s: seq<byte>)
      requires |s| < 65535
      modifies this
      ensures data == old(data) + PutString(s)
    {
      hide U16Bytes;
      if s == [] {
        PutU16(0);
        return;
      }
      PutU16(|s| + 1);
      PutBytes(s);
    }

    method PutMeta(m: MetaData)
      requires FitsMeta(m)
      modifies this
      ensures data == old(data) + EncodeMeta(m)
    {
      hide PutString;
      PutText(NonEmptyOrFailure(m.uuid));
      PutText(NonEmptyOrFailure(m.displayName));
      PutText(NonEmptyOrFailure(m.platform));
    }

    method PutChange(c: AvatarChange)
      requires |c.bytes| < 65536
      modifies this
      ensures data == old(data) + EncodeChange(c)
    {
      hide U16Bytes;
      PutU8(c.loadMode);
      PutU16(|c.bytes|);
      PutBytes(c.bytes);
      PutU8(c.localIndex);
    }

    method PutAdditional(a: Additional)
      modifies this
      ensures data == old(data) + EncodeAdditional(a)
    {
      var len := if |a.data| < 255 then |a.data| else 255;
      PutU8(len);
      if len > 0 {
        PutU8(a.messageIndex);
        PutBytes(a.data[..len]);
      }
    }

    method PutSync(s: AvatarSync)
      requires |s.additional| <= 255
      modifies this
      ensures data == old(data) + EncodeSync(s)
    {
      hide EncodeAdditional, EncodeAll;
      PutU8(s.quality);
      PutBytes(s.payload);
      PutU8(|s.additional|);
      if s.additional != [] {
        PutU8(s.linkedIndex);
        ghost var before := data;
        AllBegin(s.additional);
        for i := 0 to |s.additional|
          invariant data == before + EncodeAll(s.additional[..i])
        {
          AllNext(s.additional, i);
          PutAdditional(s.additional[i]);
        }
        assert s.additional[..|s.additional|] == s.additional;
      }
    }

    method PutReady(m: Ready)
      requires Fits(m)
      modifies this
      ensures data == old(data) + Encode(m)
    {
      hide EncodeMeta, EncodeChange, EncodeSync;
      PutMeta(m.meta);
      PutChange(m.change);
      PutSync(m.sync);
    }
  }

  lemma AllBegin(items: seq<Additional>)
    ensures EncodeAll(items[..0]) == []
  {}

  lemma AllNext(items: seq<Additional>, i: nat)
    requires i < |items|
    ensures EncodeAll(items[..i + 1]) == EncodeAll(items[..i]) + EncodeAdditional(items[i])
  {
    EncodeAllAppend(items[..i], items[i]);
    assert items[..i + 1] == items[..i] + [items[i]];
  }

  lemma {:induction false} EncodeAllAppend(items: seq<Additional>, item: Additional)
    ensures EncodeAll(items + [item]) == EncodeAll(items) + EncodeAdditional(item)
  {
    hide EncodeAdditional;
    if items == [] {
      assert [item][1..] == [];
      assert EncodeAll([item]) == EncodeAdditional(item) + EncodeAll([]);
    } else {
      assert (items + [item])[1..] == items[1..] + [item];
      EncodeAllAppend(items[1..], item);
    }
  }

  class NetReader {
    const data: seq<byte>
    var pos: nat

    predicate Valid()
      reads this
    {
      pos <= |data|
    }

    function Rest(): seq<byte>
      requires Valid()
      reads this
    {
      data[pos..]
    }

    /** The reader has taken what parsing says, or reports that it could not. */
    ghost predicate Took<T>(r: Option<T>, p: Parsed<T>)
      requires Valid()
      reads this
    {
      match p
      case Fail => r == None
      case Ok(value, rest) => r == Some(value) && Rest() == rest
    }

    constructor (data: seq<byte>)
      ensures Valid() && this.data == data && pos == 0
    {
      this.data := data;
      pos := 0;
    }

    method Take(len: nat) returns (r: Option<seq<byte>>)
      requires Valid()
      modifies this
      ensures Valid() && Took(r, GetBytes(len, old(Rest())))
    {
      if |data| - pos < len { return None; }
      var start := pos;
      pos := pos + len;
      assert data[start..][..len] == data[start..pos] && data[start..][len..] == data[pos..];
      return Some(data[start..pos]);
    }

    method TakeU8() returns (r: Option<byte>)
      requires Valid()
      modifies this
      ensures Valid() && Took(r, GetU8(old(Rest())))
    {
      var taken := Take(1);
      if taken.None? { return None; }
      return Some(taken.value[0]);
    }

    method TakeU16() returns (r: Option<nat>)
      requires Valid()
      modifies this
      ensures Valid() && Took(r, GetU16(old(Rest())))
    {
      var taken := Take(2);
      if taken.None? { return None; }
      return Some(U16At(taken.value, 0));
    }

    method TakeString(utf8: Utf8Check) returns (r: Option<seq<byte>>)
      requires Valid()
      modifies this
      ensures Valid() && Took(r, GetString(utf8, old(Rest())))
    {
      hide GetBytes, GetU16;
      var lenPlus := TakeU16();
      if lenPlus.None? { return None; }
      if lenPlus.value == 0 { return Some([]); }
      var taken := Take(lenPlus.value - 1);
      if taken.None? { return None; }
      if !utf8(taken.value) { return None; }
      return taken;
    }

    method TakeMeta(utf8: Utf8Check) returns (r: Option<MetaData>)
      requires Valid()
      modifies this
      ensures Valid() && Took(r, DecodeMeta(utf8, old(Rest())))
    {
      hide GetString;
      var uuid := TakeString(utf8);
      if uuid.None? { return None; }
      var displayName := TakeString(utf8);
      if displayName.None? { return None; }
      var platform := TakeString(utf8);
      if platform.None? { return None; }
      return Some(MetaData(uuid.value, displayName.value, platform.value));
    }

    method TakeChange() returns (r: Option<AvatarChange>)
      requires Valid()
      modifies this
      ensures Valid() && Took(r, DecodeChange(old(Rest())))
    {
      hide GetU8, GetU16, GetBytes;
      var loadMode := TakeU8();
      if loadMode.None? { return None; }
      var len := TakeU16();
      if len.None? { return None; }
      var bytes := Take(len.value);
      if bytes.None? { return None; }
      var localIndex := TakeU8();
      if localIndex.None? { return None; }
      return Some(AvatarChange(loadMode.value, bytes.value, localIndex.value));
    }

    method TakeAdditional() returns (r: Option<Additional>)
      requires Valid()
      modifies this
      ensures Valid() && Took(r, DecodeAdditional(old(Rest())))
    {
      hide GetU8, GetBytes;
      var len := TakeU8();
      if len.None? { return None; }
      if len.value == 0 { return Some(Additional(0, [])); }
      var messageIndex := TakeU8();
      if messageIndex.None? { return None; }
      var bytes := Take(len.value);
      if bytes.None? { return None; }
      return Some(Additional(messageIndex.value, bytes.value));
    }

    /** The loop over the additional items. */
    method TakeAll(count: nat) returns (r: Option<seq<Additional>>)
      requires Valid()
      modifies this
      ensures Valid() && Took(r, DecodeAll(count, old(Rest())))
    {
      hide DecodeAdditional, DecodeAll;
      var items: seq<Additional> := [];
      AllStart(count, Rest());
      for i := 0 to count
        invariant Valid() && DecodeAll(count, old(Rest())) == Prepended(items, DecodeAll(count - i, Rest()))
      {
        AllStep(items, count - i, Rest());
        var item := TakeAdditional();
        if item.None? { return None; }
        items := items + [item.value];
      }
      AllEnd(items, Rest());
      return Some(items);
    }

    method TakeSync() returns (r: Option<AvatarSync>)
      requires Valid()
      modifies this
      ensures Valid() && Took(r, DecodeSync(old(Rest())))
    {
      hide GetU8, GetBytes, DecodeAll, PayloadLen;
      var quality := TakeU8();
      if quality.None? { return None; }
      var payload := Take(PayloadLen(quality.value));
      if payload.None? { return None; }
      var count := TakeU8();
      if count.None? { return None; }
      NoItems(Rest());
      var linked := Some(0);
      if count.value > 0 { linked := TakeU8(); }
      if linked.None? { return None; }
      var items := TakeAll(count.value);
      if items.None? { return None; }
      return Some(AvatarSync(quality.value, payload.value, items.value, linked.value));
    }

    method TakeReady(utf8: Utf8Check) returns (r: Option<Ready>)
      requires Valid()
      modifies this
      ensures Valid() && Took(r, Decode(utf8, old(Rest())))
    {
      hide DecodeMeta, DecodeChange, DecodeSync;
      var meta := TakeMeta(utf8);
      if meta.None? { return None; }
      var change := TakeChange();
      if change.None? { return None; }
      var sync := TakeSync();
      if sync.None? { return None; }
      return Some(Ready(meta.value, change.value, sync.value));
    }
  }

  function Prepended(items: seq<Additional>, p: Parsed<seq<Additional>>): Parsed<seq<Additional>> {
    match p
    case Fail => Fail
    case Ok(more, rest) => Ok(items + more, rest)
  }

  lemma NoItems(b: seq<byte>)
    ensures DecodeAll(0, b) == Ok([], b)
  {}

  lemma AllStart(count: nat, b: seq<byte>)
    ensures DecodeAll(count, b) == Prepended([], DecodeAll(count, b))
  {
    var p := DecodeAll(count, b);
    if p.Ok? { assert [] + p.value == p.value; }
  }

  lemma AllStep(items: seq<Additional>, count: nat, b: seq<byte>)
    requires count > 0
    ensures Prepended(items, DecodeAll(count, b)) == match DecodeAdditional(b)
      case Fail => Fail
      case Ok(item, rest) => Prepended(items + [item], DecodeAll(count - 1, rest))
  {
    hide DecodeAdditional;
    match DecodeAdditional(b)
    case Fail =>
    case Ok(item, rest) =>
      var p := DecodeAll(count - 1, rest);
      if p.Ok? { assert items + ([item] + p.value) == (items + [item]) + p.value; }
  }

  lemma AllEnd(items: seq<Additional>, b: seq<byte>)
    ensures Prepended(items, DecodeAll(0, b)) == Ok(items, b)
  {
    assert items + [] == items;
  }

  /** Writing a message and reading it back. */
  method SendAndReceive(utf8: Utf8Check, m: Ready, trailing: seq<byte>)
    returns (received: Option<Ready>, left: seq<byte>)
    requires InRange(utf8, m)
    ensures received == Some(Normal(m)) && left == trailing
  {
    hide Decode, Encode, Normal;
    var writer := new NetWriter();
    writer.PutReady(m);
    assert [] + Encode(m) == Encode(m);
    var reader := new NetReader(writer.data + trailing);
    assert reader.data[0..] == reader.data;
    ReadyRoundTrip(utf8, m, trailing);
    received := reader.TakeReady(utf8);
    left := reader.data[reader.pos..];
  }
}
