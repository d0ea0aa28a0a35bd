/** The ready message a client joins with: its bytes, and what the server reads from them. Strings
    are their UTF-8 bytes, and which bytes are valid UTF-8 is a parameter. */
module ReadyCodec {
  import opened Bits
  import opened Wire
  import Avatar

  type Utf8Check = seq<byte> -> bool

  // --- Primitives ---------------------------------------------------------------------

  /** What a reader takes off the bytes before it, and what it leaves. */
  datatype Parsed<T> = Fail | Ok(value: T, rest: seq<byte>)

  function GetBytes(n: nat, b: seq<byte>): Parsed<seq<byte>> {
    if |b| < n then Fail else Ok(b[..n], b[n..])
  }

  function GetU8(b: seq<byte>): Parsed<byte> { if b == [] then Fail else Ok(b[0], b[1..]) }

  function GetU16(b: seq<byte>): (p: Parsed<nat>)
    ensures p.Ok? ==> p.value < 65536
  {
    if |b| < 2 then Fail else Ok(U16At(b, 0), b[2..])
  }

  /** Strings carry their length plus one; zero stands for the empty string. */
  function PutString(s: seq<byte>): seq<byte>
    requires |s| < 65535
  {
    if s == [] then U16Bytes(0) else U16Bytes(|s| + 1) + s
  }

  function GetString(utf8: Utf8Check, b: seq<byte>): Parsed<seq<byte>> {
    match GetU16(b)
    case Fail => Fail
    case Ok(n, rest) =>
      if n == 0 then Ok([], rest)
      else match GetBytes(n - 1, rest)
        case Fail => Fail
        case Ok(s, more) => if utf8(s) then Ok(s, more) else Fail
  }

  lemma U16Read(v: nat, rest: seq<byte>)
    requires v < 65536
    ensures GetU16(U16Bytes(v) + rest) == Ok(v, rest)
  {}

  lemma BytesRead(s: seq<byte>, rest: seq<byte>)
    ensures GetBytes(|s|, s + rest) == Ok(s, rest)
  {}

  lemma StringRead(utf8: Utf8Check, s: seq<byte>, rest: seq<byte>)
    requires |s| < 65535 && utf8(s)
    ensures GetString(utf8, PutString(s) + rest) == Ok(s, rest)
  {
    hide U16Bytes, GetU16, GetBytes;
    if s == [] {
      U16Read(0, rest);
    } else {
      U16Read(|s| + 1, s + rest);
      assert (U16Bytes(|s| + 1) + s) + rest == U16Bytes(|s| + 1) + (s + rest);
      BytesRead(s, rest);
    }
  }

  // --- Metadata -----------------------------------------------------------------------

  datatype MetaData = MetaData(uuid: seq<byte>, displayName: seq<byte>, platform: seq<byte>)

  const FAILURE: seq<byte> := [70, 97, 105, 108, 117, 114, 101] // "Failure"

  lemma FailureSpelled()
    ensures |FAILURE| == |"Failure"| && forall i :: 0 <= i < |FAILURE| ==> FAILURE[i] == "Failure"[i] as int
  {}

  function NonEmptyOrFailure(s: seq<byte>): seq<byte> { if s == [] then FAILURE else s }

  predicate InRangeText(utf8: Utf8Check, s: seq<byte>) { |s| < 65535 && utf8(s) }

  predicate InRangeMeta(utf8: Utf8Check, m: MetaData) {
    utf8(FAILURE) && InRangeText(utf8, m.uuid) && InRangeText(utf8, m.displayName) && InRangeText(utf8, m.platform)
  }

  predicate FitsMeta(m: MetaData) { |m.uuid| < 65535 && |m.displayName| < 65535 && |m.platform| < 65535 }

  function EncodeMeta(m: MetaData): seq<byte>
    requires FitsMeta(m)
  {
    PutString(NonEmptyOrFailure(m.uuid)) + PutString(NonEmptyOrFailure(m.displayName))
        + PutString(NonEmptyOrFailure(m.platform))
  }

  function NormalMeta(m: MetaData): MetaData {
    MetaData(NonEmptyOrFailure(m.uuid), NonEmptyOrFailure(m.displayName), NonEmptyOrFailure(m.platform))
  }

  function DecodeMeta(utf8: Utf8Check, b: seq<byte>): Parsed<MetaData> {
    match GetString(utf8, b)
    case Fail => Fail
    case Ok(uuid, b1) => match GetString(utf8, b1)
      case Fail => Fail
      case Ok(displayName, b2) => match GetString(utf8, b2)
        case Fail => Fail
        case Ok(platform, rest) => Ok(MetaData(uuid, displayName, platform), rest)
  }

  lemma MetaRead(utf8: Utf8Check, m: MetaData, rest: seq<byte>)
    requires InRangeMeta(utf8, m)
    ensures DecodeMeta(utf8, EncodeMeta(m) + rest) == Ok(NormalMeta(m), rest)
  {
    hide GetString, PutString;
    var n := NormalMeta(m);
    var x, y, z := PutString(n.uuid), PutString(n.displayName), PutString(n.platform);
    StringRead(utf8, n.uuid, y + (z + rest));
    StringRead(utf8, n.displayName, z + rest);
    StringRead(utf8, n.platform, rest);
    assert (x + y + z) + rest == x + (y + (z + rest));
  }

  // --- Avatar change ------------------------------------------------------------------

  datatype AvatarChange = AvatarChange(loadMode: byte, bytes: seq<byte>, localIndex: byte)

  function EncodeChange(c: AvatarChange): seq<byte>
    requires |c.bytes| < 65536
  {
    [c.loadMode] + U16Bytes(|c.bytes|) + c.bytes + [c.localIndex]
  }

  function DecodeChange(b: seq<byte>): Parsed<AvatarChange> {
    match GetU8(b)
    case Fail => Fail
    case Ok(loadMode, b1) => match GetU16(b1)
      case Fail => Fail
      case Ok(n, b2) => match GetBytes(n, b2)
        case Fail => Fail
        case Ok(bytes, b3) => match GetU8(b3)
          case Fail => Fail
          case Ok(localIndex, rest) => Ok(AvatarChange(loadMode, bytes, localIndex), rest)
  }

  lemma ChangeRead(c: AvatarChange, rest: seq<byte>)
    requires |c.bytes| < 65536
    ensures DecodeChange(EncodeChange(c) + rest) == Ok(c, rest)
  {
    hide U16Bytes, GetU16, GetBytes;
    var tail := [c.localIndex] + rest;
    var all := EncodeChange(c) + rest;
    assert all[1..] == U16Bytes(|c.bytes|) + (c.bytes + tail);
    U16Read(|c.bytes|, c.bytes + tail);
    BytesRead(c.bytes, tail);
    assert tail[1..] == rest;
  }

  // --- Additional data ----------------------------------------------------------------

  datatype Additional = Additional(messageIndex: byte, data: seq<byte>)

  /** At most 255 bytes go out, and no index when there are none. */
  function NormalAdditional(a: Additional): Additional {
    if a.data == [] then Additional(0, [])
    else Additional(a.messageIndex, if |a.data| > 255 then a.data[..255] else a.data)
  }

  function EncodeAdditional(a: Additional): seq<byte> {
    var len := if |a.data| > 255 then 255 else |a.data|;
    [len] + if len > 0 then [a.messageIndex] + a.data[..len] else []
  }

  function DecodeAdditional(b: seq<byte>): Parsed<Additional> {
    match GetU8(b)
    case Fail => Fail
    case Ok(len, b1) =>
      if len == 0 then Ok(Additional(0, []), b1)
      else match GetU8(b1)
        case Fail => Fail
        case Ok(messageIndex, b2) => match GetBytes(len, b2)
          case Fail => Fail
          case Ok(data, rest) => Ok(Additional(messageIndex, data), rest)
  }

  lemma AdditionalRead(a: Additional, rest: seq<byte>)
    ensures DecodeAdditional(EncodeAdditional(a) + rest) == Ok(NormalAdditional(a), rest)
  {
    hide GetBytes;
    var len := if |a.data| > 255 then 255 else |a.data|;
    var all := EncodeAdditional(a) + rest;
    var data := a.data[..len];
    assert a.data[..|a.data|] == a.data;
    if len == 0 {
      assert all[1..] == rest;
    } else {
      assert all[1..] == [a.messageIndex] + (data + rest);
      assert all[1..][1..] == data + rest;
      BytesRead(data, rest);
    }
  }

  function EncodeAll(items: seq<Additional>): seq<byte> {
    if items == [] then [] else EncodeAdditional(items[0]) + EncodeAll(items[1..])
  }

  function NormalAll(items: seq<Additional>): (normal: seq<Additional>)
    ensures |normal| == |items|
  {
    seq(|items|, i requires 0 <= i < |items| => NormalAdditional(items[i]))
  }

  function DecodeAll(count: nat, b: seq<byte>): Parsed<seq<Additional>> {
    if count == 0 then Ok([], b)
    else match DecodeAdditional(b)
      case Fail => Fail
      case Ok(item, b1) => match DecodeAll(count - 1, b1)
        case Fail => Fail
        case Ok(items, rest) => Ok([item] + items, rest)
  }

  lemma {:induction false} AllRead(items: seq<Additional>, rest: seq<byte>)
    ensures DecodeAll(|items|, EncodeAll(items) + rest) == Ok(NormalAll(items), rest)
  {
    hide DecodeAdditional, EncodeAdditional, NormalAdditional;
    if items == [] {
      assert [] + rest == rest;
    } else {
      var first, more := EncodeAdditional(items[0]), EncodeAll(items[1..]);
      assert (first + more) + rest == first + (more + rest);
      AdditionalRead(items[0], more + rest);
      AllRead(items[1..], rest);
      assert NormalAll(items) == [NormalAdditional(items[0])] + NormalAll(items[1..]);
    }
  }

  // --- Avatar sync --------------------------------------------------------------------

  datatype AvatarSync = AvatarSync(quality: byte, payload: seq<byte>, additional: seq<Additional>, linkedIndex: byte)

  function PayloadLen(quality: byte): nat {
    if quality == 0 then Avatar.BitQuality.VeryLow.PayloadLen()
    else if quality == 1 then Avatar.BitQuality.Low.PayloadLen()
    else if quality == 2 then Avatar.BitQuality.Medium.PayloadLen()
    else Avatar.BitQuality.High.PayloadLen()
  }

  lemma PayloadLens(quality: byte)
    ensures PayloadLen(quality)
         == if quality == 0 then 112 else if quality == 1 then 131 else if quality == 2 then 156 else 182
  {}

  predicate InRangeSync(s: AvatarSync) {
    && |s.payload|
       == (if s.quality == 0 then 112 else if s.quality == 1 then 131 else if s.quality == 2 then 156 else 182)
    && |s.additional| <= 255
  }

  function NormalSync(s: AvatarSync): AvatarSync {
    s.(additional := NormalAll(s.additional), linkedIndex := if s.additional == [] then 0 else s.linkedIndex)
  }

  function EncodeSync(s: AvatarSync): seq<byte>
    requires |s.additional| <= 255
  {
    [s.quality] + s.payload + [|s.additional|]
        + if s.additional == [] then [] else [s.linkedIndex] + EncodeAll(s.additional)
  }

  /** The linked index and the items after the count. */
  function DecodeTail(count: nat, b: seq<byte>): Parsed<(byte, seq<Additional>)> {
    if count == 0 then Ok((0, []), b)
    else match GetU8(b)
      case Fail => Fail
      case Ok(linked, b1) => match DecodeAll(count, b1)
        case Fail => Fail
        case Ok(items, rest) => Ok((linked, items), rest)
  }

  function DecodeSync(b: seq<byte>): Parsed<AvatarSync> {
    match GetU8(b)
    case Fail => Fail
    case Ok(quality, b1) => match GetBytes(PayloadLen(quality), b1)
      case Fail => Fail
      case Ok(payload, b2) => match GetU8(b2)
        case Fail => Fail
        case Ok(count, b3) => match DecodeTail(count, b3)
          case Fail => Fail
          case Ok((linked, items), rest) => Ok(AvatarSync(quality, payload, items, linked), rest)
  }

  lemma TailRead(s: AvatarSync, rest: seq<byte>)
    requires |s.additional| <= 255
    ensures var tail := if s.additional == [] then [] else [s.linkedIndex] + EncodeAll(s.additional);
            DecodeTail(|s.additional|, tail + rest) == Ok((NormalSync(s).linkedIndex, NormalAll(s.additional)), rest)
  {
    hide DecodeAll, EncodeAll;
    if s.additional == [] {
      assert [] + rest == rest;
    } else {
      var items := EncodeAll(s.additional);
      assert (([s.linkedIndex] + items) + rest)[1..] == items + rest;
      AllRead(s.additional, rest);
    }
  }

  lemma SyncRead(s: AvatarSync, rest: seq<byte>)
    requires InRangeSync(s)
    ensures DecodeSync(EncodeSync(s) + rest) == Ok(NormalSync(s), rest)
  {
    hide DecodeTail, GetBytes, EncodeAll, PayloadLen, NormalAll;
    var tail := if s.additional == [] then [] else [s.linkedIndex] + EncodeAll(s.additional);
    var all := EncodeSync(s) + rest;
    var counted := [|s.additional|] + (tail + rest);
    assert all[1..] == s.payload + counted;
    PayloadLens(s.quality);
    BytesRead(s.payload, counted);
    assert counted[1..] == tail + rest;
    TailRead(s, rest);
  }

  // --- The whole message --------------------------------------------------------------

  datatype Ready = Ready(meta: MetaData, change: AvatarChange, sync: AvatarSync)

  predicate InRange(utf8: Utf8Check, m: Ready) {
    InRangeMeta(utf8, m.meta) && |m.change.bytes| < 65536 && InRangeSync(m.sync)
  }

  predicate Fits(m: Ready) { FitsMeta(m.meta) && |m.change.bytes| < 65536 && |m.sync.additional| <= 255 }

  function Encode(m: Ready): seq<byte>
    requires Fits(m)
  {
    EncodeMeta(m.meta) + EncodeChange(m.change) + EncodeSync(m.sync)
  }

  /** What the reader makes of a message: empty metadata becomes "Failure", indices that are not sent become 0. */
  function Normal(m: Ready): Ready { Ready(NormalMeta(m.meta), m.change, NormalSync(m.sync)) }

  function Decode(utf8: Utf8Check, b: seq<byte>): Parsed<Ready> {
    match DecodeMeta(utf8, b)
    case Fail => Fail
    case Ok(meta, b1) => match DecodeChange(b1)
      case Fail => Fail
      case Ok(change, b2) => match DecodeSync(b2)
        case Fail => Fail
        case Ok(sync, rest) => Ok(Ready(meta, change, sync), rest)
  }

  /** Reading a written message gives its normal form and leaves just what followed it. */
  lemma ReadyRoundTrip(utf8: Utf8Check, m: Ready, rest: seq<byte>)
    requires InRange(utf8, m)
    ensures Decode(utf8, Encode(m) + rest) == Ok(Normal(m), rest)
  {
    hide DecodeMeta, DecodeChange, DecodeSync, EncodeMeta, EncodeChange, EncodeSync;
    var x, y, z := EncodeMeta(m.meta), EncodeChange(m.change), EncodeSync(m.sync);
    MetaRead(utf8, m.meta, y + (z + rest));
    ChangeRead(m.change, z + rest);
    SyncRead(m.sync, rest);
    assert (x + y + z) + rest == x + (y + (z + rest));
  }

  /** A normal form is its own normal form, so writing what was read and reading it again changes nothing. */
  lemma NormalIsStable(utf8: Utf8Check, m: Ready)
    requires InRange(utf8, m)
    ensures InRange(utf8, Normal(m)) && Normal(Normal(m)) == Normal(m)
  {}

  // --- What is accepted ---------------------------------------------------------------

  /** More bytes after a message that was read change nothing but what is left. */
  predicate Extends<T(==)>(p: Parsed<T>, q: Parsed<T>, more: seq<byte>) { p.Ok? ==> q == Ok(p.value, p.rest + more) }

  lemma BytesExtend(n: nat, b: seq<byte>, more: seq<byte>)
    ensures Extends(GetBytes(n, b), GetBytes(n, b + more), more)
    ensures Extends(GetU8(b), GetU8(b + more), more)
    ensures Extends(GetU16(b), GetU16(b + more), more)
  {
    if |b| >= n { assert (b + more)[..n] == b[..n] && (b + more)[n..] == b[n..] + more; }
    if |b| >= 1 { assert (b + more)[1..] == b[1..] + more; }
    if |b| >= 2 { assert (b + more)[2..] == b[2..] + more; }
  }

  lemma StringExtends(utf8: Utf8Check, b: seq<byte>, more: seq<byte>)
    ensures Extends(GetString(utf8, b), GetString(utf8, b + more), more)
    ensures GetString(utf8, b).Ok? ==> GetString(utf8, b).value == [] || InRangeText(utf8, GetString(utf8, b).value)
  {
    hide GetBytes, GetU16;
    BytesExtend(0, b, more);
    var n := GetU16(b);
    if n.Ok? && n.value > 0 {
      BytesExtend(n.value - 1, n.rest, more);
      BytesTaken(n.value - 1, n.rest);
    }
  }

  lemma BytesTaken(n: nat, b: seq<byte>)
    ensures GetBytes(n, b).Ok? ==> |GetBytes(n, b).value| == n
  {}

  lemma MetaExtends(utf8: Utf8Check, b: seq<byte>, more: seq<byte>)
    ensures Extends(DecodeMeta(utf8, b), DecodeMeta(utf8, b + more), more)
  {
    hide GetString;
    var x := GetString(utf8, b);
    StringExtends(utf8, b, more);
    if x.Ok? {
      var y := GetString(utf8, x.rest);
      StringExtends(utf8, x.rest, more);
      if y.Ok? { StringExtends(utf8, y.rest, more); }
    }
  }

  lemma ChangeExtends(b: seq<byte>, more: seq<byte>)
    ensures Extends(DecodeChange(b), DecodeChange(b + more), more)
  {
    hide GetBytes, GetU8, GetU16;
    var x := GetU8(b);
    BytesExtend(0, b, more);
    if x.Ok? {
      var n := GetU16(x.rest);
      BytesExtend(0, x.rest, more);
      if n.Ok? {
        var y := GetBytes(n.value, n.rest);
        BytesExtend(n.value, n.rest, more);
        if y.Ok? { BytesExtend(0, y.rest, more); }
      }
    }
  }

  lemma AdditionalExtends(b: seq<byte>, more: seq<byte>)
    ensures Extends(DecodeAdditional(b), DecodeAdditional(b + more), more)
  {
    hide GetBytes, GetU8;
    var x := GetU8(b);
    BytesExtend(0, b, more);
    if x.Ok? {
      var y := GetU8(x.rest);
      BytesExtend(0, x.rest, more);
      if y.Ok? { BytesExtend(x.value, y.rest, more); }
    }
  }

  lemma {:induction false} AllExtend(count: nat, b: seq<byte>, more: seq<byte>)
    ensures Extends(DecodeAll(count, b), DecodeAll(count, b + more), more)
  {
    if count > 0 {
      hide DecodeAdditional;
      var x := DecodeAdditional(b);
      AdditionalExtends(b, more);
      if x.Ok? { AllExtend(count - 1, x.rest, more); }
    }
  }

  lemma {:induction false} AllCounted(count: nat, b: seq<byte>)
    ensures DecodeAll(count, b).Ok? ==> |DecodeAll(count, b).value| == count
  {
    if count > 0 && DecodeAdditional(b).Ok? {
      hide DecodeAdditional;
      AllCounted(count - 1, DecodeAdditional(b).rest);
    }
  }

  lemma SyncExtends(b: seq<byte>, more: seq<byte>)
    ensures Extends(DecodeSync(b), DecodeSync(b + more), more)
    ensures DecodeSync(b).Ok? ==> InRangeSync(DecodeSync(b).value)
  {
    hide GetBytes, GetU8, DecodeAll, PayloadLen;
    var x := GetU8(b);
    BytesExtend(0, b, more);
    if x.Ok? {
      PayloadLens(x.value);
      var y := GetBytes(PayloadLen(x.value), x.rest);
      BytesExtend(PayloadLen(x.value), x.rest, more);
      BytesTaken(PayloadLen(x.value), x.rest);
      if y.Ok? {
        var n := GetU8(y.rest);
        BytesExtend(0, y.rest, more);
        if n.Ok? && n.value > 0 {
          var z := GetU8(n.rest);
          BytesExtend(0, n.rest, more);
          if z.Ok? {
            AllExtend(n.value, z.rest, more);
            AllCounted(n.value, z.rest);
          }
        }
      }
    }
  }

  lemma DecodeExtends(utf8: Utf8Check, b: seq<byte>, more: seq<byte>)
    ensures Extends(Decode(utf8, b), Decode(utf8, b + more), more)
  {
    hide DecodeMeta, DecodeChange, DecodeSync;
    var x := DecodeMeta(utf8, b);
    MetaExtends(utf8, b, more);
    if x.Ok? {
      var y := DecodeChange(x.rest);
      ChangeExtends(x.rest, more);
      if y.Ok? { SyncExtends(y.rest, more); }
    }
  }

  /** A message cut short anywhere is refused. */
  lemma CutShortRefused(utf8: Utf8Check, m: Ready, k: nat)
    requires InRange(utf8, m) && k < |Encode(m)|
    ensures Decode(utf8, Encode(m)[..k]) == Fail
  {
    hide Decode, Encode;
    var all := Encode(m);
    assert all[..k] + all[k..] == all && all + [] == all;
    DecodeExtends(utf8, all[..k], all[k..]);
    ReadyRoundTrip(utf8, m, []);
  }

  /** Whatever bytes a message is read from, its texts are valid and its pose has the length of its quality. */
  lemma AcceptedInRange(utf8: Utf8Check, b: seq<byte>)
    requires Decode(utf8, b).Ok?
    ensures var m := Decode(utf8, b).value;
            && (forall text :: text in [m.meta.uuid, m.meta.displayName, m.meta.platform] ==>
                  text == [] || InRangeText(utf8, text))
            && InRangeSync(m.sync)
  {
    hide GetString, DecodeChange, DecodeSync;
    var x := GetString(utf8, b);
    StringExtends(utf8, b, []);
    var y := GetString(utf8, x.rest);
    StringExtends(utf8, x.rest, []);
    StringExtends(utf8, y.rest, []);
    SyncExtends(DecodeChange(DecodeMeta(utf8, b).rest).rest, []);
  }

  // --- The client's writer ------------------------------------------------------------

  // The client has a writer of its own, whose length fields keep the low sixteen bits.

  function ClientU16(v: nat): seq<byte> { U16Bytes(v % 65536) }

  function ClientString(s: seq<byte>): seq<byte> {
    if |s| > 0 then ClientU16(|s| + 1) + s else ClientU16(0)
  }

  function ClientText(s: seq<byte>): seq<byte> {
    if |s| > 0 then ClientString(s) else ClientString(FAILURE)
  }

  function ClientMeta(m: MetaData): seq<byte> {
    ClientText(m.uuid) + (ClientText(m.displayName) + ClientText(m.platform))
  }

  function ClientChange(c: AvatarChange): seq<byte> {
    [c.loadMode] + (ClientU16(|c.bytes|) + (c.bytes + [c.localIndex]))
  }

  const HIGH: byte := 3

  /** The first pose: its quality, its bytes, and no additional data. */
  function ClientInitialSync(payload: seq<byte>): seq<byte> { [HIGH] + payload + [0] }

  datatype ClientReady = ClientReady(meta: MetaData, change: AvatarChange, payload: seq<byte>)

  function ClientEncode(c: ClientReady): seq<byte> {
    ClientMeta(c.meta) + ClientChange(c.change) + ClientInitialSync(c.payload)
  }

  function FromClient(c: ClientReady): Ready { Ready(c.meta, c.change, AvatarSync(HIGH, c.payload, [], 0)) }

  lemma ClientMetaAgrees(m: MetaData)
    requires FitsMeta(m)
    ensures ClientMeta(m) == EncodeMeta(m)
  {
    hide ClientText, PutString;
    ClientTextAgrees(m.uuid);
    ClientTextAgrees(m.displayName);
    ClientTextAgrees(m.platform);
    var x, y, z := ClientText(m.uuid), ClientText(m.displayName), ClientText(m.platform);
    assert x + (y + z) == x + y + z;
  }

  lemma ClientTextAgrees(s: seq<byte>)
    requires |s| < 65535
    ensures ClientText(s) == PutString(NonEmptyOrFailure(s))
  {
    hide U16Bytes;
  }

  lemma ClientChangeAgrees(c: AvatarChange)
    requires |c.bytes| < 65536
    ensures ClientChange(c) == EncodeChange(c)
  {
    hide U16Bytes;
    var n := U16Bytes(|c.bytes|);
    assert [c.loadMode] + (n + (c.bytes + [c.localIndex])) == [c.loadMode] + n + c.bytes + [c.localIndex];
  }

  /** The server reads what the separate client encoder writes. */
  lemma ClientReadyAccepted(utf8: Utf8Check, c: ClientReady, rest: seq<byte>)
    requires InRangeMeta(utf8, c.meta) && |c.change.bytes| < 65536 && |c.payload| == Avatar.BitQuality.High.PayloadLen()
    ensures Decode(utf8, ClientEncode(c) + rest)
         == Ok(Ready(NormalMeta(c.meta), c.change, AvatarSync(HIGH, c.payload, [], 0)), rest)
  {
    hide Decode, EncodeMeta, EncodeChange, ClientMeta, ClientChange;
    var m := FromClient(c);
    ReadyRoundTrip(utf8, m, rest);
    ClientMetaAgrees(c.meta);
    ClientChangeAgrees(c.change);
    assert ClientEncode(c) == Encode(m);
    assert NormalAll([]) == [];
  }
}
