/** Little-endian 16-bit fields, and packet headers: property in the low five bits, connection
    number in the two above. */
module Wire {
  import opened Bits

  function U16Bytes(v: nat): (b: seq<byte>)
    requires v < 65536
    ensures |b| == 2
  {
    [v % 256, v / 256]
  }

  function U16At(bytes: seq<byte>, pos: nat): (v: nat)
    requires pos + 2 <= |bytes|
    ensures v < 65536
  {
    bytes[pos] as int + 256 * (bytes[pos + 1] as int)
  }

  lemma U16RoundTrip(front: seq<byte>, v: nat, back: seq<byte>)
    requires v < 65536
    ensures U16At(front + U16Bytes(v) + back, |front|) == v
  {}

  const UNRELIABLE: nat := 0
  const CHANNELED: nat := 1
  const ACK: nat := 2
  const MERGED: nat := 12

  function Header(property: nat, connectionNumber: nat): byte
    requires property < 32 && connectionNumber < 4
  {
    property + 32 * connectionNumber
  }

  function PropertyOf(header: byte): nat { header % 32 }

  function ConnectionOf(header: byte): nat { header / 32 % 4 }

  /** A receiver finds both fields of a header. */
  lemma HeaderRead(property: nat, connectionNumber: nat)
    requires property < 32 && connectionNumber < 4
    ensures PropertyOf(Header(property, connectionNumber)) == property
    ensures ConnectionOf(Header(property, connectionNumber)) == connectionNumber
  {}
}
