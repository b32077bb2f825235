/** The framed binary temperature codec: packets with a checksum, and the reader that finds them in a byte stream. */
module SerialCodec {
  import opened Common

  type Byte = bv8

  const STX: Byte := 0x02
  const COMMAND: Byte := 0x54
  const ETX: Byte := 0x03
  const TWO_64 := 0x1_0000_0000_0000_0000
  const MAX_BUFFER_SIZE := 1024

  /** The binary formats; each has one payload length. */
  datatype Format = ByteInteger | FixedPoint | FloatingPoint

  function Length(f: Format): nat { match f case ByteInteger => 1 case FixedPoint => 2 case FloatingPoint => 4 }

  function LengthByte(f: Format): Byte { match f case ByteInteger => 1 case FixedPoint => 2 case FloatingPoint => 4 }

  // ---------------------------------------------------------------------------------- Packets

  /** A running checksum after some more bytes. */
  function XorWith(start: Byte, bytes: seq<Byte>): Byte {
    if bytes == [] then start else XorWith(start, bytes[..|bytes| - 1]) ^ bytes[|bytes| - 1]
  }

  lemma XorNext(start: Byte, data: seq<Byte>, i: nat)
    requires i < |data|
    ensures XorWith(start, data[..i + 1]) == XorWith(start, data[..i]) ^ data[i]
  {
    var more := data[..i + 1];
    assert more[..i] == data[..i];
  }

  lemma XorNone(start: Byte, data: seq<Byte>)
    ensures XorWith(start, data[..0]) == start
  {}

  /** The checksum of a packet covers the command, the length and the payload. */
  function Checksum(f: Format, data: seq<Byte>): Byte { XorWith(COMMAND ^ LengthByte(f), data) }

  lemma ChecksumIs(f: Format, start: Byte, data: seq<Byte>)
    requires start == COMMAND ^ LengthByte(f)
    ensures XorWith(start, data) == Checksum(f, data)
  {}

  /** The packet around a payload. */
  function Packet(f: Format, data: seq<Byte>): (r: seq<Byte>)
    ensures |r| == |data| + 5
  {
    [STX, COMMAND, LengthByte(f)] + data + [Checksum(f, data), ETX]
  }

  /** WriteTemperature, after the payload has been encoded. */
  method BuildPacket(f: Format, data: seq<Byte>) returns (packet: seq<Byte>)
    requires |data| == Length(f)
    ensures packet == Packet(f, data)
  {
    hide LengthByte, Length, XorWith;
    XorNone(COMMAND ^ LengthByte(f), data);
    packet := [];
    packet := packet + [STX];
    packet := packet + [COMMAND];
    packet := packet + [LengthByte(f)];
    assert packet == [STX, COMMAND, LengthByte(f)];
    packet := packet + data;
    assert packet == [STX, COMMAND, LengthByte(f)] + data;
    var checksum := COMMAND ^ LengthByte(f);
    for i := 0 to |data|
      invariant checksum == XorWith(COMMAND ^ LengthByte(f), data[..i])
      invariant packet == [STX, COMMAND, LengthByte(f)] + data
    {
      XorNext(COMMAND ^ LengthByte(f), data, i);
      checksum := checksum ^ data[i];
    }
    assert data[..|data|] == data;
    packet := packet + [checksum];
    packet := packet + [ETX];
    assert [checksum] + [ETX] == [checksum, ETX];
  }

  // ---------------------------------------------------------------------------------- Decoding

  /** What a scan ends in: a read outside the buffer, no packet, or the payload of one. */
  datatype Decoded = Fault | Nothing | Data(bytes: seq<Byte>)

  /** size - k in size_t. */
  function Bound(size: nat, k: nat): nat
    requires k <= TWO_64
  {
    if size >= k then size - k else TWO_64 + size - k
  }

  /** DecodeBinaryTemperature from a position on. */
  function DecodeFrom(f: Format, b: seq<Byte>, pos: nat): Decoded
    decreases |b| - pos
  {
    var n := Length(f);
    if pos >= Bound(|b|, n + 4) then Nothing
    else if pos >= |b| then Fault
    else if b[pos] != STX then DecodeFrom(f, b, pos + 1)
    else if pos + 1 >= |b| then Fault
    else if b[pos + 1] != COMMAND then DecodeFrom(f, b, pos + 1)
    else if pos + 2 >= |b| then Fault
    else if b[pos + 2] != LengthByte(f) then DecodeFrom(f, b, pos + 1)
    else if pos + 3 + n + 2 > |b| then Nothing
    else if b[pos + 3 + n + 1] != ETX then DecodeFrom(f, b, pos + 1)
    else if Checksum(f, b[pos + 3..pos + 3 + n]) != b[pos + 3 + n] then DecodeFrom(f, b, pos + 1)
    else Data(b[pos + 3..pos + 3 + n])
  }

  method DecodeBinary(f: Format, b: seq<Byte>) returns (r: Decoded)
    ensures r == DecodeFrom(f, b, 0)
  {
    hide LengthByte, XorWith, Checksum;
    var n := Length(f);
    var pos := 0;
    while pos < Bound(|b|, n + 4)
      invariant DecodeFrom(f, b, 0) == DecodeFrom(f, b, pos)
      decreases |b| - pos
    {
      if pos >= |b| { return Fault; }
      if b[pos] != STX { pos := pos + 1; continue; }
      if pos + 1 >= |b| { return Fault; }
      var cmd := b[pos + 1];
      if cmd != COMMAND { pos := pos + 1; continue; }
      if pos + 2 >= |b| { return Fault; }
      var dataLen := b[pos + 2];
      if dataLen != LengthByte(f) { pos := pos + 1; continue; }
      if pos + 3 + n + 2 > |b| { break; }
      if b[pos + 3 + n + 1] != ETX { pos := pos + 1; continue; }
      var checksum := cmd ^ dataLen;
      var data := b[pos + 3..pos + 3 + n];
      ghost var start := checksum;
      XorNone(start, data);
      for i := 0 to n
        invariant checksum == XorWith(start, data[..i])
      {
        XorNext(start, data, i);
        checksum := checksum ^ b[pos + 3 + i];
      }
      assert data[..n] == data;
      ChecksumIs(f, start, data);
      if checksum != b[pos + 3 + n] { pos := pos + 1; continue; }
      return Data(data);
    }
    return Nothing;
  }

  /** What ProcessBuffer does: a read outside the buffer, or dropping this many bytes. */
  datatype Processed = Bad | Drop(count: nat)

  function ProcessFrom(b: seq<Byte>, pos: nat): (r: Processed)
    ensures r.Drop? ==> r.count <= |b|
    decreases |b| - pos
  {
    if pos >= Bound(|b|, 5) then Drop(0)
    else if pos >= |b| then Bad
    else if b[pos] != STX then ProcessFrom(b, pos + 1)
    else if pos + 1 >= |b| then Bad
    else if b[pos + 1] != COMMAND then ProcessFrom(b, pos + 1)
    else if pos + 2 >= |b| then Bad
    else
      var n := b[pos + 2] as int;
      if pos + 3 + n + 2 > |b| then Drop(0)
      else if b[pos + 3 + n + 1] == ETX then Drop(pos + 3 + n + 2)
      else ProcessFrom(b, pos + 1)
  }

  function Zeros(k: nat): seq<Byte> { seq(k, i => 0 as Byte) }

  /** The buffer after dropping; an emptied buffer becomes 256 zero bytes. */
  function Dropped(b: seq<Byte>, count: nat): seq<Byte>
    requires count <= |b|
  {
    if count == 0 then b else if count < |b| then b[count..] else Zeros(256)
  }

  /** The buffer to read into: one that has grown too long is reset. */
  function Room(buffer: seq<Byte>): seq<Byte> { if |buffer| >= MAX_BUFFER_SIZE then Zeros(256) else buffer }

  /** One ReadTemperature on a buffer and the bytes that came in. */
  function Step(f: Format, buffer: seq<Byte>, chunk: seq<Byte>): (Decoded, seq<Byte>) {
    var b := Room(buffer) + chunk;
    var result := DecodeFrom(f, b, 0);
    if result.Fault? then (Fault, b)
    else match ProcessFrom(b, 0) case Bad => (Fault, b) case Drop(count) => (result, Dropped(b, count))
  }

  class Decoder {
    const format: Format
    var buffer: seq<Byte>

    constructor (f: Format)
      ensures format == f && buffer == Zeros(256)
    {
      format, buffer := f, Zeros(256);
    }

    /** The bytes dropped, if no read goes outside the buffer. */
    method ProcessBuffer() returns (r: Processed)
      modifies this`buffer
      ensures r == ProcessFrom(old(buffer), 0)
      ensures buffer == if r.Drop? then Dropped(old(buffer), r.count) else old(buffer)
    {
      var pos := 0;
      while pos < Bound(|buffer|, 5)
        invariant buffer == old(buffer) && ProcessFrom(buffer, 0) == ProcessFrom(buffer, pos)
        decreases |buffer| - pos
      {
        if pos >= |buffer| { return Bad; }
        if buffer[pos] != STX { pos := pos + 1; continue; }
        if pos + 1 >= |buffer| { return Bad; }
        if buffer[pos + 1] != COMMAND { pos := pos + 1; continue; }
        if pos + 2 >= |buffer| { return Bad; }
        var dataLen := buffer[pos + 2] as int;
        if pos + 3 + dataLen + 2 > |buffer| { break; }
        if buffer[pos + 3 + dataLen + 1] == ETX {
          var packetEnd := pos + 3 + dataLen + 2;
          if packetEnd < |buffer| { buffer := buffer[packetEnd..]; } else { buffer := Zeros(256); }
          return Drop(packetEnd);
        }
        pos := pos + 1;
      }
      return Drop(0);
    }

    /** Nothing stands for NAN. */
    method ReadTemperature(chunk: seq<Byte>) returns (r: Decoded)
      modifies this`buffer
      ensures r == Step(format, old(buffer), chunk).0 && buffer == Step(format, old(buffer), chunk).1
    {
      if |buffer| >= MAX_BUFFER_SIZE { buffer := Zeros(256); }
      buffer := buffer + chunk;
      r := DecodeBinary(format, buffer);
      if r.Fault? { return; }
      var processed := ProcessBuffer();
      if processed.Bad? { r := Fault; }
    }
  }
}
