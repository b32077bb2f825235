/** Reading a stream of packets: every payload once, in order, wherever the reads cut the stream. */
module SerialStream {
  import opened Common
  import opened SerialCodec

  // ---------------------------------------------------------------------------------- Streams

  /** The packets of some payloads, one after another. */
  function Stream(f: Format, payloads: seq<seq<Byte>>): seq<Byte> {
    if payloads == [] then [] else Packet(f, payloads[0]) + Stream(f, payloads[1..])
  }

  ghost predicate Payloads(f: Format, payloads: seq<seq<Byte>>) {
    forall i :: 0 <= i < |payloads| ==> |payloads[i]| == Length(f)
  }

  /** Bytes in which no start byte is followed by the command. */
  predicate Quiet(bytes: seq<Byte>) {
    forall p :: 0 <= p < |bytes| - 1 ==> !(bytes[p] == STX && bytes[p + 1] == COMMAND)
  }

  lemma ZerosAreQuiet(k: nat)
    ensures Quiet(Zeros(k))
  {}

  /** What is buffered and what is still to come are some quiet bytes, as the zeros of a new buffer, and then the
      packets of the payloads. */
  ghost predicate Holds(f: Format, buffer: seq<Byte>, future: seq<Byte>, front: seq<Byte>, payloads: seq<seq<Byte>>) {
    Payloads(f, payloads) && Quiet(front) && buffer + future == front + Stream(f, payloads)
  }

  /** The buffered bytes reach the end of the first packet. */
  predicate WholePacket(f: Format, buffered: nat, k: nat, payloads: seq<seq<Byte>>) {
    payloads != [] && buffered >= k + Length(f) + 5
  }

  // ---------------------------------------------------------------------------------- Scanning

  /** Byte i of a front followed by a stream: of the front, or of the first packet. */
  lemma StreamByte(f: Format, front: seq<Byte>, payloads: seq<seq<Byte>>, i: nat)
    requires Payloads(f, payloads) && i < |front + Stream(f, payloads)|
    ensures i < |front| ==> (front + Stream(f, payloads))[i] == front[i]
    ensures |front| <= i < |front| + Length(f) + 5 ==>
      payloads != [] && (front + Stream(f, payloads))[i] == Packet(f, payloads[0])[i - |front|]
  {}

  /** Byte i of the buffer is that of the front, or of the first packet. */
  predicate ByteAgrees(f: Format, b: seq<Byte>, front: seq<Byte>, payloads: seq<seq<Byte>>, i: nat)
    requires Payloads(f, payloads) && i < |b|
  {
    && (i < |front| ==> b[i] == front[i])
    && (|front| <= i < |front| + Length(f) + 5 ==> payloads != [] && b[i] == Packet(f, payloads[0])[i - |front|])
  }

  /** The buffer agrees with the stream as far as it goes. */
  ghost predicate Agrees(f: Format, b: seq<Byte>, front: seq<Byte>, payloads: seq<seq<Byte>>)
    requires Payloads(f, payloads)
  {
    Quiet(front) && forall i :: 0 <= i < |b| ==> ByteAgrees(f, b, front, payloads, i)
  }

  lemma BufferByte(f: Format, b: seq<Byte>, future: seq<Byte>, front: seq<Byte>, payloads: seq<seq<Byte>>, i: nat)
    requires Holds(f, b, future, front, payloads) && i < |b|
    ensures ByteAgrees(f, b, front, payloads, i)
  {
    hide Stream, Quiet, Packet;
    assert (b + future)[i] == b[i];
    StreamByte(f, front, payloads, i);
  }

  lemma HoldsAgrees(f: Format, b: seq<Byte>, future: seq<Byte>, front: seq<Byte>, payloads: seq<seq<Byte>>)
    requires Holds(f, b, future, front, payloads)
    ensures Agrees(f, b, front, payloads)
  {
    hide Stream, Quiet, ByteAgrees;
    forall i | 0 <= i < |b| ensures ByteAgrees(f, b, front, payloads, i) {
      BufferByte(f, b, future, front, payloads, i);
    }
  }

  /** Nothing starts in the front. */
  lemma FrontIsQuiet(f: Format, b: seq<Byte>, front: seq<Byte>, payloads: seq<seq<Byte>>, p: nat)
    requires Payloads(f, payloads) && Agrees(f, b, front, payloads) && p < |front| && p + 1 < |b|
    ensures !(b[p] == STX && b[p + 1] == COMMAND)
  {
    hide Packet;
    assert ByteAgrees(f, b, front, payloads, p) && ByteAgrees(f, b, front, payloads, p + 1);
    if p + 1 == |front| { PacketBytes(f, payloads[0]); }
  }

  // ---------------------------------------------------------------------------------- Reads outside the buffer

  /** A start byte, the command and the length byte of the format at position p. */
  predicate HeaderAt(f: Format, b: seq<Byte>, p: nat) {
    p + 3 <= |b| && b[p] == STX && b[p + 1] == COMMAND && b[p + 2] == LengthByte(f)
  }

  predicate NoHeader(f: Format, b: seq<Byte>, pos: nat) { forall p :: pos <= p < |b| ==> !HeaderAt(f, b, p) }

  lemma NextHeader(f: Format, b: seq<Byte>, pos: nat)
    requires pos < |b|
    ensures NoHeader(f, b, pos) <==> !HeaderAt(f, b, pos) && NoHeader(f, b, pos + 1)
  {
    if !HeaderAt(f, b, pos) && NoHeader(f, b, pos + 1) {
      forall p | pos <= p < |b| ensures !HeaderAt(f, b, p) { if p > pos { assert pos + 1 <= p; } }
    }
  }

  /** Decoding reads outside the buffer exactly when the buffer is shorter than n + 4, so that its bound wraps around,
      and holds no header at which the scan would stop. */
  lemma {:induction false} DecodeFaultsExactly(f: Format, b: seq<Byte>, pos: nat)
    requires pos <= |b|
    ensures DecodeFrom(f, b, pos) == Fault <==> |b| < Length(f) + 4 && NoHeader(f, b, pos)
    decreases |b| - pos
  {
    hide Checksum, LengthByte;
    if pos < |b| {
      DecodeFaultsExactly(f, b, pos + 1);
      NextHeader(f, b, pos);
      if pos + 3 > |b| { assert NoHeader(f, b, pos); }
    }
  }

  /** ProcessBuffer looks at no format. */
  predicate StartAt(b: seq<Byte>, p: nat) { p + 3 <= |b| && b[p] == STX && b[p + 1] == COMMAND }

  predicate NoStart(b: seq<Byte>, pos: nat) { forall p :: pos <= p < |b| ==> !StartAt(b, p) }

  lemma NextStart(b: seq<Byte>, pos: nat)
    requires pos < |b|
    ensures NoStart(b, pos) <==> !StartAt(b, pos) && NoStart(b, pos + 1)
  {
    if !StartAt(b, pos) && NoStart(b, pos + 1) {
      forall p | pos <= p < |b| ensures !StartAt(b, p) { if p > pos { assert pos + 1 <= p; } }
    }
  }

  lemma {:induction false} ProcessFaultsExactly(b: seq<Byte>, pos: nat)
    requires pos <= |b|
    ensures ProcessFrom(b, pos) == Bad <==> |b| < 5 && NoStart(b, pos)
    ensures |b| < 5 && ProcessFrom(b, pos) != Bad ==> ProcessFrom(b, pos) == Drop(0)
    decreases |b| - pos
  {
    if pos < |b| {
      ProcessFaultsExactly(b, pos + 1);
      NextStart(b, pos);
      if pos + 3 > |b| { assert NoStart(b, pos); }
    }
  }

  /** So does the whole read: on any buffer and any bytes, the decoding decides. */
  lemma StepFaultsExactly(f: Format, buffer: seq<Byte>, chunk: seq<Byte>)
    ensures var b := Room(buffer) + chunk;
            Step(f, buffer, chunk).0 == Fault <==>
              |b| < Length(f) + 4 && NoHeader(f, b, 0)
  {
    hide DecodeFrom, ProcessFrom;
    var b := Room(buffer) + chunk;
    DecodeFaultsExactly(f, b, 0);
    ProcessFaultsExactly(b, 0);
    if |b| < 5 {
      forall p | 0 <= p < |b| && HeaderAt(f, b, p) ensures StartAt(b, p) {}
    }
  }

  /** Too few bytes: the bound wraps around and the first header is not there yet. */
  predicate TooShort(f: Format, size: nat, k: nat, left: nat) { size < Length(f) + 4 && (left == 0 || size < k + 3) }

  /** On the beginning of a stream only the length of the buffer matters. */
  lemma StreamFaultsExactly(f: Format, b: seq<Byte>, front: seq<Byte>, payloads: seq<seq<Byte>>)
    requires Payloads(f, payloads) && Agrees(f, b, front, payloads)
    ensures DecodeFrom(f, b, 0) == Fault <==> TooShort(f, |b|, |front|, |payloads|)
  {
    hide Checksum, Packet;
    DecodeFaultsExactly(f, b, 0);
    if |b| < Length(f) + 4 {
      if |front| + 3 <= |b| {
        CutAt(f, b, front, payloads);
        assert HeaderAt(f, b, |front|);
      } else {
        forall p | 0 <= p < |b| ensures !HeaderAt(f, b, p) {
          if p < |front| && p + 1 < |b| { FrontIsQuiet(f, b, front, payloads, p); }
        }
      }
    }
  }

  /** The bytes of a packet. */
  lemma PacketBytes(f: Format, data: seq<Byte>)
    requires |data| == Length(f)
    ensures var p, n := Packet(f, data), Length(f);
            && p[0] == STX && p[1] == COMMAND && p[2] == LengthByte(f) && p[3..3 + n] == data
            && p[3 + n] == Checksum(f, data) && p[4 + n] == ETX
  {}

  /** Decoding passes the zeros and takes the first packet if it is whole; else it finds nothing, even in a packet
      cut off anywhere, and never reads outside a buffer of n + 4 bytes. */
  lemma {:induction false} DecodeFinds(f: Format, b: seq<Byte>, front: seq<Byte>, payloads: seq<seq<Byte>>, pos: nat)
    requires Payloads(f, payloads) && Agrees(f, b, front, payloads) && |b| >= Length(f) + 4 && pos <= |front|
    ensures DecodeFrom(f, b, pos) == if WholePacket(f, |b|, |front|, payloads) then Data(payloads[0]) else Nothing
    decreases |front| - pos
  {
    hide Checksum, Packet, LengthByte;
    var n := Length(f);
    if pos < |b| - (n + 4) {
      if pos < |front| {
        FrontIsQuiet(f, b, front, payloads, pos);
        DecodeFinds(f, b, front, payloads, pos + 1);
      } else {
        WholeAt(f, b, front, payloads);
      }
    }
  }

  /** Where the first packet stands whole, its fields are in place. */
  lemma WholeAt(f: Format, b: seq<Byte>, front: seq<Byte>, payloads: seq<seq<Byte>>)
    requires Payloads(f, payloads) && Agrees(f, b, front, payloads) && |b| >= |front| + Length(f) + 5
    ensures payloads != [] && b[|front|] == STX && b[|front| + 1] == COMMAND && b[|front| + 2] == LengthByte(f)
    ensures var n, data := Length(f), payloads[0];
            && b[|front| + 3..|front| + 3 + n] == data && b[|front| + 3 + n] == Checksum(f, data)
            && b[|front| + 4 + n] == ETX
  {
    hide Checksum, Packet;
    var n, k := Length(f), |front|;
    assert ByteAgrees(f, b, front, payloads, k);
    var p := Packet(f, payloads[0]);
    PacketBytes(f, payloads[0]);
    forall i | 0 <= i < n + 5 ensures b[k + i] == p[i] { assert ByteAgrees(f, b, front, payloads, k + i); }
    assert b[k + 0] == p[0];
    assert b[k..k + n + 5] == p;
    SliceOfSlice(b, k, n + 5, 3, 3 + n);
  }

  /** ProcessBuffer drops the zeros and the first packet if it is whole; else it drops nothing. */
  lemma {:induction false} ProcessFinds(f: Format, b: seq<Byte>, front: seq<Byte>, payloads: seq<seq<Byte>>, pos: nat)
    requires Payloads(f, payloads) && Agrees(f, b, front, payloads) && |b| >= 5 && pos <= |front|
    ensures ProcessFrom(b, pos) ==
            if WholePacket(f, |b|, |front|, payloads) then Drop(|front| + Length(f) + 5) else Drop(0)
    decreases |front| - pos
  {
    hide Checksum, Packet;
    if pos < |b| - 5 {
      if pos < |front| {
        FrontIsQuiet(f, b, front, payloads, pos);
        ProcessFinds(f, b, front, payloads, pos + 1);
      } else if WholePacket(f, |b|, |front|, payloads) {
        WholeAt(f, b, front, payloads);
        LengthIs(f);
      } else {
        CutAt(f, b, front, payloads);
        LengthIs(f);
      }
    }
  }

  lemma LengthIs(f: Format)
    ensures LengthByte(f) as int == Length(f)
  {}

  /** A packet that is cut off still shows its first bytes. */
  lemma CutAt(f: Format, b: seq<Byte>, front: seq<Byte>, payloads: seq<seq<Byte>>)
    requires Payloads(f, payloads) && Agrees(f, b, front, payloads) && |b| >= |front| + 3
    ensures payloads != [] && b[|front|] == STX && b[|front| + 1] == COMMAND && b[|front| + 2] == LengthByte(f)
  {
    hide Checksum, Packet;
    var k := |front|;
    assert ByteAgrees(f, b, front, payloads, k) && ByteAgrees(f, b, front, payloads, k + 1);
    assert ByteAgrees(f, b, front, payloads, k + 2);
    PacketBytes(f, payloads[0]);
  }

  // ---------------------------------------------------------------------------------- Any bytes

  /** A whole packet of the format stands at position p, with its checksum. */
  predicate StandsAt(f: Format, b: seq<Byte>, p: nat) {
    p + Length(f) + 5 <= |b| && b[p..p + Length(f) + 5] == Packet(f, b[p + 3..p + 3 + Length(f)])
  }

  /** A position at which decoding stops with a payload. */
  lemma StandsExactly(f: Format, b: seq<Byte>, p: nat)
    requires p + Length(f) + 5 <= |b|
    ensures var n := Length(f);
            StandsAt(f, b, p) <==>
              && b[p] == STX && b[p + 1] == COMMAND && b[p + 2] == LengthByte(f) && b[p + 4 + n] == ETX
              && b[p + 3 + n] == Checksum(f, b[p + 3..p + 3 + n])
  {
    hide Checksum, LengthByte;
    var n := Length(f);
    var part, data := b[p..p + n + 5], b[p + 3..p + 3 + n];
    assert part[0] == b[p] && part[1] == b[p + 1] && part[2] == b[p + 2];
    SliceOfSlice(b, p, n + 5, 3, 3 + n);
    assert part[3 + n] == b[p + 3 + n] && part[4 + n] == b[p + 4 + n];
    InThree(part, n);
    PacketHas(f, data, part);
  }

  lemma InThree(part: seq<Byte>, n: nat)
    requires |part| == n + 5
    ensures part == [part[0], part[1], part[2]] + part[3..3 + n] + [part[3 + n], part[4 + n]]
  {}

  lemma SliceOfSlice(b: seq<Byte>, p: nat, length: nat, i: nat, j: nat)
    requires p + length <= |b| && i <= j <= length
    ensures b[p..p + length][i..j] == b[p + i..p + j]
  {
    var part := b[p..p + length];
    forall k | 0 <= k < j - i ensures part[i..j][k] == b[p + i..p + j][k] { assert part[i + k] == b[p + (i + k)]; }
  }

  lemma PacketHas(f: Format, data: seq<Byte>, part: seq<Byte>)
    requires |data| == Length(f) && |part| == Length(f) + 5
    requires part == [part[0], part[1], part[2]] + data + [part[3 + Length(f)], part[4 + Length(f)]]
    ensures var n := Length(f);
            part == Packet(f, data) <==>
              && part[0] == STX && part[1] == COMMAND && part[2] == LengthByte(f)
              && part[3 + n] == Checksum(f, data) && part[4 + n] == ETX
  {
    hide Checksum, LengthByte;
    var packet, n := Packet(f, data), Length(f);
    assert packet[0] == STX && packet[1] == COMMAND && packet[2] == LengthByte(f);
    assert packet[3 + n] == Checksum(f, data) && packet[4 + n] == ETX;
  }

  /** On any bytes, garbled ones included: decoding returns a payload exactly when a whole packet with the right
      checksum stands somewhere, and then that of the first one. */
  lemma {:induction false} DecodeExactly(f: Format, b: seq<Byte>, pos: nat)
    requires pos <= |b|
    ensures var r := DecodeFrom(f, b, pos);
            && (r.Data? <==> exists p :: pos <= p < |b| && StandsAt(f, b, p))
            && (r.Data? ==> exists p: nat :: IsFirst(f, b, pos, p) && r.bytes == b[p + 3..p + 3 + Length(f)])
    decreases |b| - pos
  {
    hide Checksum, LengthByte, Packet, StandsAt;
    var n := Length(f);
    if pos + n + 5 <= |b| {
      StandsExactly(f, b, pos);
      if StandsAt(f, b, pos) {
        assert IsFirst(f, b, pos, pos);
      } else {
        DecodeExactly(f, b, pos + 1);
        var r := DecodeFrom(f, b, pos);
        assert r == DecodeFrom(f, b, pos + 1);
        if r.Data? {
          var p: nat :| IsFirst(f, b, pos + 1, p) && r.bytes == b[p + 3..p + 3 + Length(f)];
          FirstFromNext(f, b, pos, p);
        }
      }
    } else {
      NoRoom(f, b, pos);
      forall p | pos <= p ensures !StandsAt(f, b, p) { NeedsRoom(f, b, p); }
    }
  }

  /** The first packet at or after a position. */
  predicate IsFirst(f: Format, b: seq<Byte>, pos: nat, p: nat) {
    pos <= p && StandsAt(f, b, p) && p + Length(f) + 5 <= |b| && forall q :: pos <= q < p ==> !StandsAt(f, b, q)
  }

  lemma FirstFromNext(f: Format, b: seq<Byte>, pos: nat, p: nat)
    requires !StandsAt(f, b, pos) && IsFirst(f, b, pos + 1, p)
    ensures IsFirst(f, b, pos, p)
  {
    hide StandsAt;
  }

  lemma NeedsRoom(f: Format, b: seq<Byte>, p: nat)
    requires p + Length(f) + 5 > |b|
    ensures !StandsAt(f, b, p)
  {}

  lemma {:induction false} NoRoom(f: Format, b: seq<Byte>, pos: nat)
    requires pos + Length(f) + 5 > |b|
    ensures !DecodeFrom(f, b, pos).Data?
    decreases |b| - pos
  {
    hide Checksum, LengthByte;
    if pos < |b| { NoRoom(f, b, pos + 1); }
  }

  lemma {:induction false} XorUpdate(start: Byte, data: seq<Byte>, i: nat, x: Byte)
    requires i < |data|
    ensures XorWith(start, data[i := x]) == XorWith(start, data) ^ data[i] ^ x
  {
    var init, last := data[..|data| - 1], data[|data| - 1];
    if i < |data| - 1 {
      assert data[i := x][..|data| - 1] == init[i := x];
      XorUpdate(start, init, i, x);
      XorRegroup(XorWith(start, init), data[i], x, last);
    } else {
      assert data[i := x][..|data| - 1] == init;
      XorReplace(XorWith(start, init), last, x);
    }
  }

  lemma XorRegroup(a: Byte, b: Byte, c: Byte, d: Byte)
    ensures (a ^ b ^ c) ^ d == (a ^ d) ^ b ^ c
  {}

  lemma XorReplace(a: Byte, b: Byte, c: Byte)
    ensures a ^ c == (a ^ b) ^ b ^ c
  {}

  lemma XorChanged(a: Byte, b: Byte, c: Byte, d: Byte)
    requires d == a ^ b ^ c
    ensures d == a <==> c == b
  {}

  lemma UpdateCancels(start: Byte, data: seq<Byte>, i: nat, x: Byte)
    requires i < |data|
    ensures XorWith(start, data[i := x]) == XorWith(start, data) <==> x == data[i]
  {
    hide XorWith;
    XorUpdate(start, data, i, x);
    XorChanged(XorWith(start, data), data[i], x, XorWith(start, data[i := x]));
  }

  /** The checksum tells apart payloads that differ in one byte. */
  lemma OneByteChecked(f: Format, data: seq<Byte>, i: nat, x: Byte)
    requires |data| == Length(f) && i < |data|
    ensures Checksum(f, data[i := x]) == Checksum(f, data) <==> x == data[i]
  {
    hide XorWith, LengthByte, Checksum;
    var start := COMMAND ^ LengthByte(f);
    ChecksumIs(f, start, data);
    ChecksumIs(f, start, data[i := x]);
    UpdateCancels(start, data, i, x);
  }

  /** So a packet with one garbled byte of payload is no packet of its payload. */
  lemma GarbledIsNoPacket(f: Format, data: seq<Byte>, i: nat, x: Byte)
    requires |data| == Length(f) && i < |data| && x != data[i]
    ensures !StandsAt(f, Packet(f, data)[3 + i := x], 0)
  {
    hide Checksum, LengthByte;
    var packet, n := Packet(f, data), Length(f);
    var garbled := packet[3 + i := x];
    OneByteChecked(f, data, i, x);
    PacketBytes(f, data);
    assert garbled[3..3 + n] == data[i := x];
    StandsExactly(f, garbled, 0);
  }

  /** A frame for ProcessBuffer: start byte, command, any length byte, and ETX where that length puts it. */
  predicate FrameAt(b: seq<Byte>, p: nat) {
    && p + 5 < |b| && b[p] == STX && b[p + 1] == COMMAND
    && p + 5 + b[p + 2] as int <= |b| && b[p + 4 + b[p + 2] as int] == ETX
  }

  /** The beginning of a frame that runs past the end of the buffer. */
  predicate CutOffAt(b: seq<Byte>, p: nat) {
    p + 5 < |b| && b[p] == STX && b[p + 1] == COMMAND && p + 5 + b[p + 2] as int > |b|
  }

  ghost predicate IsFirstFrame(b: seq<Byte>, pos: nat, p: nat) {
    pos <= p && FrameAt(b, p) && forall q :: pos <= q < p ==> !FrameAt(b, q) && !CutOffAt(b, q)
  }

  /** On any bytes: ProcessBuffer drops everything up to the end of the first frame, unless one before it is cut off;
      and nothing where there is none. */
  lemma {:induction false} ProcessExactly(b: seq<Byte>, pos: nat)
    requires pos <= |b| && |b| >= 5
    ensures ProcessFrom(b, pos).Drop?
    ensures ProcessFrom(b, pos).count > 0 <==> exists p: nat :: IsFirstFrame(b, pos, p)
    ensures ProcessFrom(b, pos).count > 0 ==>
      exists p: nat :: IsFirstFrame(b, pos, p) && ProcessFrom(b, pos).count == p + 5 + b[p + 2] as int
    decreases |b| - pos
  {
    if pos + 5 < |b| {
      if FrameAt(b, pos) {
        assert IsFirstFrame(b, pos, pos);
      } else if CutOffAt(b, pos) {
        assert ProcessFrom(b, pos) == Drop(0);
      } else {
        ProcessExactly(b, pos + 1);
        assert ProcessFrom(b, pos) == ProcessFrom(b, pos + 1);
        if p: nat :| IsFirstFrame(b, pos, p) { FrameFromNext(b, pos, p); }
        if ProcessFrom(b, pos).count > 0 {
          var p: nat :| IsFirstFrame(b, pos + 1, p) && ProcessFrom(b, pos).count == p + 5 + b[p + 2] as int;
          FrameFromNext(b, pos, p);
        }
      }
    }
  }

  lemma FrameFromNext(b: seq<Byte>, pos: nat, p: nat)
    requires !FrameAt(b, pos) && !CutOffAt(b, pos)
    ensures IsFirstFrame(b, pos, p) <==> IsFirstFrame(b, pos + 1, p)
  {
    hide FrameAt, CutOffAt;
  }

  // ---------------------------------------------------------------------------------- One read

  lemma StreamStep(f: Format, payloads: seq<seq<Byte>>)
    requires payloads != []
    ensures Stream(f, payloads) == Packet(f, payloads[0]) + Stream(f, payloads[1..])
  {}

  /** A read into a buffer under the limit: too few bytes make it read outside the buffer; with the whole next packet it
      returns the payload and leaves the stream after it; any other read returns NAN and leaves the stream as it is. */
  lemma ReadStep(f: Format, buffer: seq<Byte>, chunk: seq<Byte>, future: seq<Byte>, front: seq<Byte>,
                 payloads: seq<seq<Byte>>)
    requires Holds(f, buffer, chunk + future, front, payloads) && |buffer| < MAX_BUFFER_SIZE
    ensures var (result, after) := Step(f, buffer, chunk);
            var size := |buffer| + |chunk|;
            if TooShort(f, size, |front|, |payloads|) then result == Fault
            else if WholePacket(f, size, |front|, payloads)
            then result == Data(payloads[0]) && |after| == SizeAfter(f, size, |front|) &&
                 Holds(f, after, future, Zeros(ZerosAfter(f, size, |front|)), payloads[1..])
            else result == Nothing && Holds(f, after, future, front, payloads) && |after| == size
  {
    hide Stream, Packet, DecodeFrom, ProcessFrom, Checksum, Agrees, Dropped;
    var b := buffer + chunk;
    assert buffer + (chunk + future) == b + future;
    HoldsAgrees(f, b, future, front, payloads);
    StreamFaultsExactly(f, b, front, payloads);
    if !TooShort(f, |b|, |front|, |payloads|) {
      if |b| >= Length(f) + 4 {
        DecodeFinds(f, b, front, payloads, 0);
        ProcessFinds(f, b, front, payloads, 0);
      } else {
        CutShort(f, b, front, payloads);
      }
      if WholePacket(f, |b|, |front|, payloads) {
        StreamStep(f, payloads);
        DropsPacket(f, b, future, front, payloads);
      } else {
        NothingDropped(b);
      }
    }
  }

  lemma NothingDropped(b: seq<Byte>)
    ensures Dropped(b, 0) == b
  {}

  /** A short buffer that shows the header: nothing is found and nothing dropped. */
  lemma CutShort(f: Format, b: seq<Byte>, front: seq<Byte>, payloads: seq<seq<Byte>>)
    requires Payloads(f, payloads) && Agrees(f, b, front, payloads)
    requires |b| < Length(f) + 4 && payloads != [] && |b| >= |front| + 3
    ensures DecodeFrom(f, b, 0) == Nothing && ProcessFrom(b, 0) == Drop(0)
  {
    hide Checksum, Packet, LengthByte;
    CutAt(f, b, front, payloads);
    assert HeaderAt(f, b, |front|) && StartAt(b, |front|);
    DecodeFaultsExactly(f, b, 0);
    NoDataIn(f, b, 0);
    ProcessFaultsExactly(b, 0);
    if |b| >= 5 { ProcessFinds(f, b, front, payloads, 0); }
  }

  lemma {:induction false} NoDataIn(f: Format, b: seq<Byte>, pos: nat)
    requires |b| < Length(f) + 5
    ensures !DecodeFrom(f, b, pos).Data?
    decreases |b| - pos
  {
    hide Checksum, LengthByte;
    if pos < |b| { NoDataIn(f, b, pos + 1); }
  }

  /** The zeros in front and the size of the buffer once the first packet has been dropped. */
  function ZerosAfter(f: Format, size: nat, k: nat): nat { if size > k + Length(f) + 5 then 0 else 256 }

  function SizeAfter(f: Format, size: nat, k: nat): nat {
    if size > k + Length(f) + 5 then size - (k + Length(f) + 5) else 256
  }

  lemma DropsPacket(f: Format, b: seq<Byte>, future: seq<Byte>, front: seq<Byte>, payloads: seq<seq<Byte>>)
    requires Holds(f, b, future, front, payloads) && WholePacket(f, |b|, |front|, payloads)
    ensures var after := Dropped(b, |front| + Length(f) + 5);
            && Holds(f, after, future, Zeros(ZerosAfter(f, |b|, |front|)), payloads[1..])
            && |after| == SizeAfter(f, |b|, |front|)
  {
    hide Stream, Packet;
    StreamStep(f, payloads);
    var end := |front| + Length(f) + 5;
    var rest := Stream(f, payloads[1..]);
    assert front + Stream(f, payloads) == front + Packet(f, payloads[0]) + rest;
    assert (b + future)[end..] == b[end..] + future;
    assert (front + Packet(f, payloads[0]) + rest)[end..] == rest;
    assert b[end..] + future == rest;
    if end < |b| {
      assert Zeros(0) + rest == rest;
    } else {
      assert b[end..] == [] && [] + future == future;
    }
  }

  // ---------------------------------------------------------------------------------- Whole runs

  /** The results and the last buffer of reads with these chunks. */
  function Run(f: Format, buffer: seq<Byte>, chunks: seq<seq<Byte>>): (seq<Decoded>, seq<Byte>)
    decreases |chunks|
  {
    if chunks == [] then ([], buffer)
    else
      var (result, after) := Step(f, buffer, chunks[0]);
      var (results, last) := Run(f, after, chunks[1..]);
      ([result] + results, last)
  }

  /** What becomes of a run: no read is too short and none finds the buffer at its limit, or the first read that is. */
  datatype Verdict = Fine | ShortRead | Overflow

  /** The verdict on reads of these lengths, from a buffer of the given size that starts with k quiet bytes, when the
      stream has `left` packets. */
  function Judge(f: Format, k: nat, size: nat, lengths: seq<nat>, left: nat): Verdict
    decreases |lengths|
  {
    if lengths == [] then Fine
    else if size >= MAX_BUFFER_SIZE then Overflow
    else
      var now := size + lengths[0];
      if TooShort(f, now, k, left) then ShortRead
      else if left > 0 && now >= k + Length(f) + 5 then
        Judge(f, ZerosAfter(f, now, k), SizeAfter(f, now, k), lengths[1..], left - 1)
      else Judge(f, k, now, lengths[1..], left)
  }

  function Lengths(chunks: seq<seq<Byte>>): (r: seq<nat>)
    ensures |r| == |chunks|
  {
    if chunks == [] then [] else [|chunks[0]|] + Lengths(chunks[1..])
  }

  function Joined(chunks: seq<seq<Byte>>): seq<Byte> { if chunks == [] then [] else chunks[0] + Joined(chunks[1..]) }

  /** The payloads that were returned; NAN returns nothing. */
  function Returned(results: seq<Decoded>): seq<seq<Byte>> {
    if results == [] then []
    else (match results[0] case Data(bytes) => [bytes] case _ => []) + Returned(results[1..])
  }

  /** If the lengths of the reads are fine, the payloads are returned in the order sent, each once and none made up, and
      no read goes outside the buffer; what is not yet returned is still in the buffer or to come. */
  lemma {:induction false} RunReturns(f: Format, buffer: seq<Byte>, chunks: seq<seq<Byte>>, future: seq<Byte>,
                                      front: seq<Byte>, payloads: seq<seq<Byte>>)
    requires Holds(f, buffer, Joined(chunks) + future, front, payloads)
    requires Judge(f, |front|, |buffer|, Lengths(chunks), |payloads|) == Fine
    ensures var (results, last) := Run(f, buffer, chunks);
            && !HasFault(results)
            && Returned(results) <= payloads
            && exists front0 :: Holds(f, last, future, front0, payloads[|Returned(results)|..])
    decreases |chunks|
  {
    hide Step, Stream, Holds, Returned, WholePacket, Judge;
    if chunks == [] {
      NothingRun(f, buffer);
      assert [] + future == future;
      assert payloads[0..] == payloads;
    } else {
      var rest := Joined(chunks[1..]) + future;
      assert Joined(chunks) + future == chunks[0] + rest;
      FirstJudged(f, |front|, |buffer|, chunks, |payloads|);
      ReadStep(f, buffer, chunks[0], rest, front, payloads);
      var (result, after) := Step(f, buffer, chunks[0]);
      var now := |buffer| + |chunks[0]|;
      WholeIsThere(f, now, |front|, payloads);
      if WholePacket(f, now, |front|, payloads) {
        RunReturns(f, after, chunks[1..], future, Zeros(ZerosAfter(f, now, |front|)), payloads[1..]);
        FirstOfPayloads(payloads, Run(f, after, chunks[1..]).0);
      } else {
        RunReturns(f, after, chunks[1..], future, front, payloads);
        NothingReturned(Run(f, after, chunks[1..]).0);
      }
    }
  }

  predicate HasFault(results: seq<Decoded>) { exists i :: 0 <= i < |results| && results[i] == Fault }

  /** Whatever the lengths: as long as the buffer stays under its limit, some read goes outside the buffer exactly when
      some read is too short. */
  lemma {:induction false} RunFaultsExactly(f: Format, buffer: seq<Byte>, chunks: seq<seq<Byte>>, future: seq<Byte>,
                                            front: seq<Byte>, payloads: seq<seq<Byte>>)
    requires Holds(f, buffer, Joined(chunks) + future, front, payloads)
    requires Judge(f, |front|, |buffer|, Lengths(chunks), |payloads|) != Overflow
    ensures HasFault(Run(f, buffer, chunks).0) <==>
            Judge(f, |front|, |buffer|, Lengths(chunks), |payloads|) == ShortRead
    decreases |chunks|
  {
    hide Step, Stream, Holds, WholePacket, Judge;
    if chunks == [] {
      NothingRun(f, buffer);
      NothingJudged(f, |front|, |buffer|, |payloads|);
    } else {
      var rest := Joined(chunks[1..]) + future;
      assert Joined(chunks) + future == chunks[0] + rest;
      FirstJudged(f, |front|, |buffer|, chunks, |payloads|);
      ReadStep(f, buffer, chunks[0], rest, front, payloads);
      var (result, after) := Step(f, buffer, chunks[0]);
      var now := |buffer| + |chunks[0]|;
      var results := Run(f, buffer, chunks).0;
      WholeIsThere(f, now, |front|, payloads);
      if TooShort(f, now, |front|, |payloads|) {
        assert results[0] == Fault;
      } else if WholePacket(f, now, |front|, payloads) {
        RunFaultsExactly(f, after, chunks[1..], future, Zeros(ZerosAfter(f, now, |front|)), payloads[1..]);
        assert results == [result] + Run(f, after, chunks[1..]).0 && |payloads[1..]| == |payloads| - 1;
        LaterFault(result, Run(f, after, chunks[1..]).0);
      } else {
        RunFaultsExactly(f, after, chunks[1..], future, front, payloads);
        LaterFault(result, Run(f, after, chunks[1..]).0);
      }
    }
  }

  lemma LaterFault(first: Decoded, more: seq<Decoded>)
    requires first != Fault
    ensures HasFault([first] + more) <==> HasFault(more)
  {
    var all := [first] + more;
    forall i | 0 <= i < |more| ensures all[i + 1] == more[i] {}
    if j :| 0 <= j < |all| && all[j] == Fault { assert more[j - 1] == Fault; }
  }

  lemma FirstJudged(f: Format, k: nat, size: nat, chunks: seq<seq<Byte>>, left: nat)
    requires chunks != [] && Judge(f, k, size, Lengths(chunks), left) != Overflow
    ensures size < MAX_BUFFER_SIZE
    ensures var now, rest := size + |chunks[0]|, Lengths(chunks[1..]);
            Judge(f, k, size, Lengths(chunks), left) ==
            if TooShort(f, now, k, left) then ShortRead
            else if left > 0 && now >= k + Length(f) + 5
            then Judge(f, ZerosAfter(f, now, k), SizeAfter(f, now, k), rest, left - 1)
            else Judge(f, k, now, rest, left)
  {
    assert Lengths(chunks)[1..] == Lengths(chunks[1..]);
  }

  lemma NothingJudged(f: Format, k: nat, size: nat, left: nat)
    ensures Judge(f, k, size, Lengths([]), left) == Fine
  {}

  /** An ordinary way to cut a stream: a read ends one byte into a packet, and the next one brings one byte. */
  lemma SplitHeaderFaults(f: Format, data: seq<Byte>)
    requires |data| == Length(f)
    ensures Step(f, Zeros(256), Packet(f, data) + [STX]) == (Data(data), [STX])
    ensures Step(f, [STX], [COMMAND]).0 == Fault
  {
    hide Step, Packet;
    var payloads := [data, data];
    var tail := Packet(f, data)[1..];
    FirstByte(f, data);
    StreamOfTwo(f, data);
    var chunk := Packet(f, data) + [STX];
    assert Zeros(256) + (chunk + tail) == Zeros(256) + Stream(f, payloads);
    ReadStep(f, Zeros(256), chunk, tail, Zeros(256), payloads);
    var after := Step(f, Zeros(256), chunk).1;
    OneByteLeft(f, after, tail, data);
    StepFaultsExactly(f, [STX], [COMMAND]);
    assert |[STX] + [COMMAND]| == 2;
  }

  lemma FirstByte(f: Format, data: seq<Byte>)
    ensures Packet(f, data) == [STX] + Packet(f, data)[1..]
  {}

  lemma StreamOfTwo(f: Format, data: seq<Byte>)
    ensures Stream(f, [data, data]) == Packet(f, data) + Packet(f, data)
  {
    hide Packet;
    var payloads := [data, data];
    assert payloads[1..] == [data] && [data][1..] == [];
    assert Stream(f, [data]) == Packet(f, data) + [];
  }

  lemma OneByteLeft(f: Format, after: seq<Byte>, tail: seq<Byte>, data: seq<Byte>)
    requires |after| == 1 && Holds(f, after, tail, Zeros(0), [data, data][1..])
    ensures after == [STX]
  {
    hide Packet;
    assert [data, data][1..] == [data] && [data][1..] == [];
    assert Stream(f, [data]) == Packet(f, data) + [];
    FirstByte(f, data);
    assert after[0] == (after + tail)[0];
    assert (Zeros(0) + Stream(f, [data]))[0] == Packet(f, data)[0];
  }

  /** At the limit the buffered bytes are thrown away: the read goes on as from a new buffer. */
  lemma ResetForgets(f: Format, buffer: seq<Byte>, chunk: seq<Byte>)
    requires |buffer| >= MAX_BUFFER_SIZE
    ensures Step(f, buffer, chunk) == Step(f, Zeros(256), chunk)
  {
    hide DecodeFrom, ProcessFrom;
  }

  /** A reset loses the payloads buffered. If the buffer ends with a packet, the stream goes on with the others. If it
      ends within packet j, that one is lost as well: the rest of it is still to come, and the stream goes on behind it
      exactly when the rest is quiet. */
  lemma ResetLoses(f: Format, buffer: seq<Byte>, chunk: seq<Byte>, future: seq<Byte>, front: seq<Byte>,
                   payloads: seq<seq<Byte>>, j: nat, cut: nat)
    requires Holds(f, buffer, chunk + future, front, payloads) && j <= |payloads|
    requires |buffer| == |front| + |Stream(f, payloads[..j])| + cut
    requires cut == 0 || (j < |payloads| && cut < Length(f) + 5)
    ensures cut == 0 ==> Holds(f, Zeros(256), chunk + future, Zeros(256), payloads[j..])
    ensures cut > 0 ==>
      var rest := Packet(f, payloads[j])[cut..];
      Holds(f, Zeros(256), chunk + future, Zeros(256) + rest, payloads[j + 1..]) <==> Quiet(rest)
  {
    hide Quiet, Packet, Stream;
    StreamParts(f, payloads, j);
    var before, after := Stream(f, payloads[..j]), Stream(f, payloads[j..]);
    var coming := chunk + future;
    assert buffer + coming == front + (before + after);
    assert coming == (buffer + coming)[|buffer|..] == (front + (before + after))[|buffer|..] == after[cut..];
    if cut == 0 {
      ZerosAreQuiet(256);
    } else {
      StreamStep(f, payloads[j..]);
      assert payloads[j..][0] == payloads[j] && payloads[j..][1..] == payloads[j + 1..];
      var rest, others := Packet(f, payloads[j])[cut..], Stream(f, payloads[j + 1..]);
      assert after == Packet(f, payloads[j]) + others;
      assert after[cut..] == rest + others;
      assert Zeros(256) + (rest + others) == (Zeros(256) + rest) + others;
      QuietBehindZeros(rest);
    }
  }

  lemma QuietBehindZeros(bytes: seq<Byte>)
    ensures Quiet(Zeros(256) + bytes) <==> Quiet(bytes)
  {
    var all := Zeros(256) + bytes;
    if Quiet(all) {
      forall p | 0 <= p < |bytes| - 1 ensures !(bytes[p] == STX && bytes[p + 1] == COMMAND) {
        assert all[256 + p] == bytes[p] && all[256 + p + 1] == bytes[p + 1];
      }
    }
  }

  /** Of a packet cut anywhere behind its first byte, the rest is quiet unless the length byte, the payload and the
      checksum bring a start byte and the command, one behind the other. */
  lemma RestIsQuiet(f: Format, data: seq<Byte>, cut: nat)
    requires |data| == Length(f) && 0 < cut < Length(f) + 5
    ensures Quiet(Packet(f, data)[cut..]) <==>
            forall p :: (if cut < 2 then 2 else cut) <= p < Length(f) + 3 ==>
              !(Packet(f, data)[p] == STX && Packet(f, data)[p + 1] == COMMAND)
  {
    hide Packet;
    var packet := Packet(f, data);
    PacketBytes(f, data);
    var rest := packet[cut..];
    if Quiet(rest) {
      forall p | (if cut < 2 then 2 else cut) <= p < Length(f) + 3
        ensures !(packet[p] == STX && packet[p + 1] == COMMAND)
      {
        assert !(rest[p - cut] == STX && rest[p - cut + 1] == COMMAND);
      }
    }
  }

  /** A packet of the shortest format is always passed. */
  lemma ByteAlwaysQuiet(data: seq<Byte>, cut: nat)
    requires |data| == 1 && 0 < cut < 6
    ensures Quiet(Packet(ByteInteger, data)[cut..])
  {
    RestIsQuiet(ByteInteger, data, cut);
    assert data[..0] == [];
    assert XorWith(COMMAND ^ LengthByte(ByteInteger), data) == COMMAND ^ 1 ^ data[0];
  }

  lemma XorOfFour(start: Byte, data: seq<Byte>)
    requires |data| == 4
    ensures XorWith(start, data) == start ^ data[0] ^ data[1] ^ data[2] ^ data[3]
  {
    hide XorWith;
    XorNone(start, data);
    XorNext(start, data, 0);
    XorNext(start, data, 1);
    XorNext(start, data, 2);
    XorNext(start, data, 3);
    assert data[..4] == data;
  }

  lemma FloatPacket(a: Byte, b: Byte, c: Byte, d: Byte)
    ensures Packet(FloatingPoint, [a, b, c, d]) == [STX, COMMAND, 4, a, b, c, d, COMMAND ^ 4 ^ a ^ b ^ c ^ d, ETX]
  {
    XorOfFour(COMMAND ^ 4, [a, b, c, d]);
  }

  lemma {:induction false} DecodeSkips(f: Format, b: seq<Byte>, pos: nat, end: nat)
    requires pos <= end && end + Length(f) + 4 <= |b| && forall p :: pos <= p < end ==> b[p] != STX
    ensures DecodeFrom(f, b, pos) == DecodeFrom(f, b, end)
    decreases |b| - pos
  {
    hide Checksum, LengthByte;
    if pos < end { DecodeSkips(f, b, pos + 1, end); }
  }

  /** An input on which the rest is not quiet: a reset within the first five bytes of this packet, and whatever follows
      in a next one that starts with 3. The read makes up a payload that was never sent, out of the two. */
  lemma ResetMakesUp(cut: nat, x: Byte, y: Byte, z: Byte)
    requires 0 < cut < 5
    ensures var rest := Packet(FloatingPoint, [3, STX, COMMAND, 4])[cut..];
            !Quiet(rest) &&
            Step(FloatingPoint, Zeros(256), rest + Packet(FloatingPoint, [3, x, y, z])).0 == Data([1, 3, STX, COMMAND])
  {
    hide DecodeFrom, Packet, Quiet;
    FloatPacket(3, STX, COMMAND, 4);
    FloatPacket(3, x, y, z);
    var first, next := Packet(FloatingPoint, [3, STX, COMMAND, 4]), Packet(FloatingPoint, [3, x, y, z]);
    var front, back := Zeros(256) + first[cut..4], first[4..] + next;
    assert first[cut..] == first[cut..4] + first[4..];
    assert Zeros(256) + (first[cut..] + next) == front + back;
    NineBytes(first, next);
    MadeUpBehind(front, back);
    MadeUpStep(front + back);
    NotQuiet(first[cut..], 4 - cut);
  }

  lemma NineBytes(first: seq<Byte>, next: seq<Byte>)
    requires |first| == 9 && |next| == 9 && first[4..] == [STX, COMMAND, 4, 1, 3]
    requires next[..4] == [STX, COMMAND, 4, 3]
    ensures (first[4..] + next)[..9] == [STX, COMMAND, 4, 1, 3, STX, COMMAND, 4, 3]
  {
    assert (first[4..] + next)[..9] == first[4..] + next[..4];
  }

  lemma NotQuiet(bytes: seq<Byte>, p: nat)
    requires p + 1 < |bytes| && bytes[p] == STX && bytes[p + 1] == COMMAND
    ensures !Quiet(bytes)
  {}

  /** A read returns what decoding finds in a buffer of at least five bytes. */
  lemma MadeUpStep(b: seq<Byte>)
    requires |b| >= 261 && b[..256] == Zeros(256)
    ensures DecodeFrom(FloatingPoint, b, 0).Data? ==>
      Step(FloatingPoint, Zeros(256), b[256..]).0 == DecodeFrom(FloatingPoint, b, 0)
  {
    hide DecodeFrom, ProcessFrom;
    assert Zeros(256) + b[256..] == b;
    ProcessFaultsExactly(b, 0);
  }

  lemma MadeUpBehind(front: seq<Byte>, back: seq<Byte>)
    requires |back| >= 9 && back[..9] == [STX, COMMAND, 4, 1, 3, STX, COMMAND, 4, 3]
    requires forall p :: 0 <= p < |front| ==> front[p] != STX
    ensures DecodeFrom(FloatingPoint, front + back, 0) == Data([1, 3, STX, COMMAND])
  {
    hide DecodeFrom;
    var b, at := front + back, |front|;
    DecodeSkips(FloatingPoint, b, 0, at);
    assert b[at..at + 9] == back[..9];
    MadeUp(b, at);
  }

  lemma MadeUp(b: seq<Byte>, at: nat)
    requires at + 9 <= |b| && b[at..at + 9] == [STX, COMMAND, 4, 1, 3, STX, COMMAND, 4, 3]
    ensures DecodeFrom(FloatingPoint, b, at) == Data([1, 3, STX, COMMAND])
  {
    hide Checksum;
    var w := b[at..at + 9];
    assert b[at] == w[0] && b[at + 1] == w[1] && b[at + 2] == w[2] && b[at + 7] == w[7] && b[at + 8] == w[8];
    assert w[3..7] == [1, 3, STX, COMMAND];
    assert b[at + 3..at + 7] == w[3..7] by {
      forall i | 0 <= i < 4 ensures b[at + 3..at + 7][i] == w[3..7][i] { assert w[3 + i] == b[at + 3 + i]; }
    }
    XorOfFour(COMMAND ^ 4, [1, 3, STX, COMMAND]);
    ChecksumIs(FloatingPoint, COMMAND ^ 4, [1, 3, STX, COMMAND]);
  }

  lemma {:induction false} StreamParts(f: Format, payloads: seq<seq<Byte>>, j: nat)
    requires j <= |payloads|
    ensures Stream(f, payloads) == Stream(f, payloads[..j]) + Stream(f, payloads[j..])
  {
    hide Packet;
    if j == 0 {
      assert payloads[0..] == payloads && payloads[..0] == [];
      assert [] + Stream(f, payloads) == Stream(f, payloads);
    } else {
      StreamParts(f, payloads[1..], j - 1);
      assert payloads[1..][..j - 1] == payloads[..j][1..] && payloads[1..][j - 1..] == payloads[j..];
    }
  }

  lemma WholeIsThere(f: Format, size: nat, k: nat, payloads: seq<seq<Byte>>)
    ensures WholePacket(f, size, k, payloads) <==> |payloads| > 0 && size >= k + Length(f) + 5
  {}

  lemma NothingRun(f: Format, buffer: seq<Byte>)
    ensures Run(f, buffer, []) == ([], buffer) && Returned([]) == []
  {}

  lemma FirstOfPayloads(payloads: seq<seq<Byte>>, more: seq<Decoded>)
    requires payloads != [] && Returned(more) <= payloads[1..]
    ensures var all := Returned([Data(payloads[0])] + more);
            all <= payloads && payloads[1..][|Returned(more)|..] == payloads[|all|..]
  {
    hide Returned;
    FirstReturned(payloads[0], more);
    assert payloads == [payloads[0]] + payloads[1..];
  }

  lemma FirstReturned(data: seq<Byte>, more: seq<Decoded>)
    ensures Returned([Data(data)] + more) == [data] + Returned(more)
  {
    assert ([Data(data)] + more)[1..] == more;
  }

  lemma NothingReturned(more: seq<Decoded>)
    ensures Returned([Nothing] + more) == Returned(more)
  {
    assert ([Nothing] + more)[1..] == more;
    assert [] + Returned(more) == Returned(more);
  }

  /** Once everything has arrived, payloads are missing only while a whole packet is buffered for the next read. */
  lemma NothingLost(f: Format, buffer: seq<Byte>, front: seq<Byte>, payloads: seq<seq<Byte>>)
    requires Holds(f, buffer, [], front, payloads)
    ensures payloads != [] <==> WholePacket(f, |buffer|, |front|, payloads)
  {
    hide Packet;
    assert buffer + [] == buffer;
    if payloads != [] { StreamStep(f, payloads); }
  }
}
