/** Frames of the update protocol: version, type, sequence, length, payload and CRC-16, stuffed with
    COBS and closed by a zero byte; and the two readers that cut a byte stream back into frames. */
module Framing {
  import opened Words
  import opened Crc
  import opened CrcCode
  import opened Cobs

  const PROTOCOL_VERSION: u8 := 2
  const MAX_ENCODED_FRAME_SIZE := 160
  const OVERHEAD := 8

  datatype Frame = Frame(kind: u8, sequence: u16, payload: seq<u8>) {
    predicate Encodable() { |payload| < 0x1_0000 }

    function Head(): (h: seq<u8>)
      requires Encodable()
      ensures |h| == 6 + |payload|
    {
      [PROTOCOL_VERSION, kind] + Le16(sequence) + Le16(|payload|) + payload
    }

    function Packet(): (p: seq<u8>)
      requires Encodable()
      ensures |p| == OVERHEAD + |payload|
    {
      Head() + Le16(Crc16(Head()))
    }

    function Wire(): seq<u8>
      requires Encodable()
    {
      Encode(Packet()) + [0]
    }
  }

  /** What the receivers make of an unstuffed packet. */
  function Unpack(raw: seq<u8>): Option<Frame> {
    if |raw| < OVERHEAD then None
    else if raw[0] != PROTOCOL_VERSION || |raw| != OVERHEAD + Load16(raw, 4) then None
    else if Crc16(raw[..|raw| - 2]) != Load16(raw, |raw| - 2) then None
    else Some(Frame(raw[1], Load16(raw, 2), raw[6..|raw| - 2]))
  }

  function Accept(encoded: seq<u8>): Option<Frame> {
    match Decode(encoded)
    case None => None
    case Some(raw) => Unpack(raw)
  }

  lemma HeadLayout(f: Frame)
    requires f.Encodable()
    ensures var h := f.Head();
      && h[0] == PROTOCOL_VERSION && h[1] == f.kind
      && Load16(h, 2) == f.sequence && Load16(h, 4) == |f.payload| && h[6..] == f.payload
  {
    var h := f.Head();
    assert h[2] == Le16(f.sequence)[0] && h[3] == Le16(f.sequence)[1];
    assert h[4] == Le16(|f.payload|)[0] && h[5] == Le16(|f.payload|)[1];
  }

  /** Parsing inverts packing. */
  lemma UnpackPacket(f: Frame)
    requires f.Encodable()
    ensures Unpack(f.Packet()) == Some(f)
  {
    hide Crc16;
    var h, p := f.Head(), f.Packet();
    HeadLayout(f);
    assert p[..|p| - 2] == h;
    assert forall i | 0 <= i < 6 :: p[i] == h[i];
    assert p[6..|p| - 2] == h[6..];
    assert p[|p| - 2] == Le16(Crc16(h))[0] && p[|p| - 1] == Le16(Crc16(h))[1];
  }

  /** And only a packed frame parses: the receivers accept nothing else. */
  lemma UnpackExact(raw: seq<u8>)
    requires Unpack(raw).Some?
    ensures var f := Unpack(raw).value; f.Encodable() && raw == f.Packet()
  {
    hide Crc16;
    var f := Unpack(raw).value;
    var h := raw[..|raw| - 2];
    assert f.payload == h[6..];
    HalfBytes(raw[2], raw[3]);
    HalfBytes(raw[4], raw[5]);
    HalfBytes(raw[|raw| - 2], raw[|raw| - 1]);
    assert f.Head() == h;
    assert raw == h + [raw[|raw| - 2], raw[|raw| - 1]];
  }

  lemma HalfBytes(a: u8, b: u8)
    ensures Le16(a + 0x100 * b as int) == [a, b]
  {
  }

  // ----- readers ------------------------------------------------------------------------------

  /** A nonzero byte joins the frame under construction.  The device drops frame and byte when its
      buffer is full; the host has no limit. */
  function Accumulate(limit: Option<nat>, pending: seq<u8>, b: u8): seq<u8> {
    if limit.Some? && |pending| >= limit.value then [] else pending + [b]
  }

  /** All frames a reader returns from a byte stream, starting with `pending` already collected. */
  function Frames(limit: Option<nat>, pending: seq<u8>, input: seq<u8>): seq<Frame>
    decreases |input|
  {
    if input == [] then []
    else if input[0] != 0 then Frames(limit, Accumulate(limit, pending, input[0]), input[1..])
    else Found(Accept(pending)) + Frames(limit, [], input[1..])
  }

  function Found(f: Option<Frame>): seq<Frame> {
    match f
    case None => []
    case Some(frame) => [frame]
  }

  predicate Fits(limit: Option<nat>, n: nat) {
    limit.Some? ==> n <= limit.value
  }

  const DEVICE: Option<nat> := Some(MAX_ENCODED_FRAME_SIZE)
  const HOST: Option<nat> := None

  lemma {:induction false} FramesThrough(limit: Option<nat>, pending: seq<u8>, x: seq<u8>, rest: seq<u8>)
    requires ZeroFree(x) && Fits(limit, |pending| + |x|)
    ensures Frames(limit, pending, x + rest) == Frames(limit, pending + x, rest)
    decreases |x|
  {
    if x == [] {
      assert x + rest == rest && pending + x == pending;
    } else {
      var input := x + rest;
      assert input[1..] == x[1..] + rest && input[0] == x[0];
      FramesThrough(limit, pending + [x[0]], x[1..], rest);
      assert pending + [x[0]] + x[1..] == pending + x;
    }
  }

  /** A frame that starts on a boundary and fits the buffer is returned intact, and the reader is on
      a boundary again behind it. */
  lemma FrameDelivered(limit: Option<nat>, f: Frame, rest: seq<u8>)
    requires f.Encodable() && Fits(limit, |Encode(f.Packet())|)
    ensures Frames(limit, [], f.Wire() + rest) == [f] + Frames(limit, [], rest)
  {
    hide Encode, Decode, Unpack;
    var e := Encode(f.Packet());
    EncodingShape(f.Packet());
    RoundTrip(f.Packet());
    UnpackPacket(f);
    var input := [0] + rest;
    assert f.Wire() + rest == e + input;
    FramesThrough(limit, [], e, input);
    assert [] + e == e && input[1..] == rest;
  }

  lemma {:induction false} FramesSplit(limit: Option<nat>, pending: seq<u8>, garbage: seq<u8>, rest: seq<u8>)
    ensures Frames(limit, pending, garbage + [0] + rest)
         == Frames(limit, pending, garbage + [0]) + Frames(limit, [], rest)
    decreases |garbage|
  {
    hide Accept;
    var a, b := garbage + [0] + rest, garbage + [0];
    if garbage == [] {
      assert a[1..] == rest && b[1..] == [];
      assert a[0] == 0 && b[0] == 0;
    } else {
      assert a[0] == garbage[0] == b[0];
      assert a[1..] == garbage[1..] + [0] + rest;
      assert b[1..] == garbage[1..] + [0];
      var next := if garbage[0] != 0 then Accumulate(limit, pending, garbage[0]) else [];
      FramesSplit(limit, next, garbage[1..], rest);
    }
  }

  /** Resynchronisation: whatever bytes came before a delimiter, and whatever the reader held, the
      next frame is delivered and what follows is read as if from the start. */
  lemma Resynchronises(limit: Option<nat>, pending: seq<u8>, garbage: seq<u8>, f: Frame, rest: seq<u8>)
    requires f.Encodable() && Fits(limit, |Encode(f.Packet())|)
    ensures Frames(limit, pending, garbage + [0] + (f.Wire() + rest))
         == Frames(limit, pending, garbage + [0]) + [f] + Frames(limit, [], rest)
  {
    FramesSplit(limit, pending, garbage, f.Wire() + rest);
    FrameDelivered(limit, f, rest);
  }

  /** A frame fits the device's buffer exactly when its payload has at most 151 bytes. */
  lemma FitsDevice(f: Frame)
    requires f.Encodable()
    ensures Fits(DEVICE, |Encode(f.Packet())|) <==> |f.payload| <= 151
  {
    EncodingShape(f.Packet());
  }

  function WireAll(fs: seq<Frame>): seq<u8>
    requires forall f | f in fs :: f.Encodable()
  {
    if fs == [] then [] else fs[0].Wire() + WireAll(fs[1..])
  }

  /** Whole streams: the device reads back every sequence of frames the host can send it, and the
      host every sequence at all. */
  lemma {:induction false} StreamRoundTrip(fs: seq<Frame>)
    requires forall f | f in fs :: f.Encodable()
    ensures Frames(HOST, [], WireAll(fs)) == fs
    ensures (forall f | f in fs :: |f.payload| <= 151) ==> Frames(DEVICE, [], WireAll(fs)) == fs
  {
    if fs != [] {
      StreamRoundTrip(fs[1..]);
      FrameDelivered(HOST, fs[0], WireAll(fs[1..]));
      FitsDevice(fs[0]);
      if |fs[0].payload| <= 151 {
        FrameDelivered(DEVICE, fs[0], WireAll(fs[1..]));
      }
      assert fs == [fs[0]] + fs[1..];
    }
  }

  /** No input whatever makes the device return a frame its 152-byte payload buffer cannot hold. */
  lemma {:induction false} DevicePayloadBound(pending: seq<u8>, input: seq<u8>, f: Frame)
    requires |pending| <= MAX_ENCODED_FRAME_SIZE && f in Frames(DEVICE, pending, input)
    ensures |f.payload| <= 151 && f.Encodable()
    decreases |input|
  {
    if input[0] != 0 {
      DevicePayloadBound(Accumulate(DEVICE, pending, input[0]), input[1..], f);
    } else if f in Frames(DEVICE, [], input[1..]) {
      DevicePayloadBound([], input[1..], f);
    } else {
      assert Accept(pending) == Some(f);
      DecodeShrinks(pending);
      UnpackExact(Decode(pending).value);
    }
  }

  // ----- the source's writers -----------------------------------------------------------------

  const MAX_PROTOCOL_PAYLOAD := 152

  /** The header fields and the payload, laid out in the buffer. */
  method StoreHead(f: Frame, decodedFrame: array<u8>)
    requires |f.payload| <= MAX_PROTOCOL_PAYLOAD && decodedFrame.Length == MAX_ENCODED_FRAME_SIZE
    modifies decodedFrame
    ensures decodedFrame[..6 + |f.payload|] == f.Head()
  {
    hide Crc16, Encode;
    var length := |f.payload|;
    decodedFrame[0], decodedFrame[1] := PROTOCOL_VERSION, f.kind;
    decodedFrame[2], decodedFrame[3] := f.sequence % 0x100, f.sequence / 0x100;
    decodedFrame[4], decodedFrame[5] := length % 0x100, length / 0x100;
    forall i | 0 <= i < length {
      decodedFrame[6 + i] := f.payload[i];
    }
  }

  /** writeProtocolFrame: header fields, payload and CRC assembled in one buffer, stuffed into the
      other, and sent with a delimiter: the bytes both readers turn back into this frame. */
  method WriteProtocolFrame(f: Frame) returns (sent: seq<u8>)
    requires |f.payload| <= MAX_PROTOCOL_PAYLOAD
    ensures sent == f.Wire()
  {
    hide Crc16, Encode, Frame.Head;
    var decodedFrame := new u8[MAX_ENCODED_FRAME_SIZE](i => 0);
    var encodedFrame := new u8[MAX_ENCODED_FRAME_SIZE + 2](i => 0);
    var length := |f.payload|;
    StoreHead(f, decodedFrame);
    var frameCrc := CalculateCrc16(decodedFrame[..6 + length]);
    decodedFrame[6 + length], decodedFrame[7 + length] := frameCrc % 0x100, frameCrc / 0x100;
    assert decodedFrame[..OVERHEAD + length] == f.Head() + Le16(frameCrc);
    EncodingShape(f.Packet());
    var frameLength := EncodeInto(decodedFrame[..OVERHEAD + length], encodedFrame);
    sent := encodedFrame[..frameLength] + [0];
  }

  /** encode of the host; a payload whose length does not fit its field is an error. */
  method EncodeFrame(kind: u8, sequence: u16, payload: seq<u8>) returns (wire: Option<seq<u8>>)
    ensures wire.Some? <==> |payload| < 0x1_0000
    ensures wire.Some? ==> wire.value == Frame(kind, sequence, payload).Wire()
  {
    hide Crc16, Encode;
    if |payload| >= 0x1_0000 {
      return None;
    }
    var head := [PROTOCOL_VERSION, kind] + Le16(sequence) + Le16(|payload|) + payload;
    var crc := CalculateCrc16(head);
    var stuffed := EncodeGrowing(head + Le16(crc));
    wire := Some(stuffed + [0]);
  }

  // ----- the source's reader loops ------------------------------------------------------------

  /** The device's checks on a decoded buffer.  The expected length is truncated to 16 bits before
      it is compared; with at least eight and fewer than 65528 bytes decoded that changes nothing. */
  method CheckDecoded(buffer: array<u8>, decodedLength: nat) returns (r: Option<Frame>)
    requires OVERHEAD <= decodedLength <= buffer.Length && decodedLength < 0xFFF8
    ensures r == Unpack(buffer[..decodedLength])
  {
    hide Crc16;
    var raw := buffer[..decodedLength];
    var expectedLength := (OVERHEAD + buffer[4] + buffer[5] as int * 0x100) % 0x1_0000;
    var receivedCrc := Load16(raw, decodedLength - 2);
    if decodedLength == expectedLength && buffer[0] == PROTOCOL_VERSION {
      var crc := CalculateCrc16(raw[..decodedLength - 2]);
      if receivedCrc == crc {
        return Some(Frame(buffer[1], Load16(raw, 2), raw[6..decodedLength - 2]));
      }
    }
    return None;
  }

  /** readProtocolFrame, on the bytes the UART delivers until it would block for ever. */
  method ReadProtocolFrame(input: seq<u8>) returns (r: Option<Frame>, rest: seq<u8>)
    ensures r.None? ==> Frames(DEVICE, [], input) == []
    ensures r.Some? ==> Frames(DEVICE, [], input) == [r.value] + Frames(DEVICE, [], rest)
    ensures r.Some? ==> |r.value.payload| <= 151
  {
    hide Accept;
    var encodedFrame := new u8[MAX_ENCODED_FRAME_SIZE](i => 0);
    var encodedLength := 0;
    rest := input;
    while rest != []
      invariant 0 <= encodedLength <= MAX_ENCODED_FRAME_SIZE
      invariant Frames(DEVICE, [], input) == Frames(DEVICE, encodedFrame[..encodedLength], rest)
      decreases |rest|
    {
      var receivedByte := rest[0];
      rest := rest[1..];
      if receivedByte != 0 {
        if encodedLength < MAX_ENCODED_FRAME_SIZE {
          PutByte(encodedFrame, encodedLength, receivedByte);
          encodedLength := encodedLength + 1;
        } else {
          encodedLength := 0;
        }
      } else {
        var found := AcceptInPlace(encodedFrame, encodedLength);
        if found.Some? {
          return found, rest;
        }
        encodedLength := 0;
      }
    }
    r := None;
  }

  /** What the device does at a delimiter: decode in place, then check. */
  method AcceptInPlace(buffer: array<u8>, encodedLength: nat) returns (r: Option<Frame>)
    requires encodedLength <= buffer.Length == MAX_ENCODED_FRAME_SIZE
    modifies buffer
    ensures r == Accept(old(buffer[..encodedLength]))
    ensures r.Some? ==> |r.value.payload| <= 151
  {
    ghost var e := buffer[..encodedLength];
    if encodedLength == 0 {
      return None;
    }
    var decoded := DecodeInPlace(buffer, encodedLength);
    if decoded.None? {
      return None;
    }
    DecodeShrinks(e);
    if decoded.value < OVERHEAD {
      return None;
    }
    r := CheckDecoded(buffer, decoded.value);
  }

  function StripZeros(s: seq<u8>): seq<u8> {
    if s != [] && s[|s| - 1] == 0 then StripZeros(s[..|s| - 1]) else s
  }

  /** decode of the host: strips the delimiter, unstuffs and checks. */
  method DecodeWire(wire: seq<u8>) returns (r: Option<Frame>)
    ensures r == Accept(StripZeros(wire))
  {
    hide Crc16, Decode;
    var decoded := DecodeGrowing(StripZeros(wire));
    if decoded.None? || |decoded.value| < OVERHEAD {
      return None;
    }
    var raw := decoded.value;
    if raw[0] != PROTOCOL_VERSION || |raw| != OVERHEAD + Load16(raw, 4) {
      return None;
    }
    var crc := CalculateCrc16(raw[..|raw| - 2]);
    if crc != Load16(raw, |raw| - 2) {
      return None;
    }
    r := Some(Frame(raw[1], Load16(raw, 2), raw[6..|raw| - 2]));
  }

  /** _read_frame, on the bytes that arrive before the deadline. */
  method ReadFrame(input: seq<u8>) returns (r: Option<Frame>, rest: seq<u8>)
    ensures r.None? ==> Frames(HOST, [], input) == []
    ensures r.Some? ==> Frames(HOST, [], input) == [r.value] + Frames(HOST, [], rest)
  {
    hide Accept;
    var data: seq<u8> := [];
    rest := input;
    while rest != []
      invariant ZeroFree(data)
      invariant Frames(HOST, [], input) == Frames(HOST, data, rest)
      decreases |rest|
    {
      var byte := rest[0];
      rest := rest[1..];
      if byte == 0 {
        assert (data + [byte])[..|data|] == data;
        r := DecodeWire(data + [byte]);
        if r.Some? {
          return;
        }
        data := [];
      } else {
        data := data + [byte];
      }
    }
    r := None;
  }
}
