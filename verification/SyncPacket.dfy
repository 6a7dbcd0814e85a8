/** The 30-byte radio synchronisation packet: header, payload, filler and a big-endian CRC-16. */
module SyncPacket {
  import opened Words
  import opened Crc
  import opened CrcCode

  const PAYLOAD_LENGTH := 30
  const HEADER_LENGTH := 8
  const CRC_LENGTH := 2

  /** Bytes of a 16-bit value, most significant first. */
  function Be16(v: u16): (s: seq<u8>)
    ensures |s| == 2
  {
    [v / 0x100, v % 0x100]
  }

  /** The whole packet leaves a zero remainder exactly when its last two bytes are the CRC of the
      rest, so a receiver accepts this packet and no other trailer. */
  lemma TrailerIsResidueZero(m: seq<u8>, trailer: seq<u8>)
    requires |trailer| == 2
    ensures Crc16(m + trailer) == 0 <==> trailer == Be16(Crc16(m))
  {
    var own := Be16(Crc16(m));
    OwnTrailer(m);
    if trailer != own {
      ByteWindowIsBurst(m, trailer, own, []);
      assert m + trailer + [] == m + trailer && m + own + [] == m + own;
      Crc16DetectsBursts(m + trailer, m + own);
    }
  }

  lemma Be16Stream(v: u16)
    ensures MsbStream(Be16(v)) == MsbBits(v, 16)
  {
    var hi, lo := v / 0x100, v % 0x100;
    Pow2Of8();
    MsbBitsSplit(hi, lo, 8, 8);
    MsbStreamConcat([hi], [lo]);
    assert Be16(v) == [hi] + [lo];
  }

  lemma OwnTrailer(m: seq<u8>)
    ensures Crc16(m + Be16(Crc16(m))) == 0
  {
    var r, t := Register16(m), Be16(Crc16(m));
    Be16Stream(Crc16(m));
    MsbBitsOfValue(r);
    MsbStreamConcat(m, t);
    FeedConcat(POLY16, Ones(16), MsbStream(m), r);
    FeedOwnRegister(POLY16, r);
    ValueOfZeros(16);
  }

  lemma {:induction false} ValueOfZeros(n: nat)
    ensures MsbValue(Zeros(n)) == 0
  {
    if n > 0 {
      assert Zeros(n)[..n - 1] == Zeros(n - 1);
      ValueOfZeros(n - 1);
    }
  }

  class Transmitter {
    var packet: array<u8>
    var syncSequence: u8
    var randomState: u32

    constructor ()
      ensures fresh(packet) && packet.Length == PAYLOAD_LENGTH
      ensures syncSequence == 0 && randomState == 0x4A3B_2C1D
    {
      packet := new u8[PAYLOAD_LENGTH](i => 0);
      syncSequence := 0;
      randomState := 0x4A3B_2C1D;
    }

    method NextRandomByte(ticks: u32) returns (b: u8)
      modifies this`randomState
      ensures randomState == (old(randomState) * 1664525 + 1013904223 + ticks) % WORD
      ensures b == randomState / 0x100_0000
    {
      randomState := (randomState * 1664525 + 1013904223 + ticks) % WORD;
      b := randomState / 0x100_0000;
    }

    method CopyPayload(payload: seq<u8>)
      requires packet.Length == PAYLOAD_LENGTH && HEADER_LENGTH + |payload| <= PAYLOAD_LENGTH
      modifies packet
      ensures packet[..HEADER_LENGTH] == old(packet[..HEADER_LENGTH])
      ensures packet[HEADER_LENGTH..HEADER_LENGTH + |payload|] == payload
    {
      for i := 0 to |payload|
        invariant packet[..HEADER_LENGTH] == old(packet[..HEADER_LENGTH])
        invariant packet[HEADER_LENGTH..HEADER_LENGTH + i] == payload[..i]
      {
        packet[HEADER_LENGTH + i] := payload[i];
      }
    }

    method FillRest(from: nat, clock: nat -> u32)
      requires packet.Length == PAYLOAD_LENGTH && from <= PAYLOAD_LENGTH
      modifies this`randomState, packet
      ensures packet[..from] == old(packet[..from])
    {
      var index := from;
      while index < PAYLOAD_LENGTH - CRC_LENGTH
        invariant from <= index
        invariant packet[..from] == old(packet[..from])
      {
        var b := NextRandomByte(clock(index));
        packet[index] := b;
        index := index + 1;
      }
    }

    method WriteHeader(kind: u8, length: u8)
      requires packet.Length == PAYLOAD_LENGTH
      modifies packet
      ensures packet[..HEADER_LENGTH] == [0x53, 0x59, kind, length, 0, 0, syncSequence, 0]
    {
      packet[0], packet[1], packet[2], packet[3] := 0x53, 0x59, kind, length;
      packet[4], packet[5], packet[6], packet[7] := 0, 0, syncSequence, 0;
    }

    method AppendCrc()
      requires packet.Length == PAYLOAD_LENGTH
      modifies packet
      ensures packet[..PAYLOAD_LENGTH - CRC_LENGTH] == old(packet[..PAYLOAD_LENGTH - CRC_LENGTH])
      ensures Crc16(packet[..]) == 0
    {
      ghost var body := packet[..PAYLOAD_LENGTH - CRC_LENGTH];
      var crc := CalculateCrc16(packet[..PAYLOAD_LENGTH - CRC_LENGTH]);
      packet[PAYLOAD_LENGTH - 2] := crc / 0x100;
      packet[PAYLOAD_LENGTH - 1] := crc % 0x100;
      assert packet[..] == body + Be16(crc);
      TrailerIsResidueZero(body, Be16(crc));
    }

    /** Every packet carries its header, its sequence number and its payload, and has remainder
        zero over all thirty bytes, whatever the clock supplies as filler. */
    method BuildSyncPacket(kind: u8, payload: seq<u8>, clock: nat -> u32)
      requires packet.Length == PAYLOAD_LENGTH
      requires |payload| <= PAYLOAD_LENGTH - HEADER_LENGTH - CRC_LENGTH
      modifies this`syncSequence, this`randomState, packet
      ensures packet == old(packet)
      ensures packet[..8] == [0x53, 0x59, kind, |payload|, 0, 0, old(syncSequence), 0]
      ensures packet[8..8 + |payload|] == payload
      ensures syncSequence == (old(syncSequence) + 1) % 0x100
      ensures Crc16(packet[..]) == 0
    {
      hide Crc16;
      WriteHeader(kind, |payload|);
      syncSequence := (syncSequence + 1) % 0x100;
      CopyPayload(payload);
      ghost var start := packet[..HEADER_LENGTH + |payload|];
      assert start[..HEADER_LENGTH] == packet[..HEADER_LENGTH];
      assert start[HEADER_LENGTH..] == payload;
      FillRest(HEADER_LENGTH + |payload|, clock);
      ghost var body := packet[..PAYLOAD_LENGTH - CRC_LENGTH];
      assert body[..HEADER_LENGTH + |payload|] == start;
      AppendCrc();
      assert packet[..HEADER_LENGTH + |payload|] == body[..HEADER_LENGTH + |payload|];
      assert packet[..HEADER_LENGTH] == start[..HEADER_LENGTH];
      assert packet[HEADER_LENGTH..HEADER_LENGTH + |payload|] == start[HEADER_LENGTH..];
    }
  }
}
